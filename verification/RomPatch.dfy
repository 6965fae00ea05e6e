/** The WS63 mask-ROM patch table, built in two ways: `generate-rom-patch.py` encodes every long jump
    itself after the final link; `build.rs` leaves an `auipc`/`jalr` pair with a call relocation whose
    addend makes the linker encode it. Both tables are the same, and every jump lands. */
module RomPatch {
  import opened Bytes

  const ROM_START: U32 := 0x0010_9000
  const ROM_END: U32 := 0x0014_C000
  const PATCH_VMA: U32 := 0x0014_C000
  const PATCH_SIZE := 0x928
  const REMAP_SIZE := 0x610
  const COMPARE_SIZE := 0x318
  const DATA_PATCH_ENTRY_COUNT := 2
  const INSTRUCTION_COMPARE_COUNT := 192
  const COMPARE_HEADER_WORDS := 3
  const R_RISCV_CALL_PLT := 19

  const AUIPC_X6: U32 := 0x317
  const JALR_X0_X6: U32 := 0x3_0067

  function Even(address: U32): (r: U32)
    ensures r % 2 == 0 && r <= address
  {
    address - address % 2
  }

  // ----- one jump -----

  datatype Jump = Jump(auipc: U32, jalr: U32)

  /** The two halves of a displacement: the low twelve bits, and the rest with the carry that makes up
      for the sign extension of the low half. */
  function Low12(offset: int): int { offset % 0x1000 }

  /** Sign-extended low half, as the jump adds it. */
  function SignedLow(offset: int): int {
    if Low12(offset) > 0x7ff then Low12(offset) - 0x1000 else Low12(offset)
  }

  /** The upper half: `offset & 0xFFFFF000` is the displacement modulo 2^32 without its low bits; a low
      half that will be subtracted is carried into it. */
  function CarriedHigh(offset: int): (h: U32)
    ensures h % 0x1000 == 0 && h <= 0xffff_f000
  {
    MaskedHigh(offset);
    var high := Mod32(offset) - Low12(offset);
    if Low12(offset) > 0x7ff then Mod32(high + 0x1000) else high
  }

  /** The pair with its two immediate fields filled in. */
  function Pair(high: U32, low: int): (j: Jump)
    requires high % 0x1000 == 0 && high <= 0xffff_f000 && 0 <= low < 0x1000
    ensures j.auipc % 0x1000 == AUIPC_X6 && j.auipc - AUIPC_X6 == high
    ensures j.jalr % 0x10_0000 == JALR_X0_X6 && j.jalr / 0x10_0000 == low
  {
    PairFields(high, low);
    Jump(AUIPC_X6 + high, JALR_X0_X6 + low * 0x10_0000)
  }

  lemma PairFields(high: U32, low: int)
    requires high % 0x1000 == 0 && 0 <= low < 0x1000
    ensures (AUIPC_X6 + high) % 0x1000 == AUIPC_X6
    ensures (JALR_X0_X6 + low * 0x10_0000) % 0x10_0000 == JALR_X0_X6
            && (JALR_X0_X6 + low * 0x10_0000) / 0x10_0000 == low
  {
    assert high == high / 0x1000 * 0x1000;
  }

  /** `encode_long_jump`. */
  function EncodeLongJump(source: U32, destination: U32): Jump {
    var offset := Even(destination) - Even(source);
    Pair(CarriedHigh(offset), Low12(offset))
  }

  lemma MaskedHigh(offset: int)
    ensures Mod32(offset) % 0x1000 == Low12(offset)
    ensures var high := Mod32(offset) - Low12(offset);
            && 0 <= high <= 0xffff_f000 && high % 0x1000 == 0
            && (high + 0x1000 <= 0xffff_ffff ==> Mod32(high + 0x1000) == high + 0x1000)
            && (high + 0x1000 > 0xffff_ffff ==> Mod32(high + 0x1000) == 0)
  {
    assert offset == offset / 0x1_0000_0000 * 0x1_0000_0000 + Mod32(offset);
    assert offset == (offset / 0x1_0000_0000 * 0x10_0000) * 0x1000 + Mod32(offset);
  }

  /** What a stock linker does to the pair for R_RISCV_CALL_PLT, with value S + A - P. */
  function LinkCall(pair: Jump, value: int): Jump {
    var v := Mod32(value);
    Jump(pair.auipc % 0x1000 + (Mod32(v + 0x800) - Mod32(v + 0x800) % 0x1000),
         pair.jalr % 0x10_0000 + Low12(v) * 0x10_0000)
  }

  /** The instruction set's fields: `auipc` is opcode 0x17 with its destination in bits 7 to 11; `jalr` is opcode
      0x67 with destination, function 0 and source register in bits 7, 12 and 15. */
  predicate IsJumpPair(jump: Jump, register: nat) {
    && jump.auipc % 0x80 == 0x17 && jump.auipc / 0x80 % 0x20 == register
    && jump.jalr % 0x80 == 0x67 && jump.jalr / 0x80 % 0x20 == 0
    && jump.jalr / 0x1000 % 8 == 0 && jump.jalr / 0x8000 % 0x20 == register
  }

  lemma PairIsJump(high: U32, low: int)
    requires high % 0x1000 == 0 && high <= 0xffff_f000 && 0 <= low < 0x1000
    ensures IsJumpPair(Pair(high, low), 6)
  {
    var pair := Pair(high, low);
    assert pair.auipc == high / 0x1000 * 0x1000 + 0x317;
    assert pair.auipc / 0x80 == high / 0x1000 * 0x20 + 6;
    assert pair.jalr == low * 0x10_0000 + 0x3_0067;
    assert pair.jalr / 0x80 == low * 0x2000 + 0x600;
    assert pair.jalr / 0x1000 == low * 0x100 + 0x30;
    assert pair.jalr / 0x8000 == low * 0x20 + 6;
  }

  /** Run `auipc x6, hi; jalr x0, x6, lo` at `pc`; None if the words are not that pair. */
  function Execute(jump: Jump, pc: U32): Option<U32> {
    if !IsJumpPair(jump, 6) then None
    else
      var x6 := Mod32(pc + (jump.auipc - jump.auipc % 0x1000));
      var imm := jump.jalr / 0x10_0000;
      var target := Mod32(x6 + if imm < 0x800 then imm else imm - 0x1000);
      Some(Even(target))
  }

  /** Both halves together are the displacement, modulo 2^32. */
  lemma HalvesAdd(offset: int)
    ensures Mod32(CarriedHigh(offset) + SignedLow(offset)) == Mod32(offset)
  {
    var m, low := Mod32(offset), Low12(offset);
    MaskedHigh(offset);
    if low > 0x7ff && m - low + 0x1000 > 0xffff_ffff {
      assert CarriedHigh(offset) + SignedLow(offset) == m + (-1) * 0x1_0000_0000;
      ModShift(m, -1);
    }
  }

  lemma EvenFixed(address: U32)
    requires address % 2 == 0
    ensures Even(address) == address
  {
  }

  lemma PairExecutes(high: U32, low: int, pc: U32)
    requires high % 0x1000 == 0 && high <= 0xffff_f000 && 0 <= low < 0x1000
    ensures Execute(Pair(high, low), pc)
         == Some(Even(Mod32(Mod32(pc + high) + if low < 0x800 then low else low - 0x1000)))
  {
    PairIsJump(high, low);
    hide IsJumpPair, Mod32, Even;
    var pair := Pair(high, low);
    assert pair.auipc - pair.auipc % 0x1000 == high && pair.jalr / 0x10_0000 == low;
    hide Pair;
  }

  /** The jump installed for a ROM entry, executed at that entry, lands on the replacement. */
  lemma JumpLands(source: U32, destination: U32)
    ensures Execute(EncodeLongJump(source, destination), Even(source)) == Some(Even(destination))
  {
    hide CarriedHigh, Pair, Even, Execute, Mod32;
    var offset := Even(destination) - Even(source);
    HalvesAdd(offset);
    PairExecutes(CarriedHigh(offset), Low12(offset), Even(source));
    InRange(Even(destination));
    Wraps(Even(source), CarriedHigh(offset), SignedLow(offset), offset);
    assert Even(source) + offset == Even(destination);
    EvenFixed(Even(destination));
  }

  lemma InRange(address: U32)
    ensures Mod32(address) == address
  {
  }

  /** Adding the halves one after the other, wrapping each time, adds the displacement. */
  lemma Wraps(pc: int, carried: int, signed: int, offset: int)
    requires Mod32(carried + signed) == Mod32(offset)
    ensures Mod32(Mod32(pc + carried) + signed) == Mod32(pc + offset)
  {
    ModAdd(pc + carried, signed);
    ModAdd(carried + signed, pc);
    ModAdd(offset, pc);
    assert pc + carried + signed == carried + signed + pc;
  }

  lemma ModAdd(a: int, b: int)
    ensures Mod32(Mod32(a) + b) == Mod32(a + b)
  {
    var q := a / 0x1_0000_0000;
    assert a == q * 0x1_0000_0000 + Mod32(a);
    ModShift(Mod32(a) + b, q);
  }

  lemma ModShift(a: int, k: int)
    ensures Mod32(a + k * 0x1_0000_0000) == Mod32(a)
  {
    var q := a / 0x1_0000_0000;
    assert a + k * 0x1_0000_0000 == (q + k) * 0x1_0000_0000 + Mod32(a);
  }

  /** The words the linker makes of the placeholder pair. */
  lemma LinkedPair(value: int)
    ensures LinkCall(Jump(AUIPC_X6, JALR_X0_X6), value) == Pair(CarriedHigh(value), Low12(value))
  {
    MaskedHigh(value);
    CarryByRounding(Mod32(value));
  }

  /** The addend `slot - original` cancels the slot's own address, so the linker encodes the displacement
      from the ROM entry; the lanes' words agree exactly when the replacement is even. */
  lemma CallMatchesLongJump(original: U32, replacement: U32, slot: U32)
    ensures LinkCall(Jump(AUIPC_X6, JALR_X0_X6), replacement + (slot - Even(original)) - slot) ==
            EncodeLongJump(original, replacement)
       <==> replacement % 2 == 0
  {
    hide CarriedHigh, Pair, LinkCall, Even, Low12;
    var value := replacement - Even(original);
    assert replacement + (slot - Even(original)) - slot == value;
    LinkedPair(value);
    if replacement % 2 == 0 {
      EvenFixed(replacement);
    } else {
      OddLow(replacement, Even(original));
    }
  }

  lemma OddLow(replacement: U32, source: U32)
    requires replacement % 2 != 0 && source % 2 == 0
    ensures Low12(replacement - source) != Low12(Even(replacement) - source)
  {
    var offset := Even(replacement) - source;
    assert replacement - source == offset + 1;
    assert offset == offset / 0x1000 * 0x1000 + Low12(offset);
  }

  /** Adding 0x800 before dropping the low half carries exactly when the low half is above 0x7ff. */
  lemma CarryByRounding(v: U32)
    ensures var low := v % 0x1000; var high := v - low; var rounded := Mod32(v + 0x800);
            rounded - rounded % 0x1000 == if low > 0x7ff then Mod32(high + 0x1000) else high
  {
    var low := v % 0x1000;
    var high := v - low;
    assert high % 0x1000 == 0 && high == v / 0x1000 * 0x1000;
    if low > 0x7ff {
      assert v + 0x800 == (v / 0x1000 + 1) * 0x1000 + (low - 0x800);
    } else {
      assert v + 0x800 == v / 0x1000 * 0x1000 + (low + 0x800);
    }
  }
}
