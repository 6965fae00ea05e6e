/** The vendor BRANCHI immediate: a halfword-aligned displacement of ten bits, kept in bits 7..11 and
    20..23 of the instruction word (mask 0x00f0_0f80). */
module Branchi {
  import opened Bytes

  function LowField(word: U32): int { word / 0x80 % 0x20 }

  function HighField(word: U32): int { word / 0x10_0000 % 0x10 }

  /** `word & !0x00f0_0f80`. */
  function WithoutImmediate(word: U32): (r: U32) {
    word - LowField(word) * 0x80 - HighField(word) * 0x10_0000
  }

  /** The instruction's own reading of its immediate: ten bits, sign extended, bit 0 clear. */
  function Decode(word: U32): int {
    var raw := LowField(word) * 2 + HighField(word) * 0x40;
    if raw < 0x200 then raw else raw - 0x400
  }

  predicate Encodable(displacement: int) {
    displacement % 2 == 0 && -0x200 <= displacement <= 0x1fe
  }

  /** Store the ten encoded bits: `((e & 0x03e) << 6) | ((e & 0x3c0) << 14)`. */
  function Insert(word: U32, encoded: int): (r: U32)
    requires 0 <= encoded < 0x400
    ensures LowField(r) == encoded / 2 % 0x20 && HighField(r) == encoded / 0x40
    ensures WithoutImmediate(r) == WithoutImmediate(word)
  {
    WithFields(word, encoded / 2 % 0x20, encoded / 0x40)
  }

  /** Both fields cleared, then set. */
  function WithFields(word: U32, low: int, high: int): (r: U32)
    requires 0 <= low < 0x20 && 0 <= high < 0x10
    ensures LowField(r) == low && HighField(r) == high
    ensures WithoutImmediate(r) == WithoutImmediate(word)
  {
    FieldsOf(word, low, high);
    WithoutImmediate(word) + low * 0x80 + high * 0x10_0000
  }

  /** A word put together from what lies below, in, between and above the two fields. */
  lemma FieldsJoined(bottom: int, low: int, middle: int, high: int, top: int)
    requires 0 <= bottom < 0x80 && 0 <= low < 0x20 && 0 <= middle < 0x100 && 0 <= high < 0x10 && 0 <= top < 0x100
    ensures var r := bottom + low * 0x80 + middle * 0x1000 + high * 0x10_0000 + top * 0x100_0000;
            && 0 <= r < 0x1_0000_0000 && LowField(r) == low && HighField(r) == high
            && WithoutImmediate(r) == bottom + middle * 0x1000 + top * 0x100_0000
  {
    var r := bottom + low * 0x80 + middle * 0x1000 + high * 0x10_0000 + top * 0x100_0000;
    assert r / 0x80 == low + (middle + (high + top * 0x10) * 0x100) * 0x20;
    assert r / 0x10_0000 == high + top * 0x10;
  }

  /** Every word is put together so. */
  lemma WordSplit(word: U32)
    ensures word == word % 0x80 + LowField(word) * 0x80 + word / 0x1000 % 0x100 * 0x1000 + HighField(word) * 0x10_0000
                    + word / 0x100_0000 * 0x100_0000
  {
    assert word / 0x80 == word / 0x1000 * 0x20 + LowField(word);
    assert word / 0x1000 == word / 0x10_0000 * 0x100 + word / 0x1000 % 0x100;
    assert word / 0x10_0000 == word / 0x100_0000 * 0x10 + HighField(word);
  }

  lemma FieldsOf(word: U32, low: int, high: int)
    requires 0 <= low < 0x20 && 0 <= high < 0x10
    ensures var r := WithoutImmediate(word) + low * 0x80 + high * 0x10_0000;
            && 0 <= r < 0x1_0000_0000
            && LowField(r) == low && HighField(r) == high && WithoutImmediate(r) == WithoutImmediate(word)
  {
    WordSplit(word);
    hide LowField, HighField;
    FieldsJoined(word % 0x80, low, word / 0x1000 % 0x100, high, word / 0x100_0000);
  }

  /** The ten bits kept of a displacement that passes through `as i32 as u32` before masking. */
  function TenBits(displacement: int): (e: int)
    ensures 0 <= e < 0x400
    ensures -0x200 <= displacement < 0x200 ==> e == displacement % 0x400
  {
    LowTenBits(displacement);
    Mod32(Signed(Mod32(displacement))) % 0x400
  }

  /** The normalizer's encoder. */
  function Encode(word: U32, displacement: int): (r: Option<U32>) {
    if displacement % 2 != 0 then None
    else if !(-0x200 <= displacement <= 0x1fe) then None
    else Some(Insert(word, TenBits(displacement)))
  }

  /** The patch lane's encoder masks the unbounded integer directly. */
  function PatchEncode(word: U32, displacement: int): (r: Option<U32>) {
    if displacement % 2 == 1 then None
    else if !(-0x200 <= displacement <= 0x1fe) then None
    else Some(Insert(word, displacement % 0x400))
  }

  lemma EncodersAgree(word: U32, displacement: int)
    ensures Encode(word, displacement) == PatchEncode(word, displacement)
  {
    hide TenBits, Insert;
  }

  lemma LowTenBits(displacement: int)
    ensures -0x200 <= displacement < 0x200 ==> Mod32(Signed(Mod32(displacement))) % 0x400 == displacement % 0x400
  {
    if -0x200 <= displacement < 0 {
      assert Mod32(displacement) == displacement + 0x1_0000_0000;
      assert displacement + 0x1_0000_0000 == 0x3f_ffff * 0x400 + (displacement + 0x400);
    }
  }

  /** Ten even bits split over the two fields and come back. */
  lemma FieldsRejoin(displacement: int)
    requires Encodable(displacement)
    ensures var e := displacement % 0x400;
            var raw := e / 2 % 0x20 * 2 + e / 0x40 * 0x40;
            raw == e && displacement == if raw < 0x200 then raw else raw - 0x400
  {
    var e := displacement % 0x400;
    var half := e / 2;
    assert e == 2 * half;
    assert half == half / 0x20 * 0x20 + half % 0x20;
    assert e / 0x40 == half / 0x20;
  }

  /** Exactly the even displacements in [-512, 510] are accepted; the decoder undoes the encoder and
      every bit outside the immediate is kept. */
  lemma DecodeEncode(word: U32, displacement: int)
    ensures Encode(word, displacement).Some? <==> Encodable(displacement)
    ensures Encodable(displacement) ==>
              && Decode(Encode(word, displacement).value) == displacement
              && WithoutImmediate(Encode(word, displacement).value) == WithoutImmediate(word)
  {
    EncodersAgree(word, displacement);
    if Encodable(displacement) {
      FieldsRejoin(displacement);
    }
  }

  /** Where the displacement's bits go: 1 to 5 to the word's bits 7 to 11, 6 to 9 to its bits 20 to 23; every
      other bit of the word is kept. */
  lemma ImmediatePlaces(word: U32, displacement: int)
    requires Encode(word, displacement).Some?
    ensures var r := Encode(word, displacement).value;
            && r / 0x80 % 0x20 == displacement / 2 % 0x20 && r / 0x10_0000 % 0x10 == displacement / 0x40 % 0x10
            && r % 0x80 == word % 0x80 && r / 0x1000 % 0x100 == word / 0x1000 % 0x100
            && r / 0x100_0000 == word / 0x100_0000
  {
    DecodeEncode(word, displacement);
    EncodersAgree(word, displacement);
    var r := Encode(word, displacement).value;
    var kept := word % 0x80 + word / 0x1000 % 0x100 * 0x1000 + word / 0x100_0000 * 0x100_0000;
    WordSplit(word);
    assert WithoutImmediate(word) == kept;
    WordSplit(r);
    OutsidePlaces(kept, word % 0x80, word / 0x1000 % 0x100, word / 0x100_0000);
    OutsidePlaces(kept, r % 0x80, r / 0x1000 % 0x100, r / 0x100_0000);
    ModuloFields(displacement);
  }

  lemma OutsidePlaces(kept: int, bottom: int, middle: int, top: int)
    requires 0 <= bottom < 0x80 && 0 <= middle < 0x100 && 0 <= top < 0x100
    requires kept == bottom + middle * 0x1000 + top * 0x100_0000
    ensures bottom == kept % 0x80 && middle == kept / 0x1000 % 0x100 && top == kept / 0x100_0000
  {
    assert kept / 0x1000 == middle + top * 0x1000;
  }

  lemma ModuloFields(displacement: int)
    ensures var e := displacement % 0x400;
            e / 2 % 0x20 == displacement / 2 % 0x20 && e / 0x40 == displacement / 0x40 % 0x10
  {
    ModuloLow(displacement / 0x400, displacement % 0x400);
    ModuloHigh(displacement / 0x400, displacement % 0x400);
    assert displacement / 0x400 * 0x400 + displacement % 0x400 == displacement;
  }

  lemma ModuloLow(q: int, e: int)
    ensures (q * 0x400 + e) / 2 % 0x20 == e / 2 % 0x20
  {
    assert (q * 0x400 + e) / 2 == q * 0x200 + e / 2;
    Fewer(q * 0x10, e / 2);
  }

  lemma Fewer(k: int, n: int)
    ensures (k * 0x20 + n) % 0x20 == n % 0x20
  {
  }

  lemma ModuloHigh(q: int, e: int)
    requires 0 <= e < 0x400
    ensures (q * 0x400 + e) / 0x40 % 0x10 == e / 0x40
  {
    assert (q * 0x400 + e) / 0x40 == q * 0x10 + e / 0x40;
  }

  /** Re-encoding what a word already says changes nothing. */
  lemma EncodeDecode(word: U32)
    ensures Encodable(Decode(word)) && Encode(word, Decode(word)) == Some(word)
  {
    var d := Decode(word);
    assert Encodable(d);
    DecodeEncode(word, d);
    FieldsRejoin(d);
    ImmediateAndRestDetermine(Encode(word, d).value, word);
  }

  lemma LastEncodingWins(word: U32, first: int, second: int)
    requires Encodable(first)
    ensures Encode(Encode(word, first).value, second) == Encode(word, second)
  {
    DecodeEncode(word, first);
    hide LowField, HighField, WithoutImmediate, TenBits, Decode, Encodable;
  }

  /** An immediate and the remaining bits determine the word. */
  lemma ImmediateAndRestDetermine(left: U32, right: U32)
    requires Decode(left) == Decode(right) && WithoutImmediate(left) == WithoutImmediate(right)
    ensures left == right
  {
  }
}
