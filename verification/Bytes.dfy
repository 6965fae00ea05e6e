/** Byte strings, little-endian words, and sparse byte edits.
    Machine integers are mathematical integers with their range in the type; the source's masks and
    shifts by constants are written as division, remainder and multiplication by powers of two. */
module Bytes {

  type Byte = b: int | 0 <= b < 0x100
  type U16 = w: int | 0 <= w < 0x1_0000
  type U32 = w: int | 0 <= w < 0x1_0000_0000

  const U32_MAX: U32 := 0xffff_ffff

  datatype Option<+T> = None | Some(value: T)

  datatype Result<+T, +E> = Ok(value: T) | Err(error: E) {
    predicate IsFailure() { Err? }

    function PropagateFailure<U>(): Result<U, E>
      requires Err?
    {
      Err(error)
    }

    function Extract(): T
      requires Ok?
    {
      value
    }
  }

  // ----- little-endian words -----

  function Word(b0: Byte, b1: Byte, b2: Byte, b3: Byte): U32 {
    b0 + 0x100 * b1 + 0x1_0000 * b2 + 0x100_0000 * b3
  }

  /** A word's bytes are found again by division. */
  lemma WordBytes(b0: Byte, b1: Byte, b2: Byte, b3: Byte)
    ensures var w := Word(b0, b1, b2, b3);
            w % 0x100 == b0 && w / 0x100 % 0x100 == b1 && w / 0x1_0000 % 0x100 == b2 && w / 0x100_0000 == b3
  {
    var w := Word(b0, b1, b2, b3);
    var upper: int, top: int := b1 as int + 0x100 * b2 + 0x1_0000 * b3, b2 as int + 0x100 * b3;
    assert w == b0 as int + 0x100 * upper && upper == b1 as int + 0x100 * top;
    assert w / 0x100 == upper;
    assert w / 0x1_0000 == top;
  }

  /** Two's-complement reading of a 32-bit word. */
  function Signed(w: U32): int {
    if w < 0x8000_0000 then w else w - 0x1_0000_0000
  }

  function Mod32(value: int): U32 {
    value % 0x1_0000_0000
  }

  // ----- sparse edits -----

  /** Bytes to be stored, by offset. */
  type Edits = map<int, Byte>

  function Over(data: seq<Byte>, edits: Edits): (r: seq<Byte>)
    ensures |r| == |data|
    ensures forall i :: 0 <= i < |data| ==> r[i] == if i in edits then edits[i] else data[i]
  {
    seq(|data|, i requires 0 <= i < |data| => if i in edits then edits[i] else data[i])
  }

  /** The four bytes of `value`, least significant first, at `offset`. */
  function WordAt(offset: int, value: U32): (e: Edits)
    ensures forall i :: i in e <==> offset <= i < offset + 4
  {
    map[offset := value % 0x100,
        offset + 1 := value / 0x100 % 0x100,
        offset + 2 := value / 0x1_0000 % 0x100,
        offset + 3 := value / 0x100_0000]
  }

  predicate InSpan(i: int, start: int, length: nat) {
    start <= i < start + length
  }

  predicate Agree(left: seq<Byte>, right: seq<Byte>, start: int, length: nat) {
    |left| == |right| && forall i :: 0 <= i < |left| && InSpan(i, start, length) ==> left[i] == right[i]
  }

  lemma WordAtRoundTrip(offset: int, value: U32)
    ensures var e := WordAt(offset, value);
            Word(e[offset], e[offset + 1], e[offset + 2], e[offset + 3]) == value
  {
    assert value == value / 0x100 * 0x100 + value % 0x100;
    assert value / 0x100 == value / 0x1_0000 * 0x100 + value / 0x100 % 0x100;
    assert value / 0x1_0000 == value / 0x100_0000 * 0x100 + value / 0x1_0000 % 0x100;
  }

  lemma OverNothing(data: seq<Byte>)
    ensures Over(data, map[]) == data
  {
  }

  lemma OverOver(data: seq<Byte>, first: Edits, second: Edits)
    ensures Over(Over(data, first), second) == Over(data, first + second)
  {
  }

  // ----- unions of edits with separate footprints -----

  /** All edits of `slots`, later ones winning. */
  function Union<S>(slots: seq<S>, edit: S -> Edits): Edits {
    if slots == [] then map[]
    else Union(slots[..|slots| - 1], edit) + edit(slots[|slots| - 1])
  }

  /** No offset lies in the footprints of two different slots, and edits stay in their footprint. */
  ghost predicate Separate<S(!new)>(slots: seq<S>, edit: S -> Edits, foot: (S, int) -> bool) {
    && (forall a, b, x :: 0 <= a < b < |slots| && foot(slots[a], x) ==> !foot(slots[b], x))
    && (forall a, x :: 0 <= a < |slots| && x in edit(slots[a]) ==> foot(slots[a], x))
  }

  /** With separate footprints, inside one slot's footprint the union is that slot's own edit. */
  lemma {:induction false} UnionInside<S(!new)>(slots: seq<S>, edit: S -> Edits, foot: (S, int) -> bool, a: nat, x: int)
    requires Separate(slots, edit, foot) && a < |slots| && foot(slots[a], x)
    ensures x in Union(slots, edit) <==> x in edit(slots[a])
    ensures x in edit(slots[a]) ==> Union(slots, edit)[x] == edit(slots[a])[x]
  {
    var front, last := slots[..|slots| - 1], slots[|slots| - 1];
    if a == |slots| - 1 {
      UnionOutside(front, edit, foot, x);
    } else {
      UnionInside(front, edit, foot, a, x);
      assert front[a] == slots[a];
      assert x !in edit(last);
    }
  }

  /** Outside every footprint the union stores nothing. */
  lemma {:induction false} UnionOutside<S(!new)>(slots: seq<S>, edit: S -> Edits, foot: (S, int) -> bool, x: int)
    requires forall a, y :: 0 <= a < |slots| && y in edit(slots[a]) ==> foot(slots[a], y)
    requires forall a :: 0 <= a < |slots| ==> !foot(slots[a], x)
    ensures x !in Union(slots, edit)
  {
    if slots != [] {
      var front := slots[..|slots| - 1];
      assert forall a :: 0 <= a < |front| ==> front[a] == slots[a];
      UnionOutside(front, edit, foot, x);
    }
  }

  lemma UnionSnoc<S>(slots: seq<S>, last: S, edit: S -> Edits)
    ensures Union(slots + [last], edit) == Union(slots, edit) + edit(last)
  {
    assert (slots + [last])[..|slots|] == slots;
  }
}
