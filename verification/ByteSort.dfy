/** `hisi_wpa_qsort`: insertion sort of `size`-byte elements by exchanging neighbours byte by byte. */
module ByteSort {
  import opened Bytes

  type Compare = (seq<Byte>, seq<Byte>) -> int

  // ----- insertion by exchanging neighbours -----

  function Swap<T>(s: seq<T>, p: nat): (r: seq<T>)
    requires 0 < p < |s|
    ensures |r| == |s|
  {
    s[p - 1 := s[p]][p := s[p - 1]]
  }

  /** The element at `p` moves left past every neighbour that compares greater. */
  function Sink<T>(s: seq<T>, p: nat, compare: (T, T) -> int): (r: seq<T>)
    requires p < |s|
    ensures |r| == |s|
    decreases p
  {
    if p > 0 && compare(s[p - 1], s[p]) > 0 then Sink(Swap(s, p), p - 1, compare) else s
  }

  function SortFrom<T>(s: seq<T>, index: nat, compare: (T, T) -> int): (r: seq<T>)
    ensures |r| == |s|
    decreases |s| - index
  {
    if index >= |s| then s else SortFrom(Sink(s, index, compare), index + 1, compare)
  }

  function Sorted<T>(s: seq<T>, compare: (T, T) -> int): seq<T> { SortFrom(s, 1, compare) }

  // ----- what sorting promises -----

  ghost predicate TotalPreorder<T(!new)>(compare: (T, T) -> int) {
    && (forall a, b :: compare(a, b) <= 0 || compare(b, a) <= 0)
    && (forall a, b, c :: compare(a, b) <= 0 && compare(b, c) <= 0 ==> compare(a, c) <= 0)
  }

  ghost predicate InOrder<T>(s: seq<T>, compare: (T, T) -> int) {
    forall i, j :: 0 <= i < j < |s| ==> compare(s[i], s[j]) <= 0
  }

  predicate Same<T>(a: T, b: T, compare: (T, T) -> int) {
    compare(a, b) <= 0 && compare(b, a) <= 0
  }

  /** The elements that compare equal to `e`, in their order. */
  function Class<T>(s: seq<T>, e: T, compare: (T, T) -> int): seq<T> {
    if s == [] then []
    else Class(s[..|s| - 1], e, compare) + if Same(s[|s| - 1], e, compare) then [s[|s| - 1]] else []
  }

  lemma {:induction false} ClassAppend<T>(a: seq<T>, b: seq<T>, e: T, compare: (T, T) -> int)
    ensures Class(a + b, e, compare) == Class(a, e, compare) + Class(b, e, compare)
  {
    if b == [] {
      assert a + b == a;
    } else {
      var front := b[..|b| - 1];
      assert (a + b)[..|a + b| - 1] == a + front;
      ClassAppend(a, front, e, compare);
    }
  }

  lemma SwapSplit<T>(s: seq<T>, p: nat)
    requires 0 < p < |s|
    ensures s == s[..p - 1] + [s[p - 1], s[p]] + s[p + 1..]
    ensures Swap(s, p) == s[..p - 1] + [s[p], s[p - 1]] + s[p + 1..]
  {
  }

  lemma PairClassInside<T(!new)>(a: seq<T>, x: T, y: T, b: seq<T>, e: T, compare: (T, T) -> int)
    requires TotalPreorder(compare) && compare(x, y) > 0
    ensures Class(a + [y, x] + b, e, compare) == Class(a + [x, y] + b, e, compare)
  {
    hide Class;
    PairClass(x, y, e, compare);
    ClassAppend(a + [x, y], b, e, compare);
    ClassAppend(a, [x, y], e, compare);
    ClassAppend(a + [y, x], b, e, compare);
    ClassAppend(a, [y, x], e, compare);
  }

  /** Exchanging two neighbours that are out of order keeps the elements, and the order within each class. */
  lemma SwapKeeps<T(!new)>(s: seq<T>, p: nat, compare: (T, T) -> int)
    requires 0 < p < |s|
    ensures multiset(Swap(s, p)) == multiset(s)
    ensures TotalPreorder(compare) && compare(s[p - 1], s[p]) > 0 ==>
              forall e :: Class(Swap(s, p), e, compare) == Class(s, e, compare)
  {
    hide Class, TotalPreorder;
    SwapSplit(s, p);
    if TotalPreorder(compare) && compare(s[p - 1], s[p]) > 0 {
      hide Swap;
      forall e
        ensures Class(Swap(s, p), e, compare) == Class(s, e, compare)
      {
        PairClassInside(s[..p - 1], s[p - 1], s[p], s[p + 1..], e, compare);
      }
    }
  }

  lemma PairClass<T(!new)>(x: T, y: T, e: T, compare: (T, T) -> int)
    requires TotalPreorder(compare) && compare(x, y) > 0
    ensures Class([x, y], e, compare) == Class([y, x], e, compare)
  {
    assert [x, y][..1] == [x] && [y, x][..1] == [y] && [x][..0] == [] && [y][..0] == [];
    assert !(Same(x, e, compare) && Same(y, e, compare));
  }

  lemma {:induction false} SinkKeeps<T(!new)>(s: seq<T>, p: nat, compare: (T, T) -> int)
    requires p < |s|
    ensures multiset(Sink(s, p, compare)) == multiset(s)
    ensures TotalPreorder(compare) ==> forall e :: Class(Sink(s, p, compare), e, compare) == Class(s, e, compare)
    decreases p
  {
    if p > 0 && compare(s[p - 1], s[p]) > 0 {
      hide TotalPreorder;
      SwapKeeps(s, p, compare);
      SinkKeeps(Swap(s, p), p - 1, compare);
    }
  }

  /** The first `q` elements are in order but for the one at `p`, which precedes all that follow it. */
  ghost predicate OrderedBut<T>(s: seq<T>, p: nat, q: nat, compare: (T, T) -> int)
    requires p < q <= |s|
  {
    && (forall i, j :: 0 <= i < j < q && i != p && j != p ==> compare(s[i], s[j]) <= 0)
    && (forall j :: p < j < q ==> compare(s[p], s[j]) <= 0)
  }

  lemma {:induction false} SinkOrders<T(!new)>(s: seq<T>, p: nat, q: nat, compare: (T, T) -> int)
    requires TotalPreorder(compare) && p < q <= |s| && OrderedBut(s, p, q, compare)
    ensures InOrder(Sink(s, p, compare)[..q], compare)
    decreases p
  {
    if p > 0 && compare(s[p - 1], s[p]) > 0 {
      SinkOrders(Swap(s, p), p - 1, q, compare);
    } else if p > 0 {
      forall i | 0 <= i < p
        ensures compare(s[i], s[p]) <= 0
      {
        assert i == p - 1 || compare(s[i], s[p - 1]) <= 0;
      }
    }
  }

  lemma {:induction false} SortFromOrders<T(!new)>(s: seq<T>, index: nat, compare: (T, T) -> int)
    requires index <= |s| && InOrder(s[..index], compare) && TotalPreorder(compare)
    ensures InOrder(SortFrom(s, index, compare), compare)
    decreases |s| - index
  {
    if index < |s| {
      assert forall i :: 0 <= i < index ==> s[..index][i] == s[i];
      SinkOrders(s, index, index + 1, compare);
      SortFromOrders(Sink(s, index, compare), index + 1, compare);
    } else {
      assert s[..index] == s;
    }
  }

  lemma {:induction false} SortFromKeeps<T(!new)>(s: seq<T>, index: nat, compare: (T, T) -> int)
    ensures multiset(SortFrom(s, index, compare)) == multiset(s)
    ensures TotalPreorder(compare) ==>
              forall e :: Class(SortFrom(s, index, compare), e, compare) == Class(s, e, compare)
    decreases |s| - index
  {
    if index < |s| {
      hide TotalPreorder;
      SinkKeeps(s, index, compare);
      SortFromKeeps(Sink(s, index, compare), index + 1, compare);
    }
  }

  /** The sort permutes its elements whatever the comparison says; under a total preorder the result is in
      order and equal elements keep their order. */
  lemma SortedStably<T(!new)>(s: seq<T>, compare: (T, T) -> int)
    ensures multiset(Sorted(s, compare)) == multiset(s)
    ensures TotalPreorder(compare) ==> InOrder(Sorted(s, compare), compare)
    ensures TotalPreorder(compare) ==> forall e :: Class(Sorted(s, compare), e, compare) == Class(s, e, compare)
  {
    SortFromKeeps(s, 1, compare);
    if TotalPreorder(compare) && s != [] {
      SortFromOrders(s, 1, compare);
    }
  }

  lemma {:induction false} ClassMember<T(!new)>(s: seq<T>, e: T, x: T, compare: (T, T) -> int)
    ensures x in Class(s, e, compare) <==> x in s && Same(x, e, compare)
  {
    if s != [] {
      ClassMember(s[..|s| - 1], e, x, compare);
      assert s == s[..|s| - 1] + [s[|s| - 1]];
    }
  }

  /** Order and stability determine the result: there is one stable sort of a sequence. */
  lemma {:induction false} StableSortUnique<T(!new)>(s: seq<T>, t: seq<T>, compare: (T, T) -> int)
    requires TotalPreorder(compare) && InOrder(s, compare) && InOrder(t, compare)
    requires forall e :: Class(s, e, compare) == Class(t, e, compare)
    ensures s == t
    decreases |s|
  {
    if s == [] {
      if t != [] {
        ClassMember(t, t[0], t[0], compare);
      }
    } else {
      hide Class, TotalPreorder;
      HeadsEqual(s, t, compare);
      forall e
        ensures Class(s[1..], e, compare) == Class(t[1..], e, compare)
      {
        TailsSame(s, t, e, compare);
      }
      StableSortUnique(s[1..], t[1..], compare);
      assert s == [s[0]] + s[1..] && t == [t[0]] + t[1..];
    }
  }

  lemma HeadsEqual<T(!new)>(s: seq<T>, t: seq<T>, compare: (T, T) -> int)
    requires TotalPreorder(compare) && InOrder(s, compare) && InOrder(t, compare) && s != []
    requires forall e :: Class(s, e, compare) == Class(t, e, compare)
    ensures t != [] && s[0] == t[0]
  {
    hide Class, InOrder;
    var x := s[0];
    ClassMember(s, x, x, compare);
    ClassMember(t, x, x, compare);
    assert compare(x, x) <= 0 && x in s && x in t;
    var y := t[0];
    ClassMember(t, y, y, compare);
    ClassMember(s, y, y, compare);
    assert compare(y, y) <= 0 && y in t && y in s;
    HeadSame(s, y, compare);
    HeadSame(t, x, compare);
    HeadOfClass(s, x, compare);
    HeadOfClass(t, x, compare);
  }

  lemma HeadSame<T(!new)>(s: seq<T>, x: T, compare: (T, T) -> int)
    requires TotalPreorder(compare) && InOrder(s, compare) && x in s
    ensures compare(s[0], x) <= 0
  {
    var k :| 0 <= k < |s| && s[k] == x;
    assert k == 0 || compare(s[0], s[k]) <= 0;
  }

  lemma ClassTail<T(!new)>(s: seq<T>, e: T, compare: (T, T) -> int)
    requires s != []
    ensures Class(s, e, compare) == (if Same(s[0], e, compare) then [s[0]] else []) + Class(s[1..], e, compare)
  {
    assert s == [s[0]] + s[1..];
    ClassAppend([s[0]], s[1..], e, compare);
    assert [s[0]][..0] == [];
  }

  lemma TailsSame<T(!new)>(s: seq<T>, t: seq<T>, e: T, compare: (T, T) -> int)
    requires s != [] && t != [] && s[0] == t[0] && Class(s, e, compare) == Class(t, e, compare)
    ensures Class(s[1..], e, compare) == Class(t[1..], e, compare)
  {
    hide Class;
    ClassTail(s, e, compare);
    ClassTail(t, e, compare);
    var head := if Same(s[0], e, compare) then [s[0]] else [];
    assert Class(s, e, compare)[|head|..] == Class(s[1..], e, compare);
    assert Class(t, e, compare)[|head|..] == Class(t[1..], e, compare);
  }

  lemma HeadOfClass<T(!new)>(s: seq<T>, e: T, compare: (T, T) -> int)
    requires s != [] && Same(s[0], e, compare)
    ensures Class(s, e, compare) != [] && Class(s, e, compare)[0] == s[0]
  {
    ClassTail(s, e, compare);
  }

  // ----- elements in memory -----

  /** Where element `k` starts. */
  function Offset(k: nat, size: nat): nat { k * size }

  /** Element `k` of memory that holds `size`-byte elements. */
  function Element(s: seq<Byte>, size: nat, k: nat): seq<Byte>
    requires Offset(k + 1, size) <= |s|
  {
    Below(k, k + 1, size);
    s[Offset(k, size)..Offset(k + 1, size)]
  }

  function Elements(s: seq<Byte>, size: nat, count: nat): (r: seq<seq<Byte>>)
    requires Offset(count, size) <= |s|
    ensures |r| == count
  {
    seq(count, k requires 0 <= k < count => Below(k + 1, count, size); Element(s, size, k))
  }

  lemma Below(a: nat, b: nat, size: nat)
    requires a <= b
    ensures Offset(a, size) <= Offset(b, size)
  {
    assert b * size == a * size + (b - a) * size;
  }

  /** Where the byte that ends up at `i` came from. */
  function Partner(i: int, left: nat, right: nat, size: nat): int {
    if left <= i < left + size then i - left + right
    else if right <= i < right + size then i - right + left
    else i
  }

  /** Memory with the `size` bytes at `left` and at `right` exchanged. */
  function Exchanged(s: seq<Byte>, left: nat, right: nat, size: nat): (r: seq<Byte>)
    requires left + size <= right && right + size <= |s|
    ensures |r| == |s|
    ensures forall i :: 0 <= i < |s| ==> r[i] == s[Partner(i, left, right, size)]
  {
    s[..left] + s[right..right + size] + s[left + size..right] + s[left..left + size] + s[right + size..]
  }

  /** `swap_bytes`. */
  method SwapBytes(bytes: array<Byte>, left: nat, right: nat, size: nat)
    requires left + size <= right && right + size <= bytes.Length
    modifies bytes
    ensures bytes[..] == Exchanged(old(bytes[..]), left, right, size)
  {
    for k := 0 to size
      invariant forall i :: 0 <= i < bytes.Length ==> bytes[i] == old(bytes[..])[Partner(i, left, right, k)]
    {
      var temporary := bytes[left + k];
      bytes[left + k] := bytes[right + k];
      bytes[right + k] := temporary;
    }
  }

  /** Exchanging the bytes of two neighbours exchanges the elements and leaves all others intact. */
  lemma ExchangedElements(s: seq<Byte>, size: nat, count: nat, p: nat)
    requires 0 < p < count && Offset(count, size) <= |s| && size > 0
    ensures Offset(p - 1, size) + size == Offset(p, size) && Offset(p, size) + size <= |s|
    ensures Elements(Exchanged(s, Offset(p - 1, size), Offset(p, size), size), size, count) ==
            Swap(Elements(s, size, count), p)
    ensures forall i :: Offset(count, size) <= i < |s| ==>
              Exchanged(s, Offset(p - 1, size), Offset(p, size), size)[i] == s[i]
  {
    Below(p + 1, count, size);
    var r := Exchanged(s, Offset(p - 1, size), Offset(p, size), size);
    forall k | 0 <= k < count
      ensures Elements(r, size, count)[k] == Swap(Elements(s, size, count), p)[k]
    {
      ExchangedAt(s, size, count, p, k);
    }
  }

  lemma SwapAt<T>(s: seq<T>, p: nat, k: nat)
    requires 0 < p < |s| && k < |s|
    ensures k == p - 1 ==> Swap(s, p)[k] == s[p]
    ensures k == p ==> Swap(s, p)[k] == s[p - 1]
    ensures k != p - 1 && k != p ==> Swap(s, p)[k] == s[k]
  {
  }

  /** Where element `k` lies relative to the neighbours at `p - 1` and `p`. */
  lemma Apart(k: nat, p: nat, size: nat)
    requires p > 0
    ensures Offset(p - 1, size) + size == Offset(p, size)
    ensures k < p - 1 ==> Offset(k, size) + size <= Offset(p - 1, size)
    ensures k > p ==> Offset(k, size) >= Offset(p, size) + size
  {
    Below(p - 1, p, size);
    if k < p - 1 { Below(k + 1, p - 1, size); }
    if k > p { Below(p + 1, k, size); }
  }

  lemma ExchangedAt(s: seq<Byte>, size: nat, count: nat, p: nat, k: nat)
    requires 0 < p < count && Offset(count, size) <= |s| && k < count && size > 0
    requires Offset(p - 1, size) + size == Offset(p, size) && Offset(p, size) + size <= |s|
    ensures Elements(Exchanged(s, Offset(p - 1, size), Offset(p, size), size), size, count)[k] ==
            Swap(Elements(s, size, count), p)[k]
  {
    hide Elements, Exchanged, Swap;
    SwapAt(Elements(s, size, count), p, k);
    if k == p - 1 {
      ExchangedFor(s, size, count, p, k, p);
    } else if k == p {
      ExchangedFor(s, size, count, p, k, p - 1);
    } else {
      ExchangedFor(s, size, count, p, k, k);
    }
  }

  /** Element `k` of the exchanged memory is element `j` of the memory before. */
  lemma ExchangedFor(s: seq<Byte>, size: nat, count: nat, p: nat, k: nat, j: nat)
    requires 0 < p < count && Offset(count, size) <= |s| && k < count && size > 0
    requires Offset(p - 1, size) + size == Offset(p, size) && Offset(p, size) + size <= |s|
    requires j == if k == p - 1 then p else if k == p then p - 1 else k
    ensures Elements(Exchanged(s, Offset(p - 1, size), Offset(p, size), size), size, count)[k] ==
            Elements(s, size, count)[j]
  {
    hide Elements, Exchanged, Offset;
    Apart(k, p, size);
    ElementIs(Exchanged(s, Offset(p - 1, size), Offset(p, size), size), size, count, k);
    ElementIs(s, size, count, j);
    ExchangedElement(s, Offset(p - 1, size), Offset(p, size), size, Offset(k, size), Offset(j, size));
  }

  lemma ExchangedElement(s: seq<Byte>, left: nat, right: nat, size: nat, at: nat, from: nat)
    requires left + size == right && right + size <= |s| && at + size <= |s| && size > 0
    requires at + size <= left || at == left || at == right || at >= right + size
    requires from == if at == left then right else if at == right then left else at
    ensures Exchanged(s, left, right, size)[at..at + size] == s[from..from + size]
  {
  }

  /** `hisi_wpa_qsort`: nothing happens without memory, comparison or element size; otherwise the elements
      are sorted and the bytes after them are untouched. */
  method Qsort(memory: array?<Byte>, count: nat, size: nat, compare: Option<Compare>)
    requires memory != null ==> Offset(count, size) <= memory.Length
    modifies memory
    ensures memory == null || compare.None? || size == 0 ==> memory == null || memory[..] == old(memory[..])
    ensures memory != null && compare.Some? && size != 0 ==>
              && Elements(memory[..], size, count) == Sorted(Elements(old(memory[..]), size, count), compare.value)
              && memory[Offset(count, size)..] == old(memory[Offset(count, size)..])
  {
    if memory == null || compare.None? || size == 0 { return; }
    var bytes: array<Byte> := memory;
    hide Sink, SortFrom, Elements, Offset;
    ghost var start := Elements(bytes[..], size, count);
    var index := 1;
    while index < count
      invariant index >= 1
      invariant SortFrom(Elements(bytes[..], size, count), index, compare.value) == Sorted(start, compare.value)
      invariant bytes[Offset(count, size)..] == old(bytes[Offset(count, size)..])
    {
      SortStep(Elements(bytes[..], size, count), index, compare.value);
      Insert(bytes, count, size, index, compare.value);
      index := index + 1;
    }
    SortEnd(Elements(bytes[..], size, count), index, compare.value);
  }

  lemma SortStep<T>(s: seq<T>, index: nat, compare: (T, T) -> int)
    requires index < |s|
    ensures SortFrom(s, index, compare) == SortFrom(Sink(s, index, compare), index + 1, compare)
  {
  }

  lemma SortEnd<T>(s: seq<T>, index: nat, compare: (T, T) -> int)
    requires index >= |s|
    ensures SortFrom(s, index, compare) == s
  {
  }

  lemma SinkStep<T>(s: seq<T>, p: nat, compare: (T, T) -> int)
    requires p < |s|
    ensures Sink(s, p, compare) == if p > 0 && compare(s[p - 1], s[p]) > 0 then Sink(Swap(s, p), p - 1, compare) else s
  {
  }

  lemma ElementIs(s: seq<Byte>, size: nat, count: nat, k: nat)
    requires k < count && Offset(count, size) <= |s|
    ensures Offset(k, size) + size <= |s|
    ensures Elements(s, size, count)[k] == s[Offset(k, size)..Offset(k, size) + size]
  {
    Below(k + 1, count, size);
  }

  /** One comparison of neighbours, on elements and in memory. */
  lemma NeighbourStep(now: seq<Byte>, size: nat, count: nat, p: nat, compare: Compare)
    requires 0 < p < count && Offset(count, size) <= |now| && size > 0
    ensures Offset(p - 1, size) + size == Offset(p, size) && Offset(p, size) + size <= |now|
    ensures var left, right, elements := Offset(p - 1, size), Offset(p, size), Elements(now, size, count);
            var exchanged := Exchanged(now, left, right, size);
            Sink(elements, p, compare) ==
              if compare(now[left..right], now[right..right + size]) <= 0 then elements
              else Sink(Elements(exchanged, size, count), p - 1, compare)
    ensures Exchanged(now, Offset(p - 1, size), Offset(p, size), size)[Offset(count, size)..] ==
            now[Offset(count, size)..]
  {
    hide Sink, Elements, Exchanged, Swap, Offset;
    ElementIs(now, size, count, p - 1);
    ElementIs(now, size, count, p);
    SinkStep(Elements(now, size, count), p, compare);
    ExchangedElements(now, size, count, p);
  }

  /** The inner loop: the element at `index` is exchanged leftwards into its place. */
  method Insert(bytes: array<Byte>, count: nat, size: nat, index: nat, compare: Compare)
    requires Offset(count, size) <= bytes.Length && index < count && size > 0
    modifies bytes
    ensures Elements(bytes[..], size, count) == Sink(Elements(old(bytes[..]), size, count), index, compare)
    ensures bytes[Offset(count, size)..] == old(bytes[Offset(count, size)..])
  {
    hide Sink, Elements, Exchanged, Offset;
    var position := index;
    while position != 0
      invariant 0 <= position <= index
      invariant Sink(Elements(bytes[..], size, count), position, compare) ==
                Sink(Elements(old(bytes[..]), size, count), index, compare)
      invariant bytes[Offset(count, size)..] == old(bytes[Offset(count, size)..])
    {
      NeighbourStep(bytes[..], size, count, position, compare);
      var left := Offset(position - 1, size);
      var right := left + size;
      if compare(bytes[left..right], bytes[right..right + size]) <= 0 { return; }
      SwapBytes(bytes, left, right, size);
      position := position - 1;
    }
    SinkStep(Elements(bytes[..], size, count), 0, compare);
  }
}
