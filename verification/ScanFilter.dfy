/** The scan-result filter of `driver_ws63.c`: one pass measures the information elements to keep, a
    second pass copies them. An element is an identifier, a length, and that many bytes (section 9.4.2.1
    of IEEE 802.11-2020). */
module ScanFilter {
  import opened Bytes

  const SIZE_MAX: nat := 0xffff_ffff

  const SSID: Byte := 0
  const RSN: Byte := 48
  const VENDOR_SPECIFIC: Byte := 221
  const RSNX: Byte := 244

  // ----- element streams -----

  /** The length of the element at the front: its two header bytes and what its length byte says. */
  function FrontLength(ies: seq<Byte>): nat
    requires |ies| >= 2
  {
    ies[1] as int + 2
  }

  /** The stream starts with a whole element. */
  predicate HasFront(ies: seq<Byte>) { |ies| >= 2 && FrontLength(ies) <= |ies| }

  function Front(ies: seq<Byte>): (e: seq<Byte>)
    requires HasFront(ies)
    ensures IsElement(e)
  {
    ies[..FrontLength(ies)]
  }

  function After(ies: seq<Byte>): seq<Byte>
    requires HasFront(ies)
  {
    ies[FrontLength(ies)..]
  }

  /** The stream is a sequence of whole elements. */
  predicate WellFormed(ies: seq<Byte>) {
    ies == [] || (HasFront(ies) && WellFormed(After(ies)))
  }

  /** The elements of a well-formed stream. */
  function Elements(ies: seq<Byte>): seq<seq<Byte>>
    requires WellFormed(ies)
  {
    if ies == [] then [] else [Front(ies)] + Elements(After(ies))
  }

  predicate IsElement(e: seq<Byte>) { |e| >= 2 && FrontLength(e) == |e| }

  ghost predicate AreElements(es: seq<seq<Byte>>) {
    forall i :: 0 <= i < |es| ==> IsElement(es[i])
  }

  function Flatten(es: seq<seq<Byte>>): seq<Byte> {
    if es == [] then [] else es[0] + Flatten(es[1..])
  }

  /** `keep_scan_ie`: network name and security elements, and of the vendor elements only the legacy WPA one. */
  predicate Keep(e: seq<Byte>)
    requires IsElement(e)
  {
    if e[0] in {SSID, RSN, RSNX} then true
    else if e[0] == VENDOR_SPECIFIC then e[1] >= 4 && e[2] == 0x00 && e[3] == 0x50 && e[4] == 0xf2 && e[5] == 0x01
    else false
  }

  function KeptOf(es: seq<seq<Byte>>): (r: seq<seq<Byte>>)
    requires AreElements(es)
    ensures AreElements(r)
  {
    if es == [] then [] else (if Keep(es[0]) then [es[0]] else []) + KeptOf(es[1..])
  }

  lemma ElementsCons(e: seq<Byte>, es: seq<seq<Byte>>)
    ensures Flatten([e] + es) == e + Flatten(es)
    ensures IsElement(e) && AreElements(es) ==> AreElements([e] + es)
  {
    hide IsElement;
    var all := [e] + es;
    assert all[0] == e && all[1..] == es;
    forall i | 0 <= i < |all| && IsElement(e) && AreElements(es)
      ensures IsElement(all[i])
    {
      assert i > 0 ==> all[i] == es[i - 1];
    }
  }

  lemma {:induction false} ElementsAre(ies: seq<Byte>)
    requires WellFormed(ies)
    ensures AreElements(Elements(ies)) && Flatten(Elements(ies)) == ies
  {
    if ies != [] {
      ElementsAre(After(ies));
      hide AreElements, Flatten, WellFormed;
      ElementsCons(Front(ies), Elements(After(ies)));
      assert ies == Front(ies) + After(ies);
    }
  }

  /** What the copy pass is to write: the kept elements in their order. */
  function Filtered(ies: seq<Byte>): seq<Byte>
    requires WellFormed(ies)
  {
    ElementsAre(ies);
    Flatten(KeptOf(Elements(ies)))
  }

  // ----- facts about streams -----

  /** Streams and element sequences are the same thing. */
  lemma {:induction false} FlattenParses(es: seq<seq<Byte>>)
    requires AreElements(es)
    ensures WellFormed(Flatten(es)) && Elements(Flatten(es)) == es
  {
    if es != [] {
      FlattenParses(es[1..]);
      var s := Flatten(es);
      FrontAppend(es[0], Flatten(es[1..]));
      assert s == es[0] + Flatten(es[1..]) && Front(es[0]) == es[0] && After(es[0]) == [];
      assert es == [es[0]] + es[1..];
    }
  }

  lemma FrontAppend(a: seq<Byte>, b: seq<Byte>)
    requires HasFront(a)
    ensures HasFront(a + b) && Front(a + b) == Front(a) && After(a + b) == After(a) + b
  {
    assert (a + b)[1] == a[1];
  }

  lemma ElementsFront(ies: seq<Byte>)
    requires WellFormed(ies) && HasFront(ies)
    ensures WellFormed(After(ies)) && Elements(ies) == [Front(ies)] + Elements(After(ies))
  {
  }

  lemma {:induction false} WellFormedAppend(a: seq<Byte>, b: seq<Byte>)
    requires WellFormed(a) && WellFormed(b)
    ensures WellFormed(a + b) && Elements(a + b) == Elements(a) + Elements(b)
  {
    if a == [] {
      assert a + b == b;
    } else {
      WellFormedAppend(After(a), b);
      FrontAppend(a, b);
      ElementsFront(a);
      assert WellFormed(a + b);
      ElementsFront(a + b);
      hide Elements, Front, After;
      Associate([Front(a)], Elements(After(a)), Elements(b));
    }
  }

  lemma Associate<T>(a: seq<T>, b: seq<T>, c: seq<T>)
    ensures a + (b + c) == a + b + c
  {
  }

  lemma {:induction false} FlattenAppend(a: seq<seq<Byte>>, b: seq<seq<Byte>>)
    ensures Flatten(a + b) == Flatten(a) + Flatten(b)
  {
    if a == [] {
      assert a + b == b;
    } else {
      FlattenAppend(a[1..], b);
      assert a + b == [a[0]] + (a[1..] + b) && a == [a[0]] + a[1..];
      ElementsCons(a[0], a[1..] + b);
      ElementsCons(a[0], a[1..]);
      hide Flatten;
      Associate(a[0], Flatten(a[1..]), Flatten(b));
    }
  }

  lemma KeptCons(e: seq<Byte>, es: seq<seq<Byte>>)
    requires IsElement(e) && AreElements(es) && AreElements([e] + es)
    ensures KeptOf([e] + es) == (if Keep(e) then [e] else []) + KeptOf(es)
  {
    hide IsElement, Keep;
    assert ([e] + es)[1..] == es;
  }

  lemma {:induction false} KeptAppend(a: seq<seq<Byte>>, b: seq<seq<Byte>>)
    requires AreElements(a) && AreElements(b)
    ensures AreElements(a + b) && KeptOf(a + b) == KeptOf(a) + KeptOf(b)
  {
    hide IsElement, Keep;
    if a == [] {
      assert a + b == b;
    } else {
      KeptAppend(a[1..], b);
      assert a + b == [a[0]] + (a[1..] + b) && a == [a[0]] + a[1..];
      KeptCons(a[0], a[1..] + b);
      KeptCons(a[0], a[1..]);
      hide KeptOf;
      Associate(if Keep(a[0]) then [a[0]] else [], KeptOf(a[1..]), KeptOf(b));
    }
  }

  lemma {:induction false} KeptAgain(es: seq<seq<Byte>>)
    requires AreElements(es)
    ensures KeptOf(KeptOf(es)) == KeptOf(es)
    ensures |Flatten(KeptOf(es))| <= |Flatten(es)|
    ensures forall e :: e in KeptOf(es) ==> IsElement(e) && Keep(e)
  {
    hide IsElement, Keep;
    if es != [] {
      KeptAgain(es[1..]);
      if Keep(es[0]) {
        assert KeptOf(es)[1..] == KeptOf(es[1..]);
      } else {
        assert KeptOf(es) == KeptOf(es[1..]);
      }
    }
  }

  // ----- what filtering promises -----

  /** The output is well formed, holds kept elements only, is no longer than the input, and is left alone
      by a second filtering. */
  lemma FilteredOnce(ies: seq<Byte>)
    requires WellFormed(ies)
    ensures WellFormed(Filtered(ies)) && Filtered(Filtered(ies)) == Filtered(ies) && |Filtered(ies)| <= |ies|
    ensures forall e :: e in Elements(Filtered(ies)) ==> IsElement(e) && Keep(e)
  {
    ElementsAre(ies);
    var kept := KeptOf(Elements(ies));
    FlattenParses(kept);
    KeptAgain(Elements(ies));
  }

  /** By number: the network name (0), the RSN and RSNX elements (48 and 244), and of the vendor elements (221) those
      of the WPA selector 00:50:f2:01. */
  predicate IsWanted(e: seq<Byte>)
    requires IsElement(e)
  {
    match e[0]
    case 0 => true
    case 48 => true
    case 244 => true
    case 221 => |e| >= 6 && e[2..6] == [0x00, 0x50, 0xf2, 0x01]
    case _ => false
  }

  lemma WantedIsKept(e: seq<Byte>)
    requires IsElement(e)
    ensures IsWanted(e) <==> Keep(e)
  {
    if e[0] == 221 && |e| >= 6 {
      assert e[2..6][0] == e[2] && e[2..6][1] == e[3] && e[2..6][2] == e[4] && e[2..6][3] == e[5];
    }
  }

  /** The wanted elements, in their order. */
  function Wanted(es: seq<seq<Byte>>): (r: seq<seq<Byte>>)
    requires AreElements(es)
  {
    if es == [] then [] else (if IsWanted(es[0]) then [es[0]] else []) + Wanted(es[1..])
  }

  lemma {:induction false} WantedAreKept(es: seq<seq<Byte>>)
    requires AreElements(es)
    ensures Wanted(es) == KeptOf(es)
  {
    hide IsElement, IsWanted, Keep;
    if es != [] {
      assert IsElement(es[0]);
      WantedIsKept(es[0]);
      WantedAreKept(es[1..]);
    }
  }

  /** An identifier, a length, and that many bytes. */
  predicate IsWhole(e: seq<Byte>) { |e| >= 2 && |e| == 2 + e[1] as int }

  /** A stream's elements are the stream cut after each length byte's worth of bytes, and the filtered stream has
      exactly the wanted ones, in their order. */
  lemma FilteredExactly(ies: seq<Byte>)
    requires WellFormed(ies)
    ensures Flatten(Elements(ies)) == ies && forall e :: e in Elements(ies) ==> IsWhole(e)
    ensures AreElements(Elements(ies)) && WellFormed(Filtered(ies)) && Elements(Filtered(ies)) == Wanted(Elements(ies))
  {
    ElementsAre(ies);
    WantedAreKept(Elements(ies));
    FlattenParses(KeptOf(Elements(ies)));
  }

  /** Filtering distributes over concatenation of well-formed streams. */
  lemma FilteredAppend(a: seq<Byte>, b: seq<Byte>)
    requires WellFormed(a) && WellFormed(b)
    ensures WellFormed(a + b) && Filtered(a + b) == Filtered(a) + Filtered(b)
  {
    ElementsAre(a);
    ElementsAre(b);
    WellFormedAppend(a, b);
    KeptAppend(Elements(a), Elements(b));
    FlattenAppend(KeptOf(Elements(a)), KeptOf(Elements(b)));
  }

  /** One element at the front of a stream. */
  lemma FilteredFront(ies: seq<Byte>)
    requires WellFormed(ies) && ies != []
    ensures Filtered(ies) == KeptFront(Front(ies)) + Filtered(After(ies))
  {
    hide Keep, Front, After;
    var e := Front(ies);
    assert Elements(ies)[1..] == Elements(After(ies));
    ElementsAre(ies);
    ElementsAre(After(ies));
    FlattenAppend(if Keep(e) then [e] else [], KeptOf(Elements(After(ies))));
    assert Flatten([e]) == e + Flatten([e][1..]) == e;
  }

  function KeptFront(e: seq<Byte>): seq<Byte>
    requires IsElement(e)
  {
    if Keep(e) then e else []
  }

  // ----- the two passes -----

  predicate WholeFrom(ies: seq<Byte>, offset: nat)
    requires offset <= |ies|
  {
    WellFormed(ies[offset..])
  }

  function FilteredFrom(ies: seq<Byte>, offset: nat): seq<Byte>
    requires offset <= |ies| && WholeFrom(ies, offset)
  {
    Filtered(ies[offset..])
  }

  lemma Ends(ies: seq<Byte>)
    ensures WholeFrom(ies, 0) <==> WellFormed(ies)
    ensures WellFormed(ies) ==> FilteredFrom(ies, 0) == Filtered(ies) && |Filtered(ies)| <= |ies|
    ensures WholeFrom(ies, |ies|) && FilteredFrom(ies, |ies|) == []
  {
    assert ies[0..] == ies;
    if WellFormed(ies) { FilteredOnce(ies); }
  }

  /** The element at `offset`, when the stream has room for it. */
  predicate HasElement(ies: seq<Byte>, offset: nat) {
    offset + 2 <= |ies| && offset + ies[offset + 1] as int + 2 <= |ies|
  }

  function ElementAt(ies: seq<Byte>, offset: nat): (e: seq<Byte>)
    requires HasElement(ies, offset)
    ensures |e| == ies[offset + 1] as int + 2 && IsElement(e)
  {
    ies[offset..offset + ies[offset + 1] as int + 2]
  }

  lemma Advance(ies: seq<Byte>, offset: nat)
    requires offset < |ies|
    ensures WholeFrom(ies, offset) ==> HasElement(ies, offset)
    ensures HasElement(ies, offset) ==>
              var e := ElementAt(ies, offset);
              && (WholeFrom(ies, offset) <==> WholeFrom(ies, offset + |e|))
              && (WholeFrom(ies, offset) ==>
                   FilteredFrom(ies, offset) == KeptFront(e) + FilteredFrom(ies, offset + |e|))
  {
    hide Filtered;
    if HasElement(ies, offset) {
      assert ies[offset..][1] == ies[offset + 1];
      assert After(ies[offset..]) == ies[offset + ies[offset + 1] as int + 2..];
      assert Front(ies[offset..]) == ElementAt(ies, offset);
      if WellFormed(ies[offset..]) { FilteredFront(ies[offset..]); }
    }
  }

  /** `keep_scan_ie` on the element that starts at `offset`. */
  method KeepScanIe(ies: seq<Byte>, offset: nat) returns (keep: bool)
    requires HasElement(ies, offset)
    ensures keep == Keep(ElementAt(ies, offset))
  {
    ghost var e := ElementAt(ies, offset);
    assert forall i :: 0 <= i < |e| ==> e[i] == ies[offset + i];
    match ies[offset] {
      case 0 => return true;
      case 48 => return true;
      case 244 => return true;
      case 221 =>
        return ies[offset + 1] >= 4 && ies[offset + 2] == 0x00 && ies[offset + 3] == 0x50 &&
               ies[offset + 4] == 0xf2 && ies[offset + 5] == 0x01;
      case _ => return false;
    }
  }

  /** The length pass rejects exactly the streams with a truncated element. */
  method FilteredScanIesLen(ies: seq<Byte>) returns (length: nat)
    requires |ies| < SIZE_MAX
    ensures length == if WellFormed(ies) then |Filtered(ies)| else SIZE_MAX
    ensures WellFormed(ies) <==> length != SIZE_MAX
  {
    hide Filtered, Keep, WellFormed, WholeFrom, FilteredFrom;
    var offset, kept := 0, 0;
    Ends(ies);
    while offset < |ies|
      invariant offset <= |ies| && kept <= offset
      invariant WellFormed(ies) <==> WholeFrom(ies, offset)
      invariant WellFormed(ies) ==> |Filtered(ies)| == kept + |FilteredFrom(ies, offset)|
    {
      Advance(ies, offset);
      if |ies| - offset < 2 { return SIZE_MAX; }
      var element := ies[offset + 1] as int + 2;
      if element > |ies| - offset { return SIZE_MAX; }
      var keep := KeepScanIe(ies, offset);
      if keep { kept := kept + element; }
      offset := offset + element;
    }
    return kept;
  }

  /** The copy pass writes exactly the filtered stream at `start` and nothing else. */
  method CopyFilteredScanIes(output: array<Byte>, start: nat, ies: seq<Byte>)
    requires WellFormed(ies) && start + |Filtered(ies)| <= output.Length
    modifies output
    ensures output[..] == Placed(old(output[..]), start, Filtered(ies))
  {
    hide Filtered, Keep, WellFormed, WholeFrom, FilteredFrom, Placed, ElementAt;
    var offset, at := 0, start;
    ghost var memory, done: seq<Byte> := output[..], [];
    Ends(ies);
    PlacedNothing(memory, start);
    while offset < |ies|
      invariant offset <= |ies| && WholeFrom(ies, offset)
      invariant at == start + |done| && start + |Filtered(ies)| <= |memory|
      invariant Filtered(ies) == done + FilteredFrom(ies, offset)
      invariant output[..] == Placed(memory, start, done)
    {
      Advance(ies, offset);
      var element := ies[offset + 1] as int + 2;
      var keep := KeepScanIe(ies, offset);
      ghost var kept := KeptFront(ElementAt(ies, offset));
      Regroup(done, kept, FilteredFrom(ies, offset + element));
      PlacedMore(memory, start, done, kept);
      if keep {
        CopyElement(output, at, ies, offset);
        at := at + element;
      }
      done := done + kept;
      offset := offset + element;
    }
    Regroup(done, [], []);
  }

  lemma Regroup(a: seq<Byte>, b: seq<Byte>, c: seq<Byte>)
    ensures a + (b + c) == a + b + c && a + [] == a
  {
  }

  /** `bytes` written over `memory` from `at` on. */
  function Placed(memory: seq<Byte>, at: nat, bytes: seq<Byte>): seq<Byte>
    requires at + |bytes| <= |memory|
  {
    memory[..at] + bytes + memory[at + |bytes|..]
  }

  lemma PlacedNothing(memory: seq<Byte>, at: nat)
    requires at <= |memory|
    ensures Placed(memory, at, []) == memory
  {
  }

  lemma PlacedMore(memory: seq<Byte>, at: nat, a: seq<Byte>, b: seq<Byte>)
    requires at + |a| + |b| <= |memory|
    ensures |Placed(memory, at, a)| == |memory|
    ensures Placed(Placed(memory, at, a), at + |a|, b) == Placed(memory, at, a + b)
    ensures b == [] ==> a + b == a
  {
  }

  /** `os_memcpy` of one element into the output. */
  method CopyElement(output: array<Byte>, at: nat, ies: seq<Byte>, offset: nat)
    requires HasElement(ies, offset) && at + |ElementAt(ies, offset)| <= output.Length
    modifies output
    ensures output[..] == Placed(old(output[..]), at, ElementAt(ies, offset))
  {
    ghost var e := ElementAt(ies, offset);
    for k := 0 to ies[offset + 1] as int + 2
      invariant output[..] == Placed(old(output[..]), at, e[..k])
    {
      output[at + k] := ies[offset + k];
      assert e[..k + 1] == e[..k] + [ies[offset + k]];
    }
    assert e[..|e|] == e;
  }

  // ----- the scan cache -----

  const MAX_SCAN_RESULTS: nat := 32
  const MAX_SCAN_IE_LEN: nat := 2304
  const ABI_VERSION: nat := 9

  /** What the radio reports; `ies` is absent where the source has a null pointer. */
  datatype ScanResult = ScanResult(abiVersion: nat, frequency: int, ies: Option<seq<Byte>>, ieLen: nat,
                                   beaconIeLen: nat)

  datatype Stored = Stored(frequency: int, ieLen: nat, beaconIeLen: nat, ies: seq<Byte>)

  datatype Status = Fed | Invalid | Capacity | Allocation

  /** The reported streams, once their lengths and presence are checked. */
  predicate Acceptable(r: ScanResult) {
    && r.abiVersion == ABI_VERSION && r.frequency > 0
    && r.ieLen <= MAX_SCAN_IE_LEN && r.beaconIeLen <= MAX_SCAN_IE_LEN - r.ieLen
    && (r.ieLen + r.beaconIeLen != 0 ==> r.ies.Some?)
  }

  function Probe(r: ScanResult): seq<Byte>
    requires r.ies.Some? ==> r.ieLen + r.beaconIeLen <= |r.ies.value|
  {
    if r.ies.Some? then r.ies.value[..r.ieLen] else []
  }

  function Beacon(r: ScanResult): seq<Byte>
    requires r.ies.Some? ==> r.ieLen + r.beaconIeLen <= |r.ies.value|
  {
    if r.ies.Some? then r.ies.value[r.ieLen..r.ieLen + r.beaconIeLen] else []
  }

  /** One call of `hisi_wpa_driver_feed_scan_result`; `memory` says whether the allocation succeeds. */
  datatype Feed = Feed(result: Option<ScanResult>, memory: bool)

  /** The reported elements are as long as the report says. */
  predicate Backed(f: Feed) {
    f.result.Some? && f.result.value.ies.Some? ==>
        f.result.value.ieLen + f.result.value.beaconIeLen <= |f.result.value.ies.value|
  }

  /** The call can store its result, if there is room. */
  predicate Storable(f: Feed)
    requires Backed(f)
  {
    f.result.Some? && Acceptable(f.result.value) && WellFormed(Probe(f.result.value))
        && WellFormed(Beacon(f.result.value)) && f.memory
  }

  /** What it stores: the two filtered parts one behind the other. */
  function StoredOf(f: Feed): Stored
    requires Backed(f) && Storable(f)
  {
    var probe, beacon := Filtered(Probe(f.result.value)), Filtered(Beacon(f.result.value));
    Stored(f.result.value.frequency, |probe|, |beacon|, probe + beacon)
  }

  function Cached(results: seq<Stored>, f: Feed): seq<Stored>
    requires Backed(f)
  {
    if |results| < MAX_SCAN_RESULTS && Storable(f) then results + [StoredOf(f)] else results
  }

  /** The cache after these calls. */
  function Captured(results: seq<Stored>, feeds: seq<Feed>): seq<Stored>
    requires forall i :: 0 <= i < |feeds| ==> Backed(feeds[i])
    decreases |feeds|
  {
    if feeds == [] then results else Captured(Cached(results, feeds[0]), feeds[1..])
  }

  function AllStorable(feeds: seq<Feed>): seq<Stored>
    requires forall i :: 0 <= i < |feeds| ==> Backed(feeds[i])
  {
    if feeds == [] then [] else (if Storable(feeds[0]) then [StoredOf(feeds[0])] else []) + AllStorable(feeds[1..])
  }

  function FirstResults(all: seq<Stored>): seq<Stored> {
    if |all| < MAX_SCAN_RESULTS then all else all[..MAX_SCAN_RESULTS]
  }

  lemma FirstOfMore(results: seq<Stored>, one: seq<Stored>, more: seq<Stored>)
    requires |results| <= MAX_SCAN_RESULTS && |one| <= 1
    ensures FirstResults((if |results| < MAX_SCAN_RESULTS then results + one else results) + more) ==
            FirstResults(results + (one + more))
  {
    Associate(results, one, more);
    if |results| == MAX_SCAN_RESULTS {
      assert (results + more)[..MAX_SCAN_RESULTS] == results;
      assert (results + (one + more))[..MAX_SCAN_RESULTS] == results;
    }
  }

  lemma {:induction false} CaptureMore(results: seq<Stored>, feeds: seq<Feed>)
    requires |results| <= MAX_SCAN_RESULTS && forall i :: 0 <= i < |feeds| ==> Backed(feeds[i])
    ensures Captured(results, feeds) == FirstResults(results + AllStorable(feeds))
    decreases |feeds|
  {
    hide Storable, StoredOf, Backed;
    if feeds == [] {
      assert results + [] == results;
      assert |results| == MAX_SCAN_RESULTS ==> results[..MAX_SCAN_RESULTS] == results;
    } else {
      var one := if Storable(feeds[0]) then [StoredOf(feeds[0])] else [];
      CaptureMore(Cached(results, feeds[0]), feeds[1..]);
      hide FirstResults;
      FirstOfMore(results, one, AllStorable(feeds[1..]));
      assert results + [] == results;
    }
  }

  /** A capture, which starts by clearing the cache, holds the first 32 results that can be stored, in the
      order in which they were reported. */
  lemma CaptureHolds(feeds: seq<Feed>)
    requires forall i :: 0 <= i < |feeds| ==> Backed(feeds[i])
    ensures var all := AllStorable(feeds); Captured([], feeds) == if |all| <= 32 then all else all[..32]
  {
    CaptureMore([], feeds);
    assert [] + AllStorable(feeds) == AllStorable(feeds);
    assert |AllStorable(feeds)| == 32 ==> AllStorable(feeds)[..32] == AllStorable(feeds);
  }

  ghost predicate AllWhole(es: seq<seq<Byte>>) { forall i :: 0 <= i < |es| ==> IsWhole(es[i]) }

  /** The bytes are whole elements one after another. */
  ghost predicate IsStream(bytes: seq<Byte>) {
    exists es: seq<seq<Byte>> :: AllWhole(es) && Flatten(es) == bytes
  }

  lemma StreamsParse(bytes: seq<Byte>)
    ensures WellFormed(bytes) <==> IsStream(bytes)
  {
    if WellFormed(bytes) {
      ElementsAre(bytes);
      assert AllWhole(Elements(bytes));
    }
    if IsStream(bytes) {
      var es: seq<seq<Byte>> :| AllWhole(es) && Flatten(es) == bytes;
      FlattenParses(es);
    }
  }

  /** The wanted elements of a stream, one behind the other. */
  function WantedOf(ies: seq<Byte>): seq<Byte>
    requires WellFormed(ies)
  {
    ElementsAre(ies);
    Flatten(Wanted(Elements(ies)))
  }

  /** A report can be stored exactly when it has version 9, a frequency, at most 2304 bytes of elements, present
      unless there are none, that are two streams of whole elements, and memory is granted; what is stored are the
      wanted elements of the first stream and behind them those of the second. */
  lemma StoredExactly(r: ScanResult, memory: bool)
    requires Backed(Feed(Some(r), memory))
    ensures Storable(Feed(Some(r), memory)) <==>
              && r.abiVersion == 9 && r.frequency > 0 && r.ieLen + r.beaconIeLen <= 2304 && memory
              && (r.ies.None? ==> r.ieLen == 0 && r.beaconIeLen == 0)
              && (r.ies.Some? ==> IsStream(r.ies.value[..r.ieLen])
                                  && IsStream(r.ies.value[r.ieLen..r.ieLen + r.beaconIeLen]))
    ensures Storable(Feed(Some(r), memory)) ==>
              var stored := StoredOf(Feed(Some(r), memory));
              && stored.frequency == r.frequency && |stored.ies| == stored.ieLen + stored.beaconIeLen
              && (r.ies.Some? ==>
                    && stored.ies[..stored.ieLen] == WantedOf(r.ies.value[..r.ieLen])
                    && stored.ies[stored.ieLen..] == WantedOf(r.ies.value[r.ieLen..r.ieLen + r.beaconIeLen]))
              && (r.ies.None? ==> stored.ies == [])
  {
    hide WellFormed, Filtered, IsStream, WantedOf;
    StreamsParse(Probe(r));
    StreamsParse(Beacon(r));
    NoElements();
    if WellFormed(Probe(r)) && WellFormed(Beacon(r)) {
      FilteredIsWanted(Probe(r));
      FilteredIsWanted(Beacon(r));
    }
  }

  lemma NoElements()
    ensures WellFormed([]) && Filtered([]) == []
  {
    assert Elements([]) == [];
  }

  lemma FilteredIsWanted(ies: seq<Byte>)
    requires WellFormed(ies)
    ensures Filtered(ies) == WantedOf(ies)
  {
    ElementsAre(ies);
    WantedAreKept(Elements(ies));
  }

  class Driver {
    var results: seq<Stored>

    predicate Valid()
      reads this
    {
      |results| <= MAX_SCAN_RESULTS
    }

    constructor ()
      ensures Valid() && results == []
    {
      results := [];
    }

    /** `hisi_wpa_driver_feed_scan_result`; `memory` says whether the allocation succeeds. A result is
        stored exactly when it is acceptable, there is room, and both parts are well formed; its two
        filtered parts then fill the allocation. */
    method FeedScanResult(result: Option<ScanResult>, memory: bool) returns (status: Status)
      requires Valid()
      requires Backed(Feed(result, memory))
      modifies this
      ensures Valid()
      ensures results == Cached(old(results), Feed(result, memory))
      ensures status != Fed ==> results == old(results)
      ensures status == Fed <==> result.Some? && Acceptable(result.value) && old(|results|) < MAX_SCAN_RESULTS &&
                                 WellFormed(Probe(result.value)) && WellFormed(Beacon(result.value)) && memory
      ensures status == Fed ==>
                var probe, beacon := Filtered(Probe(result.value)), Filtered(Beacon(result.value));
                results == old(results) + [Stored(result.value.frequency, |probe|, |beacon|, probe + beacon)]
      ensures status == Allocation <==> result.Some? && Acceptable(result.value) && old(|results|) < MAX_SCAN_RESULTS &&
                                        WellFormed(Probe(result.value)) && WellFormed(Beacon(result.value)) && !memory
      ensures status == Capacity <==> result.Some? && old(|results|) == MAX_SCAN_RESULTS &&
                                      Acceptable(result.value.(ies := Some([])))
    {
      hide Filtered, WellFormed;
      if result.None? { return Invalid; }
      var r := result.value;
      if r.abiVersion != ABI_VERSION || r.frequency <= 0 || r.ieLen > MAX_SCAN_IE_LEN ||
         r.beaconIeLen > MAX_SCAN_IE_LEN - r.ieLen { return Invalid; }
      if |results| == MAX_SCAN_RESULTS { return Capacity; }
      if r.ieLen + r.beaconIeLen != 0 && r.ies.None? { return Invalid; }
      var probe, beacon := Probe(r), Beacon(r);
      var ieLen := FilteredScanIesLen(probe);
      var beaconIeLen := FilteredScanIesLen(beacon);
      if ieLen == SIZE_MAX || beaconIeLen == SIZE_MAX { return Invalid; }
      if !memory { return Allocation; }
      var stored := new Byte[ieLen + beaconIeLen](_ => 0);
      if ieLen != 0 { CopyFilteredScanIes(stored, 0, probe); }
      assert stored[..ieLen] == Filtered(probe);
      if beaconIeLen != 0 { CopyFilteredScanIes(stored, ieLen, beacon); }
      assert stored[..] == Filtered(probe) + Filtered(beacon);
      assert StoredOf(Feed(result, memory)) == Stored(r.frequency, ieLen, beaconIeLen, stored[..]);
      results := results + [Stored(r.frequency, ieLen, beaconIeLen, stored[..])];
      return Fed;
    }

    /** `clear_scan_results`, the start of every capture. */
    method ClearScanResults()
      modifies this
      ensures Valid() && results == []
    {
      results := [];
    }

    /** A whole capture: `hisi_wpa_driver_begin_scan_capture`, then the reports one after the other. */
    method Capture(feeds: seq<Feed>)
      requires forall i :: 0 <= i < |feeds| ==> Backed(feeds[i])
      modifies this
      ensures Valid()
      ensures var all := AllStorable(feeds); results == if |all| <= 32 then all else all[..32]
    {
      hide AllStorable, Cached, Backed;
      ClearScanResults();
      CaptureHolds(feeds);
      for i := 0 to |feeds|
        invariant Valid() && Captured([], feeds) == Captured(results, feeds[i..])
      {
        assert feeds[i..][0] == feeds[i] && feeds[i..][1..] == feeds[i + 1..];
        var _ := FeedScanResult(feeds[i].result, feeds[i].memory);
      }
    }
  }
}
