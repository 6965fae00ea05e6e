/** A normalized archive is the same archive to the member walk, so it can be walked and normalized again. */
module ArchiveTheorems {
  import opened Bytes
  import opened ElfObject
  import opened Normalizer
  import opened NormalizerFacts
  import opened NormalizerTheorems
  import opened Archive

  // ----- archives with the same headers -----

  predicate SameBounds(left: seq<Member>, right: seq<Member>) {
    |left| == |right| && forall k :: 0 <= k < |left| ==> left[k].start == right[k].start && left[k].end == right[k].end
  }

  predicate SameSpan(left: seq<Byte>, right: seq<Byte>, from: int, to: int) {
    0 <= from <= to <= |left| && |left| == |right| && left[from..to] == right[from..to]
  }

  /** The headers in front of these members are byte for byte the same. */
  predicate SameHeaders(left: seq<Byte>, right: seq<Byte>, members: seq<Member>) {
    forall k :: 0 <= k < |members| ==> SameSpan(left, right, members[k].start - AR_HEADER_SIZE, members[k].start)
  }

  predicate IsNameTable(data: seq<Byte>, m: Member) {
    AR_HEADER_SIZE <= m.start <= |data| && Trim(data[m.start - AR_HEADER_SIZE..m.start - 44]) == [SLASH, SLASH]
  }

  /** So are the tables of long names. */
  predicate SameNameTables(left: seq<Byte>, right: seq<Byte>, members: seq<Member>) {
    forall k :: 0 <= k < |members| && IsNameTable(left, members[k]) ==>
        SameSpan(left, right, members[k].start, members[k].end)
  }

  lemma SubSpan(left: seq<Byte>, right: seq<Byte>, from: nat, to: nat, a: nat, b: nat)
    requires SameSpan(left, right, from, to) && from <= a <= b <= to
    ensures left[a..b] == right[a..b]
  {
    forall i | a <= i < b
      ensures left[i] == right[i]
    {
      assert left[i] == left[from..to][i - from] && right[i] == right[from..to][i - from];
    }
  }

  lemma HeaderSame(left: seq<Byte>, right: seq<Byte>, offset: nat)
    requires SameSpan(left, right, offset, offset + AR_HEADER_SIZE)
    ensures SizeAt(right, offset) == SizeAt(left, offset)
    ensures left[offset..offset + 16] == right[offset..offset + 16]
  {
    SubSpan(left, right, offset, offset + AR_HEADER_SIZE, offset, offset + 16);
    SubSpan(left, right, offset, offset + AR_HEADER_SIZE, offset + 48, offset + 58);
    SubSpan(left, right, offset, offset + AR_HEADER_SIZE, offset + 58, offset + 60);
  }

  /** A long name is found in one table exactly if it is found in another of the same length. */
  lemma NameFound(field: seq<Byte>, left: seq<Byte>, right: seq<Byte>)
    requires |left| == |right|
    ensures MemberName(field, left).Ok? == MemberName(field, right).Ok?
  {
  }

  lemma FirstMember(data: seq<Byte>, offset: nat, names: seq<Byte>)
    requires MembersFrom(data, offset, names).Ok? && offset < |data|
    ensures SizeAt(data, offset).Ok?
    ensures var size, members := SizeAt(data, offset).value, MembersFrom(data, offset, names).value;
            && offset + AR_HEADER_SIZE + size <= |data| && members != []
            && members[0].start == offset + AR_HEADER_SIZE && members[0].end == offset + AR_HEADER_SIZE + size
            && var next := NamesAfter(data, offset, size, names);
            && MemberName(data[offset..offset + 16], next) == Ok(members[0].name)
            && MembersFrom(data, NextOffset(offset, size), next) == Ok(members[1..])
  {
    hide SizeAt, MemberName, NamesAfter;
    SizeFits(data, offset);
  }

  lemma NextNames(left: seq<Byte>, right: seq<Byte>, offset: nat, size: nat, names: seq<Byte>, others: seq<Byte>)
    requires SameSpan(left, right, offset, offset + AR_HEADER_SIZE) && offset + AR_HEADER_SIZE + size <= |left|
    requires |names| == |others|
    ensures |NamesAfter(left, offset, size, names)| == |NamesAfter(right, offset, size, others)|
    ensures names == others && (Trim(left[offset..offset + 16]) == [SLASH, SLASH] ==>
                                  SameSpan(left, right, offset + AR_HEADER_SIZE, offset + AR_HEADER_SIZE + size))
            ==> NamesAfter(left, offset, size, names) == NamesAfter(right, offset, size, others)
  {
    hide Trim;
    HeaderSame(left, right, offset);
  }

  /** The walk reads headers and long names only. */
  lemma {:induction false} WalkAgain(left: seq<Byte>, right: seq<Byte>, offset: nat, names: seq<Byte>,
                                     others: seq<Byte>)
    requires |left| == |right| && |names| == |others| && MembersFrom(left, offset, names).Ok?
    requires SameHeaders(left, right, MembersFrom(left, offset, names).value)
    ensures var members, again := MembersFrom(left, offset, names).value, MembersFrom(right, offset, others);
            && again.Ok? && SameBounds(members, again.value)
            && (names == others && SameNameTables(left, right, members) ==> again.value == members)
    decreases |left| - offset
  {
    hide SizeAt, MemberName, NamesAfter, Trim, SameSpan;
    if offset < |left| {
      var members := MembersFrom(left, offset, names).value;
      FirstMember(left, offset, names);
      var size := SizeAt(left, offset).value;
      assert SameSpan(left, right, members[0].start - AR_HEADER_SIZE, members[0].start);
      HeaderSame(left, right, offset);
      NextNames(left, right, offset, size, names, others);
      var next, after := NamesAfter(left, offset, size, names), NamesAfter(right, offset, size, others);
      NameFound(left[offset..offset + 16], next, after);
      RestSame(left, right, members);
      WalkAgain(left, right, NextOffset(offset, size), next, after);
      var rest := MembersFrom(right, NextOffset(offset, size), after).value;
      var first := Member(MemberName(right[offset..offset + 16], after).value, offset + AR_HEADER_SIZE,
                          offset + AR_HEADER_SIZE + size);
      assert MembersFrom(right, offset, others) == Ok([first] + rest);
      BoundsCons(members, first, rest);
      if names == others && SameNameTables(left, right, members) {
        assert IsNameTable(left, members[0]) <==> Trim(left[offset..offset + 16]) == [SLASH, SLASH];
        assert members == [members[0]] + members[1..];
      }
    }
  }

  lemma RestSame(left: seq<Byte>, right: seq<Byte>, members: seq<Member>)
    requires members != []
    ensures SameHeaders(left, right, members) ==> SameHeaders(left, right, members[1..])
    ensures SameNameTables(left, right, members) ==> SameNameTables(left, right, members[1..])
  {
    hide SameSpan, IsNameTable;
    assert forall k :: 0 <= k < |members[1..]| ==> members[1..][k] == members[k + 1];
  }

  lemma BoundsCons(members: seq<Member>, first: Member, rest: seq<Member>)
    requires members != [] && members[0].start == first.start && members[0].end == first.end
             && SameBounds(members[1..], rest)
    ensures SameBounds(members, [first] + rest)
  {
    var all := [first] + rest;
    forall k | 0 <= k < |members|
      ensures members[k].start == all[k].start && members[k].end == all[k].end
    {
      assert k > 0 ==> members[1..][k - 1] == members[k] && all[k] == rest[k - 1];
    }
  }

  // ----- the normalized archive -----

  /** A byte in front of a member, back to its header, is in no ELF member. */
  lemma HeaderOutside(data: seq<Byte>, k: nat, i: int)
    requires MembersOf(data).Ok? && k < |MembersOf(data).value|
    requires MembersOf(data).value[k].start - AR_HEADER_SIZE <= i < MembersOf(data).value[k].start
    ensures !InElfMember(data, MembersOf(data).value, i) && 0 <= i < |data|
  {
    hide MembersOf, SizeAt, IsElf;
    var members := MembersOf(data).value;
    WalkIsTiling(data, k);
    forall j | 0 <= j < |members|
      ensures !(members[j].start <= i < members[j].end)
    {
      if j < k {
        MembersOrdered(data, j, k);
      } else if k < j {
        MembersOrdered(data, k, j);
        WalkIsTiling(data, k);
      }
    }
  }

  /** The magic at the front is in no member. */
  lemma MagicOutside(data: seq<Byte>, i: int)
    requires MembersOf(data).Ok? && 0 <= i < |AR_MAGIC|
    ensures !InElfMember(data, MembersOf(data).value, i)
  {
    hide MembersOf, SizeAt, IsElf;
    forall j | 0 <= j < |MembersOf(data).value|
      ensures MembersOf(data).value[j].start > i
    {
      WalkIsTiling(data, j);
    }
  }

  lemma MagicKept(data: seq<Byte>, out: Pass)
    requires NormalizedArchive(data) == Ok(out)
    ensures AR_MAGIC <= data && AR_MAGIC <= out.data
  {
    assert AR_MAGIC <= data;
    hide MembersOf, InElfMember, MemberDone, CountsFrom, NormalizedArchive;
    ArchiveByMember(data, out);
    forall i | 0 <= i < |AR_MAGIC|
      ensures out.data[i] == AR_MAGIC[i]
    {
      MagicOutside(data, i);
    }
  }

  lemma HeaderKept(data: seq<Byte>, out: Pass, k: nat)
    requires NormalizedArchive(data) == Ok(out) && MembersOf(data).Ok? && k < |MembersOf(data).value|
    ensures var start := MembersOf(data).value[k].start; SameSpan(data, out.data, start - AR_HEADER_SIZE, start)
  {
    hide MembersOf, InElfMember, MemberDone, CountsFrom, NormalizedArchive, SizeAt;
    ArchiveByMember(data, out);
    WalkIsTiling(data, k);
    var start := MembersOf(data).value[k].start;
    forall i | start - AR_HEADER_SIZE <= i < start
      ensures data[i] == out.data[i]
    {
      HeaderOutside(data, k, i);
    }
  }

  lemma HeadersKept(data: seq<Byte>, out: Pass)
    requires NormalizedArchive(data) == Ok(out)
    ensures |out.data| == |data| && SameHeaders(data, out.data, MembersOf(data).value)
  {
    assert MembersOf(data).Ok?;
    hide MembersOf, InElfMember, MemberDone, CountsFrom, NormalizedArchive, SameSpan, Ordered;
    ArchiveByMember(data, out);
    forall k | 0 <= k < |MembersOf(data).value|
      ensures SameSpan(data, out.data, MembersOf(data).value[k].start - AR_HEADER_SIZE, MembersOf(data).value[k].start)
    {
      HeaderKept(data, out, k);
    }
  }

  /** Rewriting members disturbs no other member's bounds: the walk over the normalized archive succeeds and
      finds every member where it was. Names are the same too, unless a table of long names is itself taken
      for an ELF object. */
  lemma WalkKept(data: seq<Byte>, out: Pass)
    requires NormalizedArchive(data) == Ok(out)
    ensures MembersOf(out.data).Ok? && SameBounds(MembersOf(data).value, MembersOf(out.data).value)
    ensures (forall k :: 0 <= k < |MembersOf(data).value| && IsNameTable(data, MembersOf(data).value[k]) ==>
              !IsElf(data, MembersOf(data).value[k]))
            ==> MembersOf(out.data) == MembersOf(data)
  {
    hide ArchiveRun, SizeAt, MemberDone, InElfMember, IsNameTable, CountsFrom, MembersFrom;
    MagicKept(data, out);
    HeadersKept(data, out);
    WalkAgain(data, out.data, |AR_MAGIC|, [], []);
    if forall k :: 0 <= k < |MembersOf(data).value| && IsNameTable(data, MembersOf(data).value[k]) ==>
        !IsElf(data, MembersOf(data).value[k]) {
      NameTablesKept(data, out);
    }
  }

  lemma NameTablesKept(data: seq<Byte>, out: Pass)
    requires NormalizedArchive(data) == Ok(out)
    requires forall k :: 0 <= k < |MembersOf(data).value| && IsNameTable(data, MembersOf(data).value[k]) ==>
               !IsElf(data, MembersOf(data).value[k])
    ensures SameNameTables(data, out.data, MembersOf(data).value)
  {
    assert MembersOf(data).Ok?;
    hide MembersOf, InElfMember, CountsFrom, NormalizedArchive, IsNameTable, IsElf;
    ArchiveByMember(data, out);
    var members := MembersOf(data).value;
    forall k | 0 <= k < |members| && IsNameTable(data, members[k])
      ensures SameSpan(data, out.data, members[k].start, members[k].end)
    {
      assert MemberDone(data, out.data, members[k]);
    }
  }

  // ----- normalizing again -----

  /** Every ELF member is an object whose entries, sites and tables do not overlap. */
  ghost predicate AllWellFormed(data: seq<Byte>, members: seq<Member>) {
    forall k :: 0 <= k < |members| && IsElf(data, members[k]) ==> WellFormed(data[members[k].start..members[k].end])
  }

  /** The object starts as it did. */
  lemma StillElf(data: seq<Byte>, out: Pass)
    requires Succeeds(data, out) && 4 <= |data|
    ensures |out.data| == |data| && out.data[..4] == data[..4]
  {
    hide Normalized, SectionsOf, ShapeOf, SlotsBefore, InFoot, InSymbols;
    NormalizedOutside(data, out);
    forall i | 0 <= i < 4
      ensures out.data[i] == data[i]
    {
      assert InHeaders(data, i);
    }
  }

  /** A member of the normalized archive: an ELF object exactly if it was, and then one on which the
      normalizer has nothing to do. */
  predicate Settled(data: seq<Byte>, m: Member) {
    m.start <= m.end <= |data| &&
    (IsElf(data, m) ==> Normalized(data[m.start..m.end]) == Ok(Pass(data[m.start..m.end], NO_COUNTS)))
  }

  lemma FrontOf(data: seq<Byte>, from: nat, to: nat)
    requires from + 4 <= to <= |data|
    ensures data[from..from + 4] == data[from..to][..4]
  {
    forall i | 0 <= i < 4
      ensures data[from..from + 4][i] == data[from..to][..4][i]
    {
    }
  }

  lemma MemberSettled(data: seq<Byte>, now: seq<Byte>, m: Member)
    requires m.start <= m.end <= |data| && |now| == |data| && MemberDone(data, now, m)
    requires IsElf(data, m) ==> WellFormed(data[m.start..m.end])
    ensures Settled(now, m)
  {
    hide WellFormed, Normalized;
    var payload := data[m.start..m.end];
    if m.start + 4 <= m.end {
      FrontOf(data, m.start, m.end);
      FrontOf(now, m.start, m.end);
    }
    if IsElf(data, m) {
      var out := Normalized(payload).value;
      StillElf(payload, out);
      Idempotent(payload, out);
    }
  }

  lemma SpliceSame(data: seq<Byte>, m: Member)
    requires m.start <= m.end <= |data|
    ensures Splice(data, m, data[m.start..m.end]) == data
  {
  }

  lemma RunStep(pass: Pass, run: Pass, members: seq<Member>, k: nat)
    requires InFile(members, |pass.data|) && k < |members| && IsElf(pass.data, members[k])
    requires Normalized(pass.data[members[k].start..members[k].end]) == Ok(run)
             && |run.data| == members[k].end - members[k].start
    requires Splice(pass.data, members[k], run.data) == pass.data
    ensures ArchiveRun(pass, members, k) == ArchiveRun(Pass(pass.data, pass.counts.Sum(run.counts)), members, k + 1)
  {
    hide Normalized, IsElf, Splice;
  }

  lemma RunSkips(pass: Pass, members: seq<Member>, k: nat)
    requires InFile(members, |pass.data|)
    ensures k < |members| && !IsElf(pass.data, members[k]) ==>
              ArchiveRun(pass, members, k) == ArchiveRun(pass, members, k + 1)
    ensures k >= |members| ==> ArchiveRun(pass, members, k) == Ok(pass)
  {
    hide Normalized, IsElf, Splice;
  }

  lemma NothingStep(data: seq<Byte>, members: seq<Member>, k: nat)
    requires InFile(members, |data|) && k < |members| && Settled(data, members[k])
    ensures ArchiveRun(Pass(data, NO_COUNTS), members, k) == ArchiveRun(Pass(data, NO_COUNTS), members, k + 1)
  {
    hide Normalized, Splice, ArchiveRun, IsElf, InFile;
    var m := members[k];
    RunSkips(Pass(data, NO_COUNTS), members, k);
    if IsElf(data, m) {
      SpliceSame(data, m);
      RunStep(Pass(data, NO_COUNTS), Pass(data[m.start..m.end], NO_COUNTS), members, k);
    }
  }

  lemma {:induction false} NothingRun(data: seq<Byte>, members: seq<Member>, k: nat)
    requires InFile(members, |data|) && forall j :: 0 <= j < |members| ==> Settled(data, members[j])
    ensures ArchiveRun(Pass(data, NO_COUNTS), members, k) == Ok(Pass(data, NO_COUNTS))
    decreases |members| - k
  {
    hide ArchiveRun, Settled, IsElf, InFile;
    RunSkips(Pass(data, NO_COUNTS), members, k);
    if k < |members| {
      NothingStep(data, members, k);
      NothingRun(data, members, k + 1);
    }
  }

  /** Normalizing a normalized archive succeeds, changes nothing and counts nothing. */
  lemma ArchiveIdempotent(data: seq<Byte>, out: Pass)
    requires NormalizedArchive(data) == Ok(out) && AllWellFormed(data, MembersOf(data).value)
    ensures NormalizedArchive(out.data) == Ok(Pass(out.data, NO_COUNTS))
  {
    hide MembersOf, WellFormed, Normalized, MemberDone, CountsFrom, ArchiveRun, InElfMember, Settled, IsElf,
         IsNameTable;
    ArchiveByMember(data, out);
    WalkKept(data, out);
    var members, again := MembersOf(data).value, MembersOf(out.data).value;
    forall j | 0 <= j < |again|
      ensures Settled(out.data, again[j])
    {
      MemberSettled(data, out.data, members[j]);
      SettledAt(out.data, members[j], again[j]);
    }
    MembersInFile(out.data);
    NothingRun(out.data, again, 0);
  }

  lemma SettledAt(data: seq<Byte>, m: Member, n: Member)
    requires Settled(data, m) && m.start == n.start && m.end == n.end
    ensures Settled(data, n)
  {
  }
}
