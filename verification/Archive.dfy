/** GNU ar archives: the member walk, and normalization of every ELF member in place. */
module Archive {
  import opened Bytes
  import opened ElfObject
  import opened Normalizer

  const AR_MAGIC: seq<Byte> := [0x21, 0x3c, 0x61, 0x72, 0x63, 0x68, 0x3e, 0x0a]
  const ELF_MAGIC: seq<Byte> := [0x7f, 0x45, 0x4c, 0x46]
  const AR_HEADER_SIZE := 60
  const SLASH: Byte := 0x2f

  datatype Member = Member(name: seq<Byte>, start: nat, end: nat)

  // ----- header fields -----

  predicate IsSpace(b: Byte) { b == 0x20 || 0x09 <= b <= 0x0d }

  function TrimStart(s: seq<Byte>): seq<Byte> {
    if s != [] && IsSpace(s[0]) then TrimStart(s[1..]) else s
  }

  function TrimEnd(s: seq<Byte>): seq<Byte> {
    if s != [] && IsSpace(s[|s| - 1]) then TrimEnd(s[..|s| - 1]) else s
  }

  function Trim(s: seq<Byte>): seq<Byte> { TrimEnd(TrimStart(s)) }

  function Digits(s: seq<Byte>): Option<nat> {
    if s == [] then Some(0)
    else
      var last := s[|s| - 1];
      match Digits(s[..|s| - 1])
      case None => None
      case Some(front) => if 0x30 <= last <= 0x39 then Some(10 * front + (last - 0x30)) else None
  }

  /** Decimal digits with an optional plus sign. */
  function ParseUsize(s: seq<Byte>): Option<nat> {
    var digits := if s != [] && s[0] == 0x2b then s[1..] else s;
    if digits == [] then None else Digits(digits)
  }

  function ParseDecimal(field: seq<Byte>): Result<nat, Error> {
    match ParseUsize(Trim(field))
    case None => Err(ArDecimal)
    case Some(value) => Ok(value)
  }

  /** Up to the slash and newline that end an entry of the long-name table. */
  function UntilSlashNewline(s: seq<Byte>): seq<Byte> {
    if |s| < 2 || (s[0] == SLASH && s[1] == 0x0a) then (if |s| < 2 then s else [])
    else [s[0]] + UntilSlashNewline(s[1..])
  }

  function MemberName(field: seq<Byte>, longNames: seq<Byte>): Result<seq<Byte>, Error> {
    var raw := Trim(field);
    if raw == [SLASH] || raw == [SLASH, SLASH] || [0x23, 0x31, SLASH] <= raw then Ok(raw)
    else if raw != [] && raw[0] == SLASH then
      match ParseUsize(raw[1..])
      case None => Err(ArName)
      case Some(offset) => if offset >= |longNames| then Err(ArName) else Ok(UntilSlashNewline(longNames[offset..]))
    else if raw != [] && raw[|raw| - 1] == SLASH then Ok(raw[..|raw| - 1])
    else Ok(raw)
  }

  // ----- the walk -----

  /** Payload size declared by the header at `offset`. */
  function SizeAt(data: seq<Byte>, offset: nat): Result<nat, Error> {
    var end :- CheckedRange(data, offset, AR_HEADER_SIZE);
    if data[offset + 58..offset + 60] != [0x60, 0x0a] then Err(ArHeader)
    else
      var size :- ParseDecimal(data[offset + 48..offset + 58]);
      var _ :- CheckedRange(data, end, size);
      Ok(size)
  }

  function NextOffset(offset: nat, size: nat): nat { offset + AR_HEADER_SIZE + size + size % 2 }

  /** The long-name table in force once the member at `offset` has been seen. */
  function NamesAfter(data: seq<Byte>, offset: nat, size: nat, longNames: seq<Byte>): seq<Byte>
    requires offset + AR_HEADER_SIZE + size <= |data|
  {
    if Trim(data[offset..offset + 16]) == [SLASH, SLASH]
    then data[offset + AR_HEADER_SIZE..offset + AR_HEADER_SIZE + size] else longNames
  }

  lemma SizeFits(data: seq<Byte>, offset: nat)
    requires SizeAt(data, offset).Ok?
    ensures offset + AR_HEADER_SIZE + SizeAt(data, offset).value <= |data|
  {
  }

  function MembersFrom(data: seq<Byte>, offset: nat, longNames: seq<Byte>): Result<seq<Member>, Error>
    decreases |data| - offset
  {
    if offset >= |data| then Ok([])
    else
      var size :- SizeAt(data, offset);
      SizeFits(data, offset);
      var names := NamesAfter(data, offset, size, longNames);
      var name :- MemberName(data[offset..offset + 16], names);
      var rest :- MembersFrom(data, NextOffset(offset, size), names);
      Ok([Member(name, offset + AR_HEADER_SIZE, offset + AR_HEADER_SIZE + size)] + rest)
  }

  function MembersOf(data: seq<Byte>): Result<seq<Member>, Error> {
    if !(AR_MAGIC <= data) then Err(ArMagic) else MembersFrom(data, |AR_MAGIC|, [])
  }

  method ArchiveMembers(data: seq<Byte>) returns (r: Result<seq<Member>, Error>)
    ensures r == MembersOf(data)
  {
    hide SizeAt, MemberName, NamesAfter;
    if !(AR_MAGIC <= data) { return Err(ArMagic); }
    var offset, longNames, members := |AR_MAGIC|, [], [];
    PrependNothing(MembersFrom(data, offset, longNames));
    while offset < |data|
      invariant MembersOf(data) == Prepend(members, MembersFrom(data, offset, longNames))
      decreases |data| - offset
    {
      var size :- SizeAt(data, offset);
      SizeFits(data, offset);
      longNames := NamesAfter(data, offset, size, longNames);
      var name :- MemberName(data[offset..offset + 16], longNames);
      var member := Member(name, offset + AR_HEADER_SIZE, offset + AR_HEADER_SIZE + size);
      PrependOne(members, member, MembersFrom(data, NextOffset(offset, size), longNames));
      members := members + [member];
      offset := NextOffset(offset, size);
    }
    assert members + [] == members;
    return Ok(members);
  }

  // ----- the walk is a tiling -----

  function RoundEven(n: nat): nat { n + n % 2 }

  /** `members` tile the archive from `offset` on: headers and payloads follow each other without gap,
      every header is at an even offset and declares its payload, and nothing is left over. */
  ghost predicate Tiles(data: seq<Byte>, offset: nat, members: seq<Member>)
    decreases |members|
  {
    && offset % 2 == 0
    && if members == [] then offset >= |data|
       else
         && members[0].start == offset + AR_HEADER_SIZE
         && SizeAt(data, offset) == Ok(members[0].end - members[0].start)
         && members[0].start <= members[0].end <= |data|
         && Tiles(data, RoundEven(members[0].end), members[1..])
  }

  lemma {:induction false} WalkTiles(data: seq<Byte>, offset: nat, longNames: seq<Byte>)
    requires offset % 2 == 0 && MembersFrom(data, offset, longNames).Ok?
    ensures Tiles(data, offset, MembersFrom(data, offset, longNames).value)
    decreases |data| - offset
  {
    hide SizeAt, MemberName, NamesAfter;
    if offset < |data| {
      var size := SizeAt(data, offset).value;
      SizeFits(data, offset);
      var members := MembersFrom(data, offset, longNames).value;
      var names := NamesAfter(data, offset, size, longNames);
      assert NextOffset(offset, size) == RoundEven(members[0].end);
      WalkTiles(data, NextOffset(offset, size), names);
      assert members[1..] == MembersFrom(data, NextOffset(offset, size), names).value;
    }
  }

  /** Offset of the header of member `k`; for `k == |members|`, where the walk ended. */
  function HeaderOf(members: seq<Member>, k: nat): int
    requires k <= |members|
  {
    if k == 0 then |AR_MAGIC| else RoundEven(members[k - 1].end)
  }

  lemma {:induction false} TilesAt(data: seq<Byte>, offset: nat, members: seq<Member>, k: nat)
    requires Tiles(data, offset, members) && k <= |members|
    ensures var at := if k == 0 then offset else RoundEven(members[k - 1].end);
            && at % 2 == 0 && offset <= at
            && Tiles(data, at, members[k..])
    decreases k
  {
    hide SizeAt;
    if k > 0 {
      TilesAt(data, RoundEven(members[0].end), members[1..], k - 1);
      assert members[1..][k - 1..] == members[k..];
      assert k > 1 ==> members[1..][k - 2] == members[k - 1];
    }
  }

  /** Every member of a successful walk: an even 60-byte header right after its predecessor's payload
      (rounded up to even), a payload of the declared size inside the file; the last one ends it. */
  lemma WalkIsTiling(data: seq<Byte>, k: nat)
    requires MembersOf(data).Ok? && k <= |MembersOf(data).value|
    ensures var members := MembersOf(data).value; var header := HeaderOf(members, k);
            && header % 2 == 0 && header >= |AR_MAGIC|
            && if k == |members| then header >= |data|
               else
                 && members[k].start == header + AR_HEADER_SIZE
                 && SizeAt(data, header) == Ok(members[k].end - members[k].start)
                 && members[k].start <= members[k].end <= |data|
  {
    hide SizeAt, MembersFrom;
    WalkTiles(data, |AR_MAGIC|, []);
    TilesAt(data, |AR_MAGIC|, MembersOf(data).value, k);
  }

  /** So payloads are ordered and disjoint, with room for a header between any two. */
  lemma {:induction false} MembersOrdered(data: seq<Byte>, j: nat, k: nat)
    requires MembersOf(data).Ok? && j < k < |MembersOf(data).value|
    ensures MembersOf(data).value[j].end + AR_HEADER_SIZE <= MembersOf(data).value[k].start
  {
    hide SizeAt, MembersOf;
    WalkIsTiling(data, k);
    if j < k - 1 {
      MembersOrdered(data, j, k - 1);
      WalkIsTiling(data, k - 1);
    }
  }

  // ----- normalizing every ELF member -----

  predicate IsElf(data: seq<Byte>, m: Member) {
    m.start + 4 <= m.end <= |data| && data[m.start..m.start + 4] == ELF_MAGIC
  }

  /** The bytes 7f, E, L and F. */
  predicate StartsElf(data: seq<Byte>, m: Member) {
    && m.start + 4 <= m.end <= |data|
    && data[m.start] == 0x7f && data[m.start + 1] == 69 && data[m.start + 2] == 76 && data[m.start + 3] == 70
  }

  lemma ElfStarts(data: seq<Byte>, m: Member)
    ensures IsElf(data, m) <==> StartsElf(data, m)
  {
    if m.start + 4 <= m.end <= |data| {
      var four := data[m.start..m.start + 4];
      assert four == [four[0], four[1], four[2], four[3]];
    }
  }

  predicate InFile(members: seq<Member>, size: nat) {
    forall k :: 0 <= k < |members| ==> members[k].start <= members[k].end <= size
  }

  function Splice(data: seq<Byte>, m: Member, payload: seq<Byte>): seq<Byte>
    requires m.start <= m.end <= |data|
  {
    data[..m.start] + payload + data[m.end..]
  }

  lemma {:induction false} EntriesLength(pass: Pass, table: Table, branchi: set<int>, k: nat)
    requires RunEntries(pass, table, branchi, k).Ok?
    ensures |RunEntries(pass, table, branchi, k).value.data| == |pass.data|
    decreases table.count - k
  {
    hide EntryChange;
    if k < table.count {
      var change := EntryChange(pass.data, table, branchi, table.Pos(k)).value;
      EntriesLength(Pass(Over(pass.data, change.edits), pass.counts.Plus(change.kind)), table, branchi, k + 1);
    }
  }

  lemma {:induction false} TablesLength(pass: Pass, sections: seq<Section>, branchi: set<int>, t: nat)
    requires RunTables(pass, sections, branchi, t).Ok?
    ensures |RunTables(pass, sections, branchi, t).value.data| == |pass.data|
    decreases |sections| - t
  {
    hide OpenTable;
    if t < |sections| {
      if sections[t].IsRela() {
        var table := OpenTable(pass.data, sections, sections[t].header).value;
        EntriesLength(pass, table, branchi, 0);
        TablesLength(RunEntries(pass, table, branchi, 0).value, sections, branchi, t + 1);
      } else {
        TablesLength(pass, sections, branchi, t + 1);
      }
    }
  }

  /** Normalization never changes an object's length, whatever the object. */
  lemma LengthKept(data: seq<Byte>)
    requires Normalized(data).Ok?
    ensures |Normalized(data).value.data| == |data|
  {
    hide SectionsOf, ScanTables;
    TablesLength(Pass(data, NO_COUNTS), SectionsOf(data).value, ScanTables(data, SectionsOf(data).value, 0, {}).value,
                 0);
  }

  function ArchiveRun(pass: Pass, members: seq<Member>, k: nat): Result<Pass, Error>
    requires InFile(members, |pass.data|)
    decreases |members| - k
  {
    if k >= |members| then Ok(pass)
    else if !IsElf(pass.data, members[k]) then ArchiveRun(pass, members, k + 1)
    else
      var m := members[k];
      var run :- Normalized(pass.data[m.start..m.end]);
      LengthKept(pass.data[m.start..m.end]);
      ArchiveRun(Pass(Splice(pass.data, m, run.data), pass.counts.Sum(run.counts)), members, k + 1)
  }

  /** What the archive becomes, and the totals, if every ELF member can be normalized. */
  function NormalizedArchive(data: seq<Byte>): Result<Pass, Error> {
    var members :- MembersOf(data);
    MembersInFile(data);
    ArchiveRun(Pass(data, NO_COUNTS), members, 0)
  }

  lemma MembersInFile(data: seq<Byte>)
    requires MembersOf(data).Ok?
    ensures InFile(MembersOf(data).value, |data|)
  {
    hide MembersOf, SizeAt;
    forall k | 0 <= k < |MembersOf(data).value|
      ensures MembersOf(data).value[k].start <= MembersOf(data).value[k].end <= |data|
    {
      WalkIsTiling(data, k);
    }
  }

  /** The body of the member loop: an object is normalized in place, anything else is passed over. */
  method NormalizeMember(data: array<Byte>, m: Member, counts: Counts) returns (r: Result<Counts, Error>)
    requires m.start <= m.end <= data.Length
    modifies data
    ensures var was := old(data[..]);
            if !IsElf(was, m) then r == Ok(counts) && data[..] == was
            else
              var run := Normalized(was[m.start..m.end]);
              if run.Err? then r == Err(run.error)
              else |run.value.data| == m.end - m.start && r == Ok(counts.Sum(run.value.counts))
                   && data[..] == Splice(was, m, run.value.data)
  {
    hide Normalized;
    if !IsElf(data[..], m) { return Ok(counts); }
    ghost var before := data[..];
    assert before[m.start..m.end] == data[m.start..m.end];
    var more :- NormalizeObject(data, m.start, m.end);
    assert data[..] == Splice(before, m, data[m.start..m.end]);
    return Ok(counts.Sum(more));
  }

  method NormalizeArchive(data: array<Byte>) returns (r: Result<Counts, Error>)
    modifies data
    ensures var run := NormalizedArchive(old(data[..]));
            if run.Err? then r == Err(run.error) else r == Ok(run.value.counts) && data[..] == run.value.data
  {
    hide MembersOf, Normalized, IsElf;
    var members :- ArchiveMembers(data[..]);
    MembersInFile(data[..]);
    hide Splice;
    var counts := NO_COUNTS;
    for k := 0 to |members|
      invariant |data[..]| == data.Length
      invariant ArchiveRun(Pass(old(data[..]), NO_COUNTS), members, 0) == ArchiveRun(Pass(data[..], counts), members, k)
    {
      counts :- NormalizeMember(data, members[k], counts);
    }
    return Ok(counts);
  }

  // ----- members are normalized independently -----

  ghost predicate Ordered(members: seq<Member>, size: nat) {
    && InFile(members, size)
    && forall j, k :: 0 <= j < k < |members| ==> members[j].end <= members[k].start
  }

  /** Totals over the ELF members from `k` on, each counted in the archive as it was. */
  function CountsFrom(data: seq<Byte>, members: seq<Member>, k: nat): Counts
    requires InFile(members, |data|)
    decreases |members| - k
  {
    if k >= |members| then NO_COUNTS
    else
      var m, rest := members[k], CountsFrom(data, members, k + 1);
      if IsElf(data, m) && Normalized(data[m.start..m.end]).Ok?
      then Normalized(data[m.start..m.end]).value.counts.Sum(rest) else rest
  }

  /** What the run owes to member `j`: an ELF payload is the normalization of the original payload. */
  ghost predicate MemberDone(data: seq<Byte>, out: seq<Byte>, m: Member)
    requires m.start <= m.end <= |data| && |out| == |data|
  {
    if IsElf(data, m)
    then Normalized(data[m.start..m.end]).Ok? && out[m.start..m.end] == Normalized(data[m.start..m.end]).value.data
    else out[m.start..m.end] == data[m.start..m.end]
  }

  ghost predicate InElfMember(data: seq<Byte>, members: seq<Member>, i: int) {
    exists j :: 0 <= j < |members| && IsElf(data, members[j]) && members[j].start <= i < members[j].end
  }

  /** The run so far: members below `k` are done, all else is as in the original. */
  ghost predicate Progress(data: seq<Byte>, pass: Pass, members: seq<Member>, k: nat, total: Counts)
    requires Ordered(members, |data|)
  {
    && |pass.data| == |data|
    && (forall j :: 0 <= j < k && j < |members| ==> MemberDone(data, pass.data, members[j]))
    && (forall i :: 0 <= i < |data| && !InElfMember(data, members[..if k < |members| then k else |members|], i) ==>
         pass.data[i] == data[i])
    && pass.counts.Sum(CountsFrom(data, members, k)) == total
  }

  lemma ProgressStep(data: seq<Byte>, pass: Pass, members: seq<Member>, k: nat, total: Counts, run: Pass)
    requires Ordered(members, |data|) && k < |members| && Progress(data, pass, members, k, total)
    requires IsElf(pass.data, members[k]) && Normalized(pass.data[members[k].start..members[k].end]) == Ok(run)
    ensures |run.data| == members[k].end - members[k].start
    ensures Progress(data, Pass(Splice(pass.data, members[k], run.data), pass.counts.Sum(run.counts)), members, k + 1,
                     total)
  {
    hide Normalized;
    var m := members[k];
    LengthKept(pass.data[m.start..m.end]);
    Untouched(data, pass, members, k, total);
    var next := Splice(pass.data, m, run.data);
    forall j | 0 <= j < k + 1
      ensures MemberDone(data, next, members[j])
    {
      if j < k {
        assert next[members[j].start..members[j].end] == pass.data[members[j].start..members[j].end];
      } else {
        assert next[m.start..m.end] == run.data;
      }
    }
    forall i | 0 <= i < |data| && !InElfMember(data, members[..k + 1], i)
      ensures next[i] == data[i]
    {
      assert members[..k + 1][k] == m;
      assert !InElfMember(data, members[..k], i) by {
        assert forall j :: 0 <= j < k ==> members[..k + 1][j] == members[..k][j];
      }
    }
  }

  lemma ProgressLength(data: seq<Byte>, pass: Pass, members: seq<Member>, k: nat, total: Counts)
    requires Ordered(members, |data|) && Progress(data, pass, members, k, total)
    ensures |pass.data| == |data|
  {
  }

  /** A member that is no object is passed over. */
  lemma ProgressPast(data: seq<Byte>, pass: Pass, members: seq<Member>, k: nat, total: Counts)
    requires Ordered(members, |data|) && k < |members| && Progress(data, pass, members, k, total)
    requires !IsElf(pass.data, members[k])
    ensures Progress(data, pass, members, k + 1, total)
  {
    Untouched(data, pass, members, k, total);
    CountsPast(data, members, k);
    assert InFile(members, |data|) && |pass.data| == |data|;
    hide Normalized, IsElf, CountsFrom, InElfMember, MemberDone, Ordered;
    DonePast(data, pass.data, members[k]);
    hide InFile;
    forall i | 0 <= i < |data| && !InElfMember(data, members[..k + 1], i)
      ensures pass.data[i] == data[i]
    {
      OneFewer(data, members, k, i);
    }
  }

  lemma OneFewer(data: seq<Byte>, members: seq<Member>, k: nat, i: int)
    requires k < |members| && !InElfMember(data, members[..k + 1], i)
    ensures !InElfMember(data, members[..k], i)
  {
    hide IsElf;
    assert forall j :: 0 <= j < k ==> members[..k + 1][j] == members[..k][j];
  }

  lemma CountsPast(data: seq<Byte>, members: seq<Member>, k: nat)
    requires InFile(members, |data|) && k < |members| && !IsElf(data, members[k])
    ensures CountsFrom(data, members, k) == CountsFrom(data, members, k + 1)
  {
    hide Normalized, IsElf;
  }

  lemma DonePast(data: seq<Byte>, now: seq<Byte>, m: Member)
    requires m.start <= m.end <= |data| && |now| == |data| && !IsElf(data, m)
    requires now[m.start..m.end] == data[m.start..m.end]
    ensures MemberDone(data, now, m)
  {
    hide Normalized, IsElf;
  }

  /** Member `k` still holds its original bytes when it is reached. */
  lemma Untouched(data: seq<Byte>, pass: Pass, members: seq<Member>, k: nat, total: Counts)
    requires Ordered(members, |data|) && k < |members| && Progress(data, pass, members, k, total)
    ensures pass.data[members[k].start..members[k].end] == data[members[k].start..members[k].end]
    ensures IsElf(pass.data, members[k]) == IsElf(data, members[k])
  {
    hide Normalized, MemberDone, CountsFrom;
    var m := members[k];
    forall i | m.start <= i < m.end
      ensures pass.data[i] == data[i]
    {
      assert !InElfMember(data, members[..k], i);
    }
    assert pass.data[m.start..m.end] == data[m.start..m.end];
    if m.start + 4 <= m.end {
      assert pass.data[m.start..m.start + 4] == data[m.start..m.start + 4];
    }
  }

  lemma {:induction false} RunProgress(data: seq<Byte>, pass: Pass, members: seq<Member>, k: nat, total: Counts,
                                       out: Pass)
    requires Ordered(members, |data|) && k <= |members| && Progress(data, pass, members, k, total)
    requires ArchiveRun(pass, members, k) == Ok(out)
    ensures Progress(data, out, members, |members|, total)
    decreases |members| - k
  {
    hide Normalized, Progress, MemberDone, CountsFrom;
    if k < |members| {
      assert |pass.data| == |data| by { ProgressLength(data, pass, members, k, total); }
      var m := members[k];
      Untouched(data, pass, members, k, total);
      if IsElf(pass.data, m) {
        var run := Normalized(pass.data[m.start..m.end]).value;
        ProgressStep(data, pass, members, k, total, run);
        RunProgress(data, Pass(Splice(pass.data, m, run.data), pass.counts.Sum(run.counts)), members, k + 1, total,
                    out);
      } else {
        ProgressPast(data, pass, members, k, total);
        RunProgress(data, pass, members, k + 1, total, out);
      }
    }
  }

  /** Each ELF member is normalized exactly as it would be on its own; every other byte of the archive
      is untouched; the totals are the sums of the members' counts. */
  lemma ArchiveByMember(data: seq<Byte>, out: Pass)
    requires NormalizedArchive(data) == Ok(out)
    ensures var members := MembersOf(data).value;
            && Ordered(members, |data|) && |out.data| == |data|
            && (forall j :: 0 <= j < |members| ==> MemberDone(data, out.data, members[j]))
            && (forall j :: 0 <= j < |members| ==> (IsElf(data, members[j]) <==> StartsElf(data, members[j])))
            && (forall i :: 0 <= i < |data| && !InElfMember(data, members, i) ==> out.data[i] == data[i])
            && out.counts == CountsFrom(data, members, 0)
  {
    hide MembersOf, Normalized, MemberDone, CountsFrom, ArchiveRun, IsElf, StartsElf;
    var members := MembersOf(data).value;
    forall j | 0 <= j < |members|
      ensures IsElf(data, members[j]) <==> StartsElf(data, members[j])
    {
      ElfStarts(data, members[j]);
    }
    MembersInFile(data);
    forall j, k | 0 <= j < k < |members|
      ensures members[j].end <= members[k].start
    {
      MembersOrdered(data, j, k);
    }
    RunProgress(data, Pass(data, NO_COUNTS), members, 0, CountsFrom(data, members, 0), out);
    assert members[..|members|] == members;
    NothingAfter(data, members);
  }

  lemma NothingAfter(data: seq<Byte>, members: seq<Member>)
    requires InFile(members, |data|)
    ensures CountsFrom(data, members, |members|) == NO_COUNTS
  {
  }
}
