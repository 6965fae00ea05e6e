/** The promises of `normalize_object`: exact frame and counts, normal form, idempotence. */
module NormalizerTheorems {
  import opened Bytes
  import opened ElfObject
  import opened Normalizer
  import opened NormalizerFacts
  import Branchi

  function SectionsIn(data: seq<Byte>): seq<Section> {
    if SectionsOf(data).Ok? then SectionsOf(data).value else []
  }

  function SlotsIn(data: seq<Byte>): seq<Slot> { Slots(SectionsIn(data)) }

  /** The target sections that hold a BRANCHI, as the first pass collects them. */
  function BranchiIn(data: seq<Byte>): set<int> {
    var found := ScanTables(data, SectionsIn(data), 0, {});
    if found.Ok? then found.value else {}
  }

  function EntryOf(data: seq<Byte>, s: Slot): Entry {
    if ReadEntry(data, s.pos).Ok? then ReadEntry(data, s.pos).value else Entry(0, 0, 0)
  }

  function TypeOf(data: seq<Byte>, s: Slot): int { EntryOf(data, s).Type() }

  /** Section whose bytes the entry relocates. */
  function TargetOf(data: seq<Byte>, s: Slot): int {
    if IsSlot(SectionsIn(data), s) then SectionsIn(data)[s.table].header.info else -1
  }

  function ChangeIn(data: seq<Byte>, s: Slot): Change {
    ChangeOf(data, SectionsIn(data), BranchiIn(data), s)
  }

  /** The entry the rewritten object holds in place of `entry`. */
  function NewEntry(entry: Entry, dropRelax: bool): Entry {
    if entry.Type() == R_LLUI48 && entry.offset + 2 <= U32_MAX then
      Entry(entry.offset + 2, entry.Retyped(R_32), entry.addend)
    else if entry.Type() == R_BRANCHI || entry.Type() == R_LLUI_REP || (entry.Type() == R_RELAX && dropRelax) then
      entry.(info := entry.Retyped(R_NONE))
    else entry
  }

  /** What every theorem assumes: disjoint tables and sites, and a successful run. */
  ghost predicate Succeeds(data: seq<Byte>, out: Pass) {
    WellFormed(data) && Normalized(data) == Ok(out)
  }

  lemma Closed(data: seq<Byte>, out: Pass)
    requires Succeeds(data, out)
    ensures var sections := SectionsIn(data);
            && SectionsOf(data) == Ok(sections) && |out.data| == |data|
            && Reached(data, sections, BranchiIn(data), SlotsIn(data), out)
            && forall t :: 0 <= t < |sections| && sections[t].IsRela() ==>
                 OpenTable(data, sections, sections[t].header).Ok?
  {
    hide SymbolsOf, SectionsOf;
    var sections := SectionsIn(data);
    var branchi := BranchiIn(data);
    assert Union([], EditsOf(data, sections, branchi)) == map[];
    assert After(data, sections, branchi, []) == data;
    TablesClosed(data, sections, branchi, 0, Pass(data, NO_COUNTS), out);
  }

  lemma SlotsChange(data: seq<Byte>, out: Pass, a: nat)
    requires Succeeds(data, out) && a < |SlotsIn(data)|
    ensures Changes(data, SectionsIn(data), BranchiIn(data), SlotsIn(data)[a]) && |out.data| == |data|
  {
    hide WellFormed, SectionsOf, Normalized, Changes;
    Closed(data, out);
  }

  /** Inside one entry's footprint the output is that entry's own change. */
  lemma OutputInside(data: seq<Byte>, out: Pass, a: nat, i: int)
    requires Succeeds(data, out) && a < |SlotsIn(data)|
    requires 0 <= i < |data| && InFoot(data, SectionsIn(data), SlotsIn(data)[a], i)
    ensures |out.data| == |data|
    ensures out.data[i] == Over(data, ChangeIn(data, SlotsIn(data)[a]).edits)[i]
  {
    hide WellFormed, Normalized, InFoot, ChangeOf, Changes;
    var sections := SectionsIn(data);
    Closed(data, out);
    EditsSeparate(data, BranchiIn(data));
    UnionInside(SlotsIn(data), EditsOf(data, sections, BranchiIn(data)), FootOf(data, sections), a, i);
  }

  /** Outside all footprints nothing changes. */
  lemma OutputOutside(data: seq<Byte>, out: Pass, i: int)
    requires Succeeds(data, out) && 0 <= i < |data|
    requires forall a :: 0 <= a < |SlotsIn(data)| ==> !InFoot(data, SectionsIn(data), SlotsIn(data)[a], i)
    ensures |out.data| == |data| && out.data[i] == data[i]
  {
    hide WellFormed, Normalized, InFoot, ChangeOf, Changes;
    Closed(data, out);
    AfterOutside(data, SectionsIn(data), BranchiIn(data), SlotsIn(data), i);
  }

  /** The words of an entry after a store that covers its info word, and perhaps its offset word. */
  lemma EntryStored(data: seq<Byte>, edits: Edits, pos: nat, rewritten: Entry)
    requires ReadEntry(data, pos).Ok? && rewritten.addend == ReadEntry(data, pos).value.addend
    requires forall i :: pos + 8 <= i < pos + 12 ==> i !in edits
    requires forall i :: pos + 4 <= i < pos + 8 ==> i in edits && edits[i] == WordAt(pos + 4, rewritten.info)[i]
    requires || (rewritten.offset == ReadEntry(data, pos).value.offset && forall i :: pos <= i < pos + 4 ==>
               i !in edits)
             || (forall i :: pos <= i < pos + 4 ==> i in edits && edits[i] == WordAt(pos, rewritten.offset)[i])
    ensures ReadEntry(Over(data, edits), pos) == Ok(rewritten)
  {
    hide ReadU32;
    EntryInRange(data, pos);
    if pos !in edits {
      KeptWord(data, edits, pos);
    } else {
      StoredWord(data, edits, pos, rewritten.offset);
    }
    StoredWord(data, edits, pos + 4, rewritten.info);
    KeptWord(data, edits, pos + 8);
    var now := Over(data, edits);
    assert ReadU32(now, pos) == Ok(rewritten.offset);
    assert ReadU32(now, pos + 4) == Ok(rewritten.info);
    assert ReadI32(now, pos + 8) == Ok(rewritten.addend);
  }

  lemma ChangeReads(data: seq<Byte>, table: Table, branchi: set<int>, pos: nat)
    requires EntryChange(data, table, branchi, pos).Ok?
    ensures ReadEntry(data, pos).Ok?
  {
  }

  /** A change rewrites its own entry to `NewEntry`, whatever else it stores. */
  lemma ChangeEntry(data: seq<Byte>, table: Table, branchi: set<int>, pos: nat)
    requires EntryChange(data, table, branchi, pos).Ok?
    requires var entry := ReadEntry(data, pos).value;
             var site := table.target.offset + entry.offset;
             entry.Type() == R_BRANCHI ==> pos + 12 <= site || site + 4 <= pos
    ensures ReadEntry(data, pos).Ok?
    ensures ReadEntry(Over(data, EntryChange(data, table, branchi, pos).value.edits), pos)
         == Ok(NewEntry(ReadEntry(data, pos).value, table.rela.info in branchi))
  {
    hide Branchi.Encode, ReadEntry, ReadU32, WordAt, Over;
    var entry := ReadEntry(data, pos).value;
    var edits := EntryChange(data, table, branchi, pos).value.edits;
    var rewritten := NewEntry(entry, table.rela.info in branchi);
    if EntryChange(data, table, branchi, pos).value.kind == Kept {
      OverNothing(data);
    } else {
      EntryStored(data, edits, pos, rewritten);
    }
  }

  /** An entry and the word it relocates are apart. */
  lemma SiteApart(data: seq<Byte>, a: nat)
    requires WellFormed(data) && a < |SlotsIn(data)| && SiteOf(data, SectionsIn(data), SlotsIn(data)[a]).Some?
    ensures var s := SlotsIn(data)[a]; var site := SiteOf(data, SectionsIn(data), s).value;
            s.pos + 12 <= site || site + 4 <= s.pos
  {
    var s := SlotsIn(data)[a];
    var site := SiteOf(data, SectionsIn(data), s).value;
    var i := if s.pos < site then site else s.pos;
    if s.pos + 12 > site && site + 4 > s.pos {
      assert InEntry(s, i) && InSite(data, SectionsIn(data), s, i);
    }
  }

  /** Every entry of the output is `NewEntry` of the input's. */
  lemma EntryAfter(data: seq<Byte>, out: Pass, a: nat)
    requires Succeeds(data, out) && a < |SlotsIn(data)|
    ensures var s := SlotsIn(data)[a];
            && ReadEntry(data, s.pos).Ok?
            && ReadEntry(out.data, s.pos) == Ok(NewEntry(EntryOf(data, s), TargetOf(data, s) in BranchiIn(data)))
  {
    hide WellFormed, Normalized, EntryChange, Over, SectionsIn, SlotsIn, BranchiIn, OpenTable, ReadEntry, NewEntry;
    var s := SlotsIn(data)[a];
    SlotsChange(data, out, a);
    var table := TableOf(data, SectionsIn(data), s).value;
    ChangeReads(data, table, BranchiIn(data), s.pos);
    if EntryOf(data, s).Type() == R_BRANCHI {
      SiteApart(data, a);
    }
    ChangeEntry(data, table, BranchiIn(data), s.pos);
    EntryInRange(data, s.pos);
    var own := Over(data, ChangeIn(data, s).edits);
    forall i | s.pos <= i < s.pos + 12
      ensures out.data[i] == own[i] && |out.data| == |data|
    {
      assert InEntry(s, i);
      OutputInside(data, out, a, i);
    }
    EntryLocal(own, out.data, s.pos);
  }

  /** The displacement of a branch: its section's base does not enter. */
  function BranchOffset(table: Table, entry: Entry): int {
    if entry.SymbolIndex() < |table.symbols|
    then table.symbols[entry.SymbolIndex()].value + entry.addend - entry.offset
    else 0
  }

  /** `now` holds, at the entry's site, the word of `data` with the branch displacement encoded. */
  ghost predicate BranchEncoded(data: seq<Byte>, now: seq<Byte>, table: Table, entry: Entry) {
    var site := table.target.offset + entry.offset;
    && ReadU32(data, site).Ok? && ReadU32(now, site).Ok?
    && Branchi.Encode(ReadU32(data, site).value, BranchOffset(table, entry)) == Some(ReadU32(now, site).value)
  }

  lemma BranchChange(data: seq<Byte>, table: Table, branchi: set<int>, pos: nat)
    requires EntryChange(data, table, branchi, pos).Ok? && ReadEntry(data, pos).value.Type() == R_BRANCHI
    requires var entry := ReadEntry(data, pos).value;
             var site := table.target.offset + entry.offset;
             pos + 12 <= site || site + 4 <= pos
    ensures var entry := ReadEntry(data, pos).value;
            && entry.SymbolIndex() < |table.symbols|
            && table.symbols[entry.SymbolIndex()].sectionIndex == table.rela.info
            && BranchEncoded(data, Over(data, EntryChange(data, table, branchi, pos).value.edits), table, entry)
  {
    hide Branchi.Encode, ReadEntry, ReadU32, Over, WordAt;
    var entry := ReadEntry(data, pos).value;
    var site := table.target.offset + entry.offset;
    var encoded := Branchi.Encode(ReadU32(data, site).value, BranchOffset(table, entry)).value;
    ReadInRange(data, site);
    StoredWord(data, EntryChange(data, table, branchi, pos).value.edits, site, encoded);
  }

  /** A branch instruction of the output carries its displacement; its symbol is in its own section. */
  lemma BranchAfter(data: seq<Byte>, out: Pass, a: nat)
    requires Succeeds(data, out) && a < |SlotsIn(data)| && TypeOf(data, SlotsIn(data)[a]) == R_BRANCHI
    ensures var s := SlotsIn(data)[a]; var entry := EntryOf(data, s);
            && IsSlot(SectionsIn(data), s) && TableOf(data, SectionsIn(data), s).Ok?
            && var table := TableOf(data, SectionsIn(data), s).value;
            && entry.SymbolIndex() < |table.symbols|
            && table.symbols[entry.SymbolIndex()].sectionIndex == table.rela.info
            && BranchEncoded(data, out.data, table, entry)
  {
    hide WellFormed, Normalized, EntryChange, Over, SectionsIn, SlotsIn, BranchiIn, SymbolsOf, ReadEntry, ReadU32,
         Branchi.Encode;
    var s := SlotsIn(data)[a];
    SlotsChange(data, out, a);
    SiteApart(data, a);
    var table := TableOf(data, SectionsIn(data), s).value;
    var site := table.target.offset + EntryOf(data, s).offset;
    BranchChange(data, table, BranchiIn(data), s.pos);
    ReadInRange(data, site);
    var own := Over(data, ChangeIn(data, s).edits);
    forall i | site <= i < site + 4
      ensures out.data[i] == own[i] && |out.data| == |data|
    {
      assert InSite(data, SectionsIn(data), s, i);
      OutputInside(data, out, a, i);
    }
    WordLocal(own, out.data, site);
  }

  // ----- counting -----

  function KindOfType(relocation: int, dropRelax: bool): Kind {
    if relocation == R_LLUI48 then Llui48
    else if relocation == R_BRANCHI then Branch
    else if relocation == R_LLUI_REP then Rep
    else if relocation == R_RELAX && dropRelax then Relax
    else Kept
  }

  lemma ChangeKind(data: seq<Byte>, table: Table, branchi: set<int>, pos: nat)
    requires EntryChange(data, table, branchi, pos).Ok?
    ensures var relocation := ReadEntry(data, pos).value.Type();
            && relocation != R_UNDECLARED
            && EntryChange(data, table, branchi, pos).value.kind == KindOfType(relocation, table.rela.info in branchi)
            && (relocation == R_LLUI48 ==> ReadEntry(data, pos).value.offset + 6 <= U32_MAX)
  {
    hide ReadEntry, ReadU32, Branchi.Encode, WordAt;
  }

  /** How many of `slots` satisfy `keep`. */
  function CountIf(slots: seq<Slot>, keep: Slot -> bool): nat {
    if slots == [] then 0
    else CountIf(slots[..|slots| - 1], keep) + if keep(slots[|slots| - 1]) then 1 else 0
  }

  function OfKind(data: seq<Byte>, kind: Kind): Slot -> bool {
    s => KindOfType(TypeOf(data, s), TargetOf(data, s) in BranchiIn(data)) == kind
  }

  function CountsOf(data: seq<Byte>, slots: seq<Slot>): Counts {
    Counts(CountIf(slots, OfKind(data, Llui48)), CountIf(slots, OfKind(data, Branch)),
           CountIf(slots, OfKind(data, Relax)), CountIf(slots, OfKind(data, Rep)))
  }

  lemma {:induction false} TallyCounts(data: seq<Byte>, slots: seq<Slot>)
    requires forall a :: 0 <= a < |slots| ==> Changes(data, SectionsIn(data), BranchiIn(data), slots[a])
    ensures Tally(data, SectionsIn(data), BranchiIn(data), slots) == CountsOf(data, slots)
  {
    hide EntryChange, ReadEntry, SectionsIn, SymbolsOf, BranchiIn;
    if slots != [] {
      var front, s := slots[..|slots| - 1], slots[|slots| - 1];
      TallyCounts(data, front);
      ChangeReads(data, TableOf(data, SectionsIn(data), s).value, BranchiIn(data), s.pos);
      ChangeKind(data, TableOf(data, SectionsIn(data), s).value, BranchiIn(data), s.pos);
    }
  }

  /** Each count is the number of entries converted in that way. */
  lemma CountsExact(data: seq<Byte>, out: Pass)
    requires Succeeds(data, out)
    ensures out.counts == CountsOf(data, SlotsIn(data))
  {
    hide WellFormed, Normalized, SectionsIn, BranchiIn, CountsOf, Tally, Changes;
    Closed(data, out);
    TallyCounts(data, SlotsIn(data));
  }

  // ----- the exact frame -----

  /** The bytes a conversion of entry `s` may change: the offset word of a 48-bit load, the type byte of
      a converted entry, the instruction word of a branch. */
  predicate Licensed(data: seq<Byte>, s: Slot, i: int) {
    || (TypeOf(data, s) == R_LLUI48 && InSpan(i, s.pos, 4))
    || (KindOfType(TypeOf(data, s), TargetOf(data, s) in BranchiIn(data)) != Kept && i == s.pos + 4)
    || (TypeOf(data, s) == R_BRANCHI && InSite(data, SectionsIn(data), s, i))
  }

  lemma RetypedBytes(data: seq<Byte>, pos: nat, newType: Byte, i: int)
    requires ReadEntry(data, pos).Ok? && pos + 4 < i < pos + 8
    ensures WordAt(pos + 4, ReadEntry(data, pos).value.Retyped(newType))[i] == data[i]
  {
    EntryInRange(data, pos);
    var b0, b1, b2, b3 := data[pos + 4], data[pos + 5], data[pos + 6], data[pos + 7];
    WordBytes(b0, b1, b2, b3);
    WordBytes(newType, b1, b2, b3);
    assert ReadEntry(data, pos).value.Retyped(newType) == Word(newType, b1, b2, b3);
  }

  lemma ChangeLicensed(data: seq<Byte>, table: Table, branchi: set<int>, pos: nat, i: int)
    requires EntryChange(data, table, branchi, pos).Ok? && ReadEntry(data, pos).Ok? && 0 <= i < |data|
    requires Over(data, EntryChange(data, table, branchi, pos).value.edits)[i] != data[i]
    ensures var entry := ReadEntry(data, pos).value;
            || (entry.Type() == R_LLUI48 && InSpan(i, pos, 4))
            || (KindOfType(entry.Type(), table.rela.info in branchi) != Kept && i == pos + 4)
            || (entry.Type() == R_BRANCHI && InSpan(i, table.target.offset + entry.offset, 4))
  {
    hide ReadEntry, ReadU32, Branchi.Encode, WordAt;
    if pos + 4 < i < pos + 8 {
      RetypedBytes(data, pos, R_32, i);
      RetypedBytes(data, pos, R_NONE, i);
    }
  }

  /** Only licensed bytes change, and the length stays. */
  lemma Frame(data: seq<Byte>, out: Pass, i: int)
    requires Succeeds(data, out) && 0 <= i < |data|
    ensures |out.data| == |data|
    ensures out.data[i] != data[i] ==> exists a :: 0 <= a < |SlotsIn(data)| && Licensed(data, SlotsIn(data)[a], i)
  {
    hide WellFormed, Normalized, SectionsIn, BranchiIn, EntryChange, Over, ReadEntry, SymbolsOf, KindOfType, Slots;
    Closed(data, out);
    if out.data[i] != data[i] {
      if forall a :: 0 <= a < |SlotsIn(data)| ==> !InFoot(data, SectionsIn(data), SlotsIn(data)[a], i) {
        OutputOutside(data, out, i);
      } else {
        var a :| 0 <= a < |SlotsIn(data)| && InFoot(data, SectionsIn(data), SlotsIn(data)[a], i);
        var s := SlotsIn(data)[a];
        OutputInside(data, out, a, i);
        SlotsChange(data, out, a);
        var table := TableOf(data, SectionsIn(data), s).value;
        ChangeReads(data, table, BranchiIn(data), s.pos);
        ChangeLicensed(data, table, BranchiIn(data), s.pos, i);
        assert Licensed(data, s, i);
      }
    }
  }

  /** Of a branch instruction only the nine immediate bits change. */
  lemma BranchKeepsOtherBits(data: seq<Byte>, out: Pass, a: nat)
    requires Succeeds(data, out) && a < |SlotsIn(data)| && TypeOf(data, SlotsIn(data)[a]) == R_BRANCHI
    ensures var site := SiteOf(data, SectionsIn(data), SlotsIn(data)[a]);
            && site.Some? && ReadU32(data, site.value).Ok? && ReadU32(out.data, site.value).Ok?
            && Branchi.WithoutImmediate(ReadU32(out.data, site.value).value) ==
                 Branchi.WithoutImmediate(ReadU32(data, site.value).value)
  {
    hide WellFormed, Normalized, SectionsIn, SlotsIn, BranchiIn, ReadEntry, ReadU32, Branchi.Encode,
         Branchi.WithoutImmediate, SymbolsOf;
    BranchAfter(data, out, a);
    var s := SlotsIn(data)[a];
    var table := TableOf(data, SectionsIn(data), s).value;
    var site := table.target.offset + EntryOf(data, s).offset;
    EntryAfter(data, out, a);
    Branchi.DecodeEncode(ReadU32(data, site).value, BranchOffset(table, EntryOf(data, s)));
  }

  // ----- normal form -----

  /** Some entry of `slots` is a BRANCHI into `section`. */
  ghost predicate BranchesInto(data: seq<Byte>, sections: seq<Section>, slots: seq<Slot>, section: int) {
    exists a :: 0 <= a < |slots| && IsBranchInto(data, sections, slots[a], section)
  }

  predicate IsBranchInto(data: seq<Byte>, sections: seq<Section>, s: Slot, section: int) {
    IsSlot(sections, s) && TypeOf(data, s) == R_BRANCHI && sections[s.table].header.info == section
  }

  ghost predicate Found(data: seq<Byte>, sections: seq<Section>, done: seq<Slot>, found: set<int>) {
    forall x :: x in found <==> BranchesInto(data, sections, done, x)
  }

  ghost predicate AllReadable(data: seq<Byte>, slots: seq<Slot>) {
    forall a :: 0 <= a < |slots| ==> ReadEntry(data, slots[a].pos).Ok?
  }

  lemma FoundSnoc(data: seq<Byte>, sections: seq<Section>, done: seq<Slot>, s: Slot, found: set<int>)
    requires Found(data, sections, done, found) && IsSlot(sections, s) && ReadEntry(data, s.pos).Ok?
    ensures var info := ReadU32(data, s.pos + 4);
            info.Ok? && Found(data, sections, done + [s],
                              if info.value % 0x100 == R_BRANCHI then found + {sections[s.table].header.info}
                              else found)
  {
    var more := done + [s];
    forall x
      ensures BranchesInto(data, sections, more, x) <==>
                BranchesInto(data, sections, done, x) || IsBranchInto(data, sections, s, x)
    {
      if BranchesInto(data, sections, done, x) {
        var a :| 0 <= a < |done| && IsBranchInto(data, sections, done[a], x);
        assert more[a] == done[a];
      }
      assert more[|done|] == s;
    }
  }

  lemma {:induction false} ScanEntriesFinds(data: seq<Byte>, sections: seq<Section>, t: nat, k: nat, found: set<int>)
    requires t < |sections| && sections[t].IsRela() && k <= CountOf(sections[t].header)
    requires AllReadable(data, Slots(sections)) && Found(data, sections, Done(sections, t, k), found)
    ensures var n := CountOf(sections[t].header); var r := ScanEntries(data, sections[t].header, k, n, found);
            r.Ok? && Found(data, sections, Done(sections, t, n), r.value)
    decreases CountOf(sections[t].header) - k
  {
    hide Found, ReadEntry, ReadU32;
    var rela := sections[t].header;
    if k < CountOf(rela) {
      var s := Slot(t, EntryAt(rela.offset, EntrySizeOf(rela), k));
      var done := Done(sections, t, k);
      assert Done(sections, t, k + 1) == done + [s];
      DonePrefix(sections, t, k + 1);
      assert Slots(sections)[|done|] == s;
      FoundSnoc(data, sections, done, s, found);
      var info := ReadU32(data, s.pos + 4).value;
      ScanEntriesFinds(data, sections, t, k + 1, if info % 0x100 == R_BRANCHI then found + {rela.info} else found);
    }
  }

  lemma {:induction false} ScanTablesFinds(data: seq<Byte>, sections: seq<Section>, t: nat, found: set<int>)
    requires t <= |sections| && AllReadable(data, Slots(sections))
             && Found(data, sections, SlotsBefore(sections, t), found)
    requires forall u :: t <= u < |sections| && sections[u].IsRela() ==> EntryCountOf(sections[u].header).Ok?
    ensures var r := ScanTables(data, sections, t, found); r.Ok? && Found(data, sections, Slots(sections), r.value)
    decreases |sections| - t
  {
    hide Found, ReadEntry, ReadU32;
    if t < |sections| {
      if !sections[t].IsRela() {
        ScanTablesFinds(data, sections, t + 1, found);
      } else {
        var rela := sections[t].header;
        assert Done(sections, t, 0) == SlotsBefore(sections, t);
        ScanEntriesFinds(data, sections, t, 0, found);
        assert Done(sections, t, CountOf(rela)) == SlotsBefore(sections, t + 1);
        ScanTablesFinds(data, sections, t + 1, ScanEntries(data, rela, 0, CountOf(rela), found).value);
      }
    }
  }

  lemma SlotsReadable(data: seq<Byte>, out: Pass)
    requires Succeeds(data, out)
    ensures AllReadable(data, SlotsIn(data)) && AllReadable(out.data, SlotsIn(data))
  {
    hide WellFormed, Normalized, SectionsIn, SlotsIn, BranchiIn, ReadEntry;
    forall a | 0 <= a < |SlotsIn(data)|
      ensures ReadEntry(data, SlotsIn(data)[a].pos).Ok? && ReadEntry(out.data, SlotsIn(data)[a].pos).Ok?
    {
      EntryAfter(data, out, a);
    }
  }

  /** The first pass finds exactly the sections that some BRANCHI of some RELA table relocates. */
  lemma BranchiExact(data: seq<Byte>, out: Pass, section: int)
    requires Succeeds(data, out)
    ensures section in BranchiIn(data) <==> BranchesInto(data, SectionsIn(data), SlotsIn(data), section)
  {
    hide WellFormed, Normalized, SectionsIn, ReadEntry, ReadU32, SymbolsOf, ScanTables;
    Closed(data, out);
    SlotsReadable(data, out);
    assert Found(data, SectionsIn(data), [], {});
    ScanTablesFinds(data, SectionsIn(data), 0, {});
  }

  /** No vendor type is left in the output, RELAX markers are gone from exactly the sections that held
      a branch, and the remaining entries are as they were. */
  lemma NormalForm(data: seq<Byte>, out: Pass, a: nat)
    requires Succeeds(data, out) && a < |SlotsIn(data)|
    ensures var s := SlotsIn(data)[a]; var relocation := TypeOf(out.data, s);
            && relocation !in {R_LLUI48, R_BRANCHI, R_UNDECLARED, R_LLUI_REP}
            && (relocation == R_RELAX <==>
                 TypeOf(data, s) == R_RELAX && !BranchesInto(data, SectionsIn(data), SlotsIn(data), TargetOf(data, s)))
            && (relocation == TypeOf(data, s) ==> EntryOf(out.data, s) == EntryOf(data, s))
            && (TypeOf(data, s) !in {R_LLUI48, R_BRANCHI, R_RELAX, R_LLUI_REP} ==>
                 EntryOf(out.data, s) == EntryOf(data, s))
            && EntryOf(out.data, s).SymbolIndex() == EntryOf(data, s).SymbolIndex()
            && EntryOf(out.data, s).addend == EntryOf(data, s).addend
  {
    hide WellFormed, Normalized, SectionsIn, Slots, BranchiIn, ReadEntry, EntryChange, SymbolsOf, BranchesInto;
    var s := SlotsIn(data)[a];
    EntryAfter(data, out, a);
    BranchiExact(data, out, TargetOf(data, s));
    SlotsChange(data, out, a);
    ChangeKind(data, TableOf(data, SectionsIn(data), s).value, BranchiIn(data), s.pos);
    RetypedFields(EntryOf(data, s), R_32);
    RetypedFields(EntryOf(data, s), R_NONE);
  }

  lemma RetypedFields(entry: Entry, newType: Byte)
    ensures entry.Retyped(newType) % 0x100 == newType && entry.Retyped(newType) / 0x100 == entry.SymbolIndex()
  {
    assert entry.Retyped(newType) == newType as int + 0x100 * (entry.info / 0x100);
  }

  // ----- idempotence -----

  /** `now` differs from `data` at most in the footprints of relocation entries. */
  ghost predicate SameOutside(data: seq<Byte>, now: seq<Byte>) {
    && |now| == |data|
    && forall i :: 0 <= i < |data| && (forall a :: 0 <= a < |SlotsIn(data)| ==>
         !InFoot(data, SectionsIn(data), SlotsIn(data)[a], i))
         ==> now[i] == data[i]
  }

  /** Then headers, symbols and string tables are read the same. */
  lemma TablesKept(data: seq<Byte>, now: seq<Byte>)
    requires WellFormed(data) && SameOutside(data, now)
    ensures SectionsOf(now) == Ok(SectionsIn(data)) && SectionsIn(now) == SectionsIn(data)
    ensures forall t :: 0 <= t < |SectionsIn(data)| && SectionsIn(data)[t].IsRela() ==>
              OpenTable(now, SectionsIn(data), SectionsIn(data)[t].header) ==
                  OpenTable(data, SectionsIn(data), SectionsIn(data)[t].header)
  {
    hide SectionsOf, Slots, SymbolsOf, InHeaders, InSymbols, InFoot, EntryCountOf;
    var sections := SectionsIn(data);
    SectionsLocal(data, now);
    forall t | 0 <= t < |sections| && sections[t].IsRela()
      ensures OpenTable(now, sections, sections[t].header) == OpenTable(data, sections, sections[t].header)
    {
      SymbolsLocal(now, data, sections, sections[t].header.link);
    }
  }

  lemma NormalizedOutside(data: seq<Byte>, out: Pass)
    requires Succeeds(data, out)
    ensures SameOutside(data, out.data)
  {
    hide WellFormed, Normalized, SectionsIn, SlotsIn, BranchiIn, InFoot;
    Closed(data, out);
    forall i | 0 <= i < |data| && forall a :: 0 <= a < |SlotsIn(data)| ==>
        !InFoot(data, SectionsIn(data), SlotsIn(data)[a], i)
      ensures out.data[i] == data[i]
    {
      OutputOutside(data, out, i);
    }
  }

  /** No entry is of a type the rewriting pass acts on when no section holds a branch. */
  ghost predicate Settled(data: seq<Byte>, slots: seq<Slot>) {
    forall a :: 0 <= a < |slots| ==>
      ReadEntry(data, slots[a].pos).Ok? && TypeOf(data, slots[a]) !in {R_LLUI48, R_BRANCHI, R_UNDECLARED, R_LLUI_REP}
  }

  lemma {:induction false} EntriesSettled(data: seq<Byte>, sections: seq<Section>, t: nat, k: nat)
    requires t < |sections| && sections[t].IsRela() && OpenTable(data, sections, sections[t].header).Ok?
    requires k <= CountOf(sections[t].header) && Settled(data, Slots(sections))
    ensures var pass := Pass(data, NO_COUNTS);
            RunEntries(pass, OpenTable(data, sections, sections[t].header).value, {}, k) == Ok(pass)
    decreases CountOf(sections[t].header) - k
  {
    hide SymbolsOf, ReadEntry;
    var rela := sections[t].header;
    if k < CountOf(rela) {
      var s := Slot(t, EntryAt(rela.offset, EntrySizeOf(rela), k));
      assert Done(sections, t, k + 1) == Done(sections, t, k) + [s];
      DonePrefix(sections, t, k + 1);
      assert Slots(sections)[|Done(sections, t, k)|] == s;
      OverNothing(data);
      EntriesSettled(data, sections, t, k + 1);
    }
  }

  lemma {:induction false} TablesSettled(data: seq<Byte>, sections: seq<Section>, t: nat)
    requires t <= |sections| && Settled(data, Slots(sections))
    requires forall u :: t <= u < |sections| && sections[u].IsRela() ==>
               OpenTable(data, sections, sections[u].header).Ok?
    ensures var pass := Pass(data, NO_COUNTS); RunTables(pass, sections, {}, t) == Ok(pass)
    decreases |sections| - t
  {
    hide SymbolsOf, ReadEntry, EntryChange;
    if t < |sections| {
      if sections[t].IsRela() {
        EntriesSettled(data, sections, t, 0);
      }
      TablesSettled(data, sections, t + 1);
    }
  }

  /** Normalizing a normalized object succeeds, changes nothing and counts nothing. */
  lemma Idempotent(data: seq<Byte>, out: Pass)
    requires Succeeds(data, out)
    ensures Normalized(out.data) == Ok(Pass(out.data, NO_COUNTS))
  {
    hide WellFormed, SectionsOf, Slots, BranchiIn, SymbolsOf, ReadEntry, RunTables, ScanTables, OpenTable, EntryCountOf;
    var sections := SectionsIn(data);
    Closed(data, out);
    NormalizedOutside(data, out);
    TablesKept(data, out.data);
    SlotsReadable(data, out);
    forall a | 0 <= a < |SlotsIn(data)|
      ensures TypeOf(out.data, SlotsIn(data)[a]) !in {R_LLUI48, R_BRANCHI, R_UNDECLARED, R_LLUI_REP}
    {
      NormalForm(data, out, a);
    }
    assert Settled(out.data, SlotsIn(data));
    TablesSettled(out.data, sections, 0);
    assert Found(out.data, sections, [], {});
    ScanTablesFinds(out.data, sections, 0, {});
    var found := ScanTables(out.data, sections, 0, {}).value;
    forall x
      ensures x !in found
    {
      assert !BranchesInto(out.data, sections, Slots(sections), x);
    }
    assert found == {};
  }
}
