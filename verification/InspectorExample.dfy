/** Two objects that normalize, and whose inspection afterwards still fails or still finds something. */
module InspectorExample {
  import opened Bytes
  import opened ElfObject
  import opened Normalizer
  import opened NormalizerFacts
  import opened NormalizerTheorems
  import opened ExampleObject
  import opened PatchLane
  import opened Inspector

  const NOTHING := Entry(0, R_NONE, 0)

  // ----- runs over a single table -----

  /** The relocation table is the third section; no other is one. */
  lemma OneTable(rela: Header)
    requires rela.sectionType == SHT_RELA
    ensures forall t: nat :: t < 5 ==> (SectionsWith(rela)[t].IsRela() <==> t == 2)
  {
  }

  lemma ScanSkips(data: seq<Byte>, sections: seq<Section>, t: nat, found: set<int>)
    ensures t < |sections| && !sections[t].IsRela() ==>
              ScanTables(data, sections, t, found) == ScanTables(data, sections, t + 1, found)
    ensures t >= |sections| ==> ScanTables(data, sections, t, found) == Ok(found)
  {
  }

  lemma ScanOne(data: seq<Byte>, rela: Header)
    requires rela.sectionType == SHT_RELA && rela.info < 5 && EntryCountOf(rela).Ok?
    requires ScanEntries(data, rela, 0, CountOf(rela), {}) == Ok({})
    ensures ScanTables(data, SectionsWith(rela), 0, {}) == Ok({})
  {
    var sections := SectionsWith(rela);
    OneTable(rela);
    assert ScanTables(data, sections, 2, {}) == ScanTables(data, sections, 3, {}) by {
      assert sections[2].header == rela;
      hide EntryCountOf, ScanEntries;
    }
    hide ScanTables, SectionsWith;
    ScanSkips(data, sections, 0, {});
    ScanSkips(data, sections, 1, {});
    ScanSkips(data, sections, 3, {});
    ScanSkips(data, sections, 4, {});
    ScanSkips(data, sections, 5, {});
  }

  lemma RunSkips(pass: Pass, sections: seq<Section>, t: nat)
    ensures t < |sections| && !sections[t].IsRela() ==>
              RunTables(pass, sections, {}, t) == RunTables(pass, sections, {}, t + 1)
    ensures t >= |sections| ==> RunTables(pass, sections, {}, t) == Ok(pass)
  {
  }

  lemma RunOne(pass: Pass, rela: Header, table: Table)
    requires rela.sectionType == SHT_RELA && OpenTable(pass.data, SectionsWith(rela), rela) == Ok(table)
    requires RunEntries(pass, table, {}, 0) == Ok(pass)
    ensures RunTables(pass, SectionsWith(rela), {}, 0) == Ok(pass)
  {
    var sections := SectionsWith(rela);
    OneTable(rela);
    assert RunTables(pass, sections, {}, 2) == RunTables(pass, sections, {}, 3) by {
      assert sections[2].header == rela;
      hide OpenTable, RunEntries;
    }
    hide RunTables, SectionsWith;
    RunSkips(pass, sections, 0);
    RunSkips(pass, sections, 1);
    RunSkips(pass, sections, 3);
    RunSkips(pass, sections, 4);
    RunSkips(pass, sections, 5);
  }

  lemma ObjectNormalizes(rela: Header, first: Entry, second: Entry, table: Table)
    requires rela.name == 0 && rela.sectionType == SHT_RELA && rela.info < 5
    requires var data := Object(rela, first, second);
             && OpenTable(data, SectionsWith(rela), rela) == Ok(table)
             && ScanEntries(data, rela, 0, CountOf(rela), {}) == Ok({})
             && RunEntries(Pass(data, NO_COUNTS), table, {}, 0) == Ok(Pass(data, NO_COUNTS))
    ensures Normalized(Object(rela, first, second)) == Ok(Pass(Object(rela, first, second), NO_COUNTS))
  {
    hide Object, SectionsOf, ScanTables, RunTables, ScanEntries, RunEntries, SectionsWith, OpenTable;
    var data := Object(rela, first, second);
    ObjectSections(rela, first, second);
    ScanOne(data, rela);
    RunOne(Pass(data, NO_COUNTS), rela, table);
  }

  lemma ObjectOpens(rela: Header, first: Entry, second: Entry)
    requires rela.link == 0 && rela.info == 1 && EntryCountOf(rela).Ok?
    ensures OpenTable(Object(rela, first, second), SectionsWith(rela), rela) ==
            Ok(Table(rela, CODE, [SYMBOL], CountOf(rela)))
  {
    hide Object, SymbolsOf, EntryCountOf;
    ObjectSymbols(rela, first, second);
    assert SectionsWith(rela)[1].header == CODE && |SectionsWith(rela)| == 5;
  }

  lemma ObjectSlots(rela: Header)
    requires rela.sectionType == SHT_RELA
    ensures Slots(SectionsWith(rela)) == TableSlots(rela, 2, CountOf(rela))
  {
    var sections := SectionsWith(rela);
    OneTable(rela);
    assert sections[2].header == rela;
    hide CountOf, TableSlots, SectionsWith;
    assert SlotsBefore(sections, 0) == [];
    assert SlotsBefore(sections, 1) == [];
    assert SlotsBefore(sections, 2) == [];
    assert SlotsBefore(sections, 3) == [] + TableSlots(rela, 2, CountOf(rela));
    assert SlotsBefore(sections, 4) == SlotsBefore(sections, 3);
    assert SlotsBefore(sections, 5) == SlotsBefore(sections, 4);
  }

  // ----- a table past the end of the file -----

  /** An empty relocation table, 1000 bytes into a file of 312. */
  const FAR := Header(0, SHT_RELA, 0, 0, 1000, 0, 0, 1, 12)

  ghost function FarTable(): (data: seq<Byte>)
    ensures |data| == 312
  {
    Object(FAR, NOTHING, NOTHING)
  }

  lemma FarSucceeds()
    ensures SectionsIn(FarTable()) == SectionsWith(FAR)
    ensures Succeeds(FarTable(), Pass(FarTable(), NO_COUNTS))
  {
    hide Object, SectionsOf, OpenTable, SectionsWith, Slots, TableSlots, ShapeOf;
    assert EntryCountOf(FAR) == Ok(0) && TableSlots(FAR, 2, 0) == [] by { NoneIn(FAR); }
    hide EntryCountOf;
    ObjectSections(FAR, NOTHING, NOTHING);
    ObjectOpens(FAR, NOTHING, NOTHING);
    ObjectSlots(FAR);
    hide Normalized;
    ObjectNormalizes(FAR, NOTHING, NOTHING, Table(FAR, CODE, [SYMBOL], 0));
  }

  lemma NoneIn(rela: Header)
    ensures TableSlots(rela, 2, 0) == []
  {
  }

  /** The object is well formed and normalizes, to itself, and its inspection fails. */
  lemma FarTableExample()
    ensures Succeeds(FarTable(), Pass(FarTable(), NO_COUNTS)) && Inspected(FarTable()) == Err(RangeExceeded)
  {
    hide WellFormed, Normalized, FarTable, SectionsOf, SymbolsOf, RecordsFrom;
    FarSucceeds();
    Closed(FarTable(), Pass(FarTable(), NO_COUNTS));
    FarInspected();
  }

  lemma InspectSkips(data: seq<Byte>, sections: seq<Section>, t: nat)
    ensures t < |sections| && !sections[t].IsRela() ==>
              InspectFrom(data, sections, t) == InspectFrom(data, sections, t + 1)
    ensures t >= |sections| ==> InspectFrom(data, sections, t) == Ok([])
  {
  }

  lemma FarInspected()
    ensures InspectFrom(FarTable(), SectionsWith(FAR), 0) == Err(RangeExceeded)
  {
    var data, sections := FarTable(), SectionsWith(FAR);
    OneTable(FAR);
    assert sections[2] == Section([], FAR) && |sections| == 5;
    hide Object, SectionsWith, SymbolsOf, OpenTable, RecordsFrom;
    assert EntryCountOf(FAR) == Ok(0);
    ObjectOpens(FAR, NOTHING, NOTHING);
    assert TableRecords(data, sections, sections[2]) == Err(RangeExceeded);
    hide TableRecords;
    assert InspectFrom(data, sections, 2) == Err(RangeExceeded);
    InspectSkips(data, sections, 0);
    InspectSkips(data, sections, 1);
  }

  // ----- a type the normalizer does not know -----

  const ONE := Header(0, SHT_RELA, 0, 0, 284, 12, 0, 1, 12)
  const UNKNOWN := Entry(0, 62, 0)
  const ONE_TABLE := Table(ONE, CODE, [SYMBOL], 1)

  ghost function UnknownType(): (data: seq<Byte>)
    ensures |data| == 312
  {
    Object(ONE, UNKNOWN, NOTHING)
  }

  lemma UnknownRead()
    ensures ReadEntry(UnknownType(), 284) == Ok(UNKNOWN) && ReadU32(UnknownType(), 288) == Ok(62)
  {
    hide Object, HoldsAt, HeaderBytes, EntryBytes, ReadU32, Zeroes;
    ObjectParts(ONE, UNKNOWN, NOTHING);
    EntryWordsRead(UnknownType(), 284, UNKNOWN);
    EntryReadBack(UnknownType(), 284, UNKNOWN);
  }

  lemma UnknownCount()
    ensures EntryCountOf(ONE) == Ok(1) && CountOf(ONE) == 1 && ONE_TABLE.Pos(0) == 284
    ensures TableSlots(ONE, 2, 1) == [Slot(2, 284)]
  {
    assert TableSlots(ONE, 2, 0) == [];
  }

  lemma UnknownScanned()
    ensures ScanEntries(UnknownType(), ONE, 0, 1, {}) == Ok({})
  {
    hide UnknownType, ReadU32;
    UnknownRead();
    assert ScanEntries(UnknownType(), ONE, 1, 1, {}) == Ok({});
  }

  lemma UnknownRun()
    ensures RunEntries(Pass(UnknownType(), NO_COUNTS), ONE_TABLE, {}, 0) == Ok(Pass(UnknownType(), NO_COUNTS))
  {
    var start := Pass(UnknownType(), NO_COUNTS);
    hide UnknownType, ReadEntry;
    UnknownRead();
    UnknownCount();
    assert EntryChange(start.data, ONE_TABLE, {}, 284) == Ok(Change(map[], Kept));
    hide EntryChange;
    OverNothing(start.data);
    assert RunEntries(start, ONE_TABLE, {}, 1) == Ok(start);
  }

  lemma UnknownWellFormed()
    ensures SectionsIn(UnknownType()) == SectionsWith(ONE) && SlotsIn(UnknownType()) == [Slot(2, 284)]
    ensures WellFormed(UnknownType())
  {
    hide Object, SectionsOf, ReadEntry, Slots, ShapeOf, TableSlots;
    ObjectSections(ONE, UNKNOWN, NOTHING);
    ObjectSlots(ONE);
    UnknownCount();
    UnknownRead();
    assert SiteOf(UnknownType(), SectionsWith(ONE), Slot(2, 284)) == None;
    hide SiteOf;
  }

  lemma UnknownSucceeds()
    ensures Succeeds(UnknownType(), Pass(UnknownType(), NO_COUNTS))
  {
    hide WellFormed, Normalized, Object, OpenTable, ScanEntries, RunEntries, SectionsWith, EntryCountOf, CountOf;
    UnknownWellFormed();
    UnknownCount();
    ObjectOpens(ONE, UNKNOWN, NOTHING);
    UnknownScanned();
    UnknownRun();
    ObjectNormalizes(ONE, UNKNOWN, NOTHING, ONE_TABLE);
  }

  /** A table of one vendor entry gives one record. */
  lemma OneRecord(data: seq<Byte>, sections: seq<Section>, from: seq<Byte>, table: Table, entry: Entry)
    requires table.count == 1 && table.rela.info < |sections| && entry.SymbolIndex() < |table.symbols|
             && IsVendor(entry.Type())
    requires ReadEntry(data, table.Pos(0)) == Ok(entry) && ReadU32(data, table.Pos(0) + 4) == Ok(entry.info)
    ensures var r := RecordsFrom(data, sections, from, table, 0);
            r.Ok? && |r.value| == 1 && r.value[0].relocationType == entry.Type()
  {
    hide ReadEntry, ReadU32, SymbolSection, IsDebug;
    var one := RecordAt(data, sections, from, table, table.Pos(0)).value;
    assert RecordsFrom(data, sections, from, table, 1) == Ok([]);
    assert one + [] == one;
  }

  lemma InspectsOne(data: seq<Byte>, rela: Header)
    requires rela.sectionType == SHT_RELA && TableRecords(data, SectionsWith(rela), Section([], rela)).Ok?
    ensures InspectFrom(data, SectionsWith(rela), 0) == TableRecords(data, SectionsWith(rela), Section([], rela))
  {
    var sections := SectionsWith(rela);
    OneTable(rela);
    assert sections[2] == Section([], rela) && |sections| == 5;
    hide SectionsWith, TableRecords;
    InspectSkips(data, sections, 0);
    InspectSkips(data, sections, 1);
    InspectSkips(data, sections, 3);
    InspectSkips(data, sections, 4);
    InspectSkips(data, sections, 5);
    var found := TableRecords(data, sections, sections[2]).value;
    assert found + [] == found;
  }

  lemma UnknownEntry()
    ensures UNKNOWN.Type() == 62 && UNKNOWN.SymbolIndex() == 0
    ensures ReadEntry(UnknownType(), ONE_TABLE.Pos(0)) == Ok(UNKNOWN)
            && ReadU32(UnknownType(), ONE_TABLE.Pos(0) + 4) == Ok(UNKNOWN.info)
  {
    hide UnknownType, ReadU32, ReadEntry;
    UnknownRead();
    UnknownCount();
  }

  lemma UnknownTable()
    ensures OpenTable(UnknownType(), SectionsWith(ONE), ONE) == Ok(ONE_TABLE)
    ensures CheckedRange(UnknownType(), ONE.offset, ONE.size).Ok?
  {
    hide Object, OpenTable, SectionsWith, EntryCountOf, CountOf;
    UnknownCount();
    ObjectOpens(ONE, UNKNOWN, NOTHING);
  }

  lemma UnknownInspected()
    ensures var r := InspectFrom(UnknownType(), SectionsWith(ONE), 0);
            r.Ok? && |r.value| == 1 && r.value[0].relocationType == 62
  {
    assert |SectionsWith(ONE)| == 5 && ONE_TABLE.count == 1 && ONE_TABLE.rela == ONE && |ONE_TABLE.symbols| == 1;
    hide UnknownType, OpenTable, SectionsWith, RecordsFrom, InspectFrom, ReadEntry, ReadU32, EntryAt, EntrySizeOf;
    UnknownTable();
    UnknownEntry();
    OneRecord(UnknownType(), SectionsWith(ONE), [], ONE_TABLE, UNKNOWN);
    InspectsOne(UnknownType(), ONE);
  }

  /** The object is well formed and normalizes, to itself, and its inspection finds the entry. */
  lemma UnknownTypeExample()
    ensures Succeeds(UnknownType(), Pass(UnknownType(), NO_COUNTS))
    ensures Inspected(UnknownType()).Ok? && |Inspected(UnknownType()).value| == 1
    ensures Inspected(UnknownType()).value[0].relocationType == 62
  {
    hide WellFormed, Normalized, UnknownType, SectionsOf, InspectFrom;
    UnknownSucceeds();
    UnknownWellFormed();
    Closed(UnknownType(), Pass(UnknownType(), NO_COUNTS));
    UnknownInspected();
  }
}
