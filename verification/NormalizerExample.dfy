/** A concrete object on which everything the normalizer's theorems assume holds: a 48-bit load and a
    branch in one section, with its symbol table, strings and relocations apart from each other. A second
    section has the same name, so what the patch lane makes of the object depends on the link map's order. */
module NormalizerExample {
  import opened Bytes
  import opened ElfObject
  import opened Normalizer
  import opened NormalizerFacts
  import opened NormalizerTheorems
  import opened PatchLane
  import opened FinalLink
  import opened LinkMeaning
  import opened ExampleObject
  import Branchi

  const LOAD := Entry(0, R_LLUI48, 0)
  const JUMP := Entry(6, R_BRANCHI, 8)

  const RELA := Header(0, SHT_RELA, 0, 0, 284, 24, 0, 1, 12)
  const SECTIONS: seq<Section> :=
    [Section([], SYMTAB), Section(CODE_NAME, CODE), Section([], RELA), Section([], STRINGS), Section(CODE_NAME, COLD)]
  const TABLE := Table(RELA, CODE, [SYMBOL], 2)

  ghost function Example(): (data: seq<Byte>)
    ensures |data| == 312
  {
    Object(RELA, LOAD, JUMP)
  }

  // ----- what is read from it -----

  lemma ExampleParts()
    ensures HoldsAt(Example(), 255, Zeroes(13))
    ensures HoldsAt(Example(), 284, EntryBytes(LOAD)) && HoldsAt(Example(), 296, EntryBytes(JUMP))
  {
    hide Object, HoldsAt, EntryBytes, HeaderBytes, Zeroes;
    ObjectParts(RELA, LOAD, JUMP);
  }

  lemma ExampleSectionsRead()
    ensures ShapeOf(Example()) == Ok(TableShape(52, 40, 5, 3)) && SectionsOf(Example()) == Ok(SECTIONS)
  {
    hide Object, ShapeOf, SectionsOf;
    ObjectSections(RELA, LOAD, JUMP);
  }

  lemma ExampleSymbols()
    ensures SymbolsOf(Example(), SECTIONS, 0) == Ok([SYMBOL])
  {
    hide Object, SymbolsOf;
    ObjectSymbols(RELA, LOAD, JUMP);
  }

  lemma ExampleEntries()
    ensures ReadEntry(Example(), 284) == Ok(LOAD) && ReadEntry(Example(), 296) == Ok(JUMP)
    ensures ReadU32(Example(), 288) == Ok(R_LLUI48) && ReadU32(Example(), 300) == Ok(R_BRANCHI)
    ensures ReadU32(Example(), 262) == Ok(0)
  {
    hide Example, HoldsAt, HeaderBytes, EntryBytes, ReadU32;
    ExampleParts();
    EntryWordsRead(Example(), 284, LOAD);
    EntryReadBack(Example(), 284, LOAD);
    EntryWordsRead(Example(), 296, JUMP);
    EntryReadBack(Example(), 296, JUMP);
    ZeroRead(Example(), 255, 7, Zeroes(13));
  }

  lemma ExampleSlots()
    ensures Slots(SECTIONS) == [Slot(2, 284), Slot(2, 296)]
  {
    assert TableSlots(RELA, 2, 0) == [];
    assert TableSlots(RELA, 2, 1) == [Slot(2, 284)];
    assert TableSlots(RELA, 2, 2) == [Slot(2, 284), Slot(2, 296)];
    assert CountOf(RELA) == 2;
    hide TableSlots, CountOf;
    assert SlotsBefore(SECTIONS, 0) == [];
    assert SlotsBefore(SECTIONS, 1) == [];
    assert SlotsBefore(SECTIONS, 2) == [];
    assert SlotsBefore(SECTIONS, 3) == [] + [Slot(2, 284), Slot(2, 296)];
    assert SlotsBefore(SECTIONS, 4) == SlotsBefore(SECTIONS, 3);
    assert SlotsBefore(SECTIONS, 5) == SlotsBefore(SECTIONS, 4);
  }

  lemma ExampleWellFormed()
    ensures WellFormed(Example())
  {
    hide Example, SectionsOf, ReadEntry, Slots, ShapeOf;
    ExampleSectionsRead();
    ExampleSlots();
    ExampleEntries();
    assert SiteOf(Example(), SECTIONS, Slot(2, 284)) == Some(258);
    assert SiteOf(Example(), SECTIONS, Slot(2, 296)) == Some(262);
    hide SiteOf;
  }

  // ----- both lanes run through -----

  lemma ExampleTableOpens(data: seq<Byte>)
    requires SymbolsOf(data, SECTIONS, 0) == Ok([SYMBOL])
    ensures OpenTable(data, SECTIONS, RELA) == Ok(TABLE)
  {
    hide SymbolsOf;
    assert EntryCountOf(RELA) == Ok(2);
    hide EntryCountOf;
  }

  lemma ExampleScan()
    ensures ScanTables(Example(), SECTIONS, 0, {}) == Ok({1})
  {
    hide Example, ReadU32;
    ExampleEntries();
    var data := Example();
    assert ScanEntries(data, RELA, 2, 2, {1}) == Ok({1});
    var none: set<int> := {};
    assert none + {1} == {1};
    assert ScanEntries(data, RELA, 1, 2, {}) == Ok({1});
    assert ScanEntries(data, RELA, 0, 2, {}) == Ok({1});
    assert ScanTables(data, SECTIONS, 5, {1}) == Ok({1});
    assert ScanTables(data, SECTIONS, 4, {1}) == Ok({1});
    assert ScanTables(data, SECTIONS, 3, {1}) == Ok({1});
    assert ScanTables(data, SECTIONS, 2, {}) == Ok({1});
    assert ScanTables(data, SECTIONS, 1, {}) == Ok({1});
  }

  /** After the load's entry, the branch and its word still read the same. */
  lemma JumpKept(edits: Edits)
    requires forall i :: i in edits ==> 258 <= i < 262 || 284 <= i < 292
    ensures var now := Over(Example(), edits);
            ReadEntry(now, 296) == Ok(JUMP) && ReadU32(now, 262) == Ok(0)
  {
    hide Example, ReadU32;
    ExampleEntries();
    KeptWord(Example(), edits, 262);
    KeptWord(Example(), edits, 296);
    KeptWord(Example(), edits, 300);
    KeptWord(Example(), edits, 304);
  }

  /** What the normalizer stores for the load. */
  function LoadEdits(): Edits { WordAt(284, 2) + WordAt(288, LOAD.Retyped(R_32)) }

  lemma LoadChange()
    ensures EntryChange(Example(), TABLE, {1}, 284) == Ok(Change(LoadEdits(), Llui48))
  {
    hide Example, ReadEntry;
    ExampleEntries();
  }

  lemma JumpChange(now: seq<Byte>)
    requires ReadEntry(now, 296) == Ok(JUMP) && ReadU32(now, 262) == Ok(0)
    ensures EntryChange(now, TABLE, {1}, 296).Ok?
  {
    hide ReadEntry, ReadU32, WordAt;
  }

  lemma ExampleEntriesRun()
    ensures RunEntries(Pass(Example(), NO_COUNTS), TABLE, {1}, 0).Ok?
  {
    hide Example, EntryChange, Over, WordAt;
    LoadChange();
    var first := Pass(Over(Example(), LoadEdits()), NO_COUNTS.Plus(Llui48));
    JumpKept(LoadEdits());
    JumpChange(first.data);
    assert RunEntries(first, TABLE, {1}, 1).Ok?;
  }

  lemma TableSkipped(pass: Pass, sections: seq<Section>, t: nat)
    requires t < |sections| && !sections[t].IsRela()
    ensures RunTables(pass, sections, {1}, t) == RunTables(pass, sections, {1}, t + 1)
    ensures RunTables(pass, sections, {1}, |sections|) == Ok(pass)
  {
  }

  lemma TableRun(pass: Pass, sections: seq<Section>, t: nat, table: Table, done: Pass)
    requires t < |sections| && sections[t].IsRela() && OpenTable(pass.data, sections, sections[t].header) == Ok(table)
    requires RunEntries(pass, table, {1}, 0) == Ok(done)
    ensures RunTables(pass, sections, {1}, t) == RunTables(done, sections, {1}, t + 1)
  {
  }

  lemma ExampleTablesRun()
    ensures RunTables(Pass(Example(), NO_COUNTS), SECTIONS, {1}, 0).Ok?
  {
    hide Example, OpenTable, RunEntries, SymbolsOf, RunTables;
    ExampleSymbols();
    ExampleTableOpens(Example());
    ExampleEntriesRun();
    var start := Pass(Example(), NO_COUNTS);
    var done := RunEntries(start, TABLE, {1}, 0).value;
    TableSkipped(start, SECTIONS, 0);
    TableSkipped(start, SECTIONS, 1);
    TableRun(start, SECTIONS, 2, TABLE, done);
    TableSkipped(done, SECTIONS, 3);
    TableSkipped(done, SECTIONS, 4);
  }

  lemma ExampleNormalizes()
    ensures Normalized(Example()).Ok?
  {
    hide Example, SectionsOf, ScanTables, RunTables;
    ExampleSectionsRead();
    ExampleScan();
    ExampleTablesRun();
  }

  // ----- two links of the object -----

  /** What the lane knows: a base for the name both sections have. */
  function LayoutAt(base: U32): Layout { Layout(map[CODE_NAME := base], map[]) }

  /** What the patch lane stores for the load. */
  function LoadPatch(base: U32): Edits { WordAt(258, base) + WordAt(288, LOAD.Retyped(R_NONE)) }

  lemma SymbolAddress(base: U32)
    ensures Address(SECTIONS, SYMBOL, LayoutAt(base)) == Some(base)
    ensures CODE_NAME in LayoutAt(base).sections && LayoutAt(base).sections[CODE_NAME] == base
  {
    assert SECTIONS[1].name == CODE_NAME;
  }

  lemma ModSame(w: U32)
    ensures Mod32(w) == w
  {
  }

  lemma LoadPatched(base: U32)
    ensures PatchChange(Example(), SECTIONS, TABLE, CODE_NAME, LayoutAt(base), 284) ==
            Ok(PatchStep(LoadPatch(base), Patched))
  {
    hide Example, ReadEntry, WordAt, IsDebug, Address, LayoutAt, Mod32, Entry.Retyped;
    ExampleEntries();
    CodeNotDebug();
    SymbolAddress(base);
    ModSame(base);
    assert LOAD.Type() == R_LLUI48 && LOAD.SymbolIndex() == 0;
  }

  lemma JumpPatched(now: seq<Byte>, base: U32)
    requires ReadEntry(now, 296) == Ok(JUMP) && ReadU32(now, 262) == Ok(0)
    ensures var step := PatchChange(now, SECTIONS, TABLE, CODE_NAME, LayoutAt(base), 296);
            step.Ok? && step.value.outcome == Patched
  {
    hide ReadEntry, ReadU32, WordAt, IsDebug, Branchi.PatchEncode, Address, LayoutAt, Entry.Retyped;
    CodeNotDebug();
    SymbolAddress(base);
    JumpEncodes();
    assert JUMP.Type() == R_BRANCHI && JUMP.SymbolIndex() == 0;
    assert base + JUMP.addend - (LayoutAt(base).sections[CODE_NAME] + JUMP.offset) == 2;
  }

  lemma JumpEncodes()
    ensures Branchi.PatchEncode(0, 2).Some?
  {
    hide Branchi.Insert;
  }

  lemma ExampleEntriesPatched(base: U32)
    ensures var run := PatchEntries(PatchPass(Example(), NO_PATCHES), SECTIONS, TABLE, CODE_NAME, LayoutAt(base), 0);
            run.Ok? && run.value.counts == PatchCounts(2, 2, 0, 0)
  {
    hide Example, PatchChange, Over, WordAt, LayoutAt, SECTIONS, CODE_NAME;
    LoadPatched(base);
    var first := PatchPass(Over(Example(), LoadPatch(base)), PatchCounts(1, 1, 0, 0));
    JumpKept(LoadPatch(base));
    JumpPatched(first.data, base);
    assert PatchEntries(first, SECTIONS, TABLE, CODE_NAME, LayoutAt(base), 1).Ok?;
  }

  lemma TableUnpatched(pass: PatchPass, layout: Layout, t: nat)
    requires t < 5 && t != 2
    ensures PatchTables(Example(), pass, SECTIONS, layout, t) == PatchTables(Example(), pass, SECTIONS, layout, t + 1)
    ensures PatchTables(Example(), pass, SECTIONS, layout, 5) == Ok(pass)
  {
    hide Example, PatchTable, PatchEntries;
    assert !SECTIONS[t].IsRela();
  }

  lemma TablePatched(pass: PatchPass, layout: Layout, done: PatchPass)
    requires SymbolsOf(Example(), SECTIONS, 0) == Ok([SYMBOL])
    requires PatchEntries(pass, SECTIONS, TABLE, CODE_NAME, layout, 0) == Ok(done)
    ensures PatchTables(Example(), pass, SECTIONS, layout, 2) == PatchTables(Example(), done, SECTIONS, layout, 3)
  {
    hide Example, SymbolsOf, PatchEntries;
    assert PatchTable(Example(), SECTIONS, RELA) == Some(TABLE);
    hide PatchTable;
    assert SECTIONS[2].IsRela() && SECTIONS[2].header == RELA && SECTIONS[1].name == CODE_NAME;
  }

  lemma ExamplePatches(base: U32)
    ensures PatchedObject(Example(), LayoutAt(base)).Ok?
    ensures PatchedObject(Example(), LayoutAt(base)).value.counts == PatchCounts(2, 2, 0, 0)
  {
    hide Example, SectionsOf, SymbolsOf, PatchEntries, PatchTables, LayoutAt;
    ExampleSectionsRead();
    ExampleSymbols();
    ExampleEntriesPatched(base);
    var layout := LayoutAt(base);
    var start := PatchPass(Example(), NO_PATCHES);
    var done := PatchEntries(start, SECTIONS, TABLE, CODE_NAME, layout, 0).value;
    TableUnpatched(start, layout, 0);
    TableUnpatched(start, layout, 1);
    TablePatched(start, layout, done);
    TableUnpatched(done, layout, 3);
    TableUnpatched(done, layout, 4);
  }

  lemma CodeNotDebug()
    ensures !IsDebug(CODE_NAME)
  {
    assert DEBUG_PREFIX[0] != CODE_NAME[0];
  }

  lemma ExampleSlotsIn()
    ensures SectionsIn(Example()) == SECTIONS && SlotsIn(Example()) == [Slot(2, 284), Slot(2, 296)]
  {
    hide Example, SectionsOf, Slots;
    ExampleSectionsRead();
    ExampleSlots();
  }

  lemma ExampleTypes()
    ensures EntryOf(Example(), Slot(2, 284)) == LOAD && EntryOf(Example(), Slot(2, 296)) == JUMP
    ensures TypeOf(Example(), Slot(2, 284)) == R_LLUI48 && TypeOf(Example(), Slot(2, 296)) == R_BRANCHI
  {
    hide Example, ReadEntry;
    ExampleEntries();
    assert LOAD.Type() == R_LLUI48 && JUMP.Type() == R_BRANCHI;
  }

  lemma ExampleTargets()
    ensures ProperTargets(Example())
  {
    hide Example, SectionsOf;
    ExampleSectionsRead();
  }

  /** Everything the main theorem assumes holds of the example: it is well formed, the normalizer converts
      its load and its branch, and the patch lane patches both. */
  lemma AssumptionsHold(base: U32)
    ensures Normalized(Example()).Ok? && PatchedObject(Example(), LayoutAt(base)).Ok?
    ensures BothLanes(Example(), Normalized(Example()).value, LayoutAt(base),
                      PatchedObject(Example(), LayoutAt(base)).value)
    ensures SlotsIn(Example()) == [Slot(2, 284), Slot(2, 296)]
    ensures TypeOf(Example(), SlotsIn(Example())[0]) == R_LLUI48
            && TypeOf(Example(), SlotsIn(Example())[1]) == R_BRANCHI
  {
    hide Example, WellFormed, Normalized, PatchedObject, ProperTargets, SlotsIn, TypeOf, LayoutAt;
    ExampleSlotsIn();
    ExampleTypes();
    ExampleWellFormed();
    ExampleNormalizes();
    ExamplePatches(base);
    ExampleTargets();
  }

  const CODE_LINE := Line(1, 0x1000, 12)
  const COLD_LINE := Line(4, 0x2000, 4)

  /** The same placement, listed in two orders. */
  const CODE_LAST := Link([COLD_LINE, CODE_LINE], map[], [])
  const COLD_LAST := Link([CODE_LINE, COLD_LINE], map[], [])

  lemma LanesBase()
    ensures LaneLayout(CODE_LAST, SECTIONS) == LayoutAt(0x1000) && LaneLayout(COLD_LAST, SECTIONS) == LayoutAt(0x2000)
  {
    LaneOfTwo(COLD_LINE, CODE_LINE);
    LaneOfTwo(CODE_LINE, COLD_LINE);
  }

  lemma LaneOfTwo(first: Line, second: Line)
    requires {first, second} == {CODE_LINE, COLD_LINE}
    ensures LaneBases([first, second], SECTIONS) == map[CODE_NAME := second.base]
  {
    assert [first, second][..1] == [first] && [first][..0] == [];
    assert Listed(first, SECTIONS) && Listed(second, SECTIONS);
    assert SECTIONS[1].name == CODE_NAME && SECTIONS[4].name == CODE_NAME;
    var nothing: seq<Line> := [];
    assert LaneBases(nothing, SECTIONS) == map[];
    assert LaneBases([first], SECTIONS) == map[CODE_NAME := first.base];
  }

  lemma SymbolLinked()
    ensures LinkAddress(CODE_LAST, SYMBOL) == Some(0x1000) && LinkAddress(COLD_LAST, SYMBOL) == Some(0x1000)
  {
    assert [COLD_LINE, CODE_LINE][1..] == [CODE_LINE];
    assert BaseOf([CODE_LINE], 1) == Some(0x1000);
  }

  lemma ExampleLoad()
    ensures EntrySymbolIn(Example(), Slot(2, 284)) == Some(SYMBOL) && IsLoad(Example(), Slot(2, 284))
  {
    hide Example, SectionsOf, Slots, SymbolsOf, ReadEntry, IsDebug;
    ExampleSectionsRead();
    ExampleSymbols();
    ExampleTableOpens(Example());
    ExampleTypes();
    CodeNotDebug();
    assert SECTIONS[2].header == RELA && SECTIONS[1].name == CODE_NAME && LOAD.SymbolIndex() == 0;
  }

  /** The load's addresses: the linker's does not depend on the order of the map, the lane's is the base of
      the section listed last. */
  lemma LoadAddresses(base: U32, link: Link)
    requires link == CODE_LAST || link == COLD_LAST
    ensures LaneS(Example(), LayoutAt(base), Slot(2, 284)) == Some(base)
            && LinkS(Example(), link, Slot(2, 284)) == Some(0x1000)
  {
    hide Example, EntrySymbolIn, Address, LinkAddress, LayoutAt;
    ExampleLoad();
    ExampleSlotsIn();
    SymbolAddress(base);
    SymbolLinked();
  }

  /** Two links that differ only in the order of the map's lines. When the load's own section is listed last,
      both lanes give the same linked bytes; when the other section of its name is, they do not. */
  lemma OrderOfLinesDecides()
    ensures var out := Normalized(Example()); var patched := PatchedObject(Example(), LaneLayout(CODE_LAST, SECTIONS));
            && out.Ok? && patched.Ok? && BothLanes(Example(), out.value, LaneLayout(CODE_LAST, SECTIONS), patched.value)
            && SameCode(Example(), Linked(out.value.data, CODE_LAST), Linked(patched.value.data, CODE_LAST))
    ensures var out := Normalized(Example()); var patched := PatchedObject(Example(), LaneLayout(COLD_LAST, SECTIONS));
            && out.Ok? && patched.Ok? && BothLanes(Example(), out.value, LaneLayout(COLD_LAST, SECTIONS), patched.value)
            && !SameCode(Example(), Linked(out.value.data, COLD_LAST), Linked(patched.value.data, COLD_LAST))
  {
    hide Example, Normalized, PatchedObject, BothLanes, SameCode, LoadsAgree, LoadsResolve, LaneLayout, LayoutAt;
    LanesBase();
    AssumptionsHold(0x1000);
    AssumptionsHold(0x2000);
    var out := Normalized(Example()).value;
    ExampleResolves(0x1000, CODE_LAST);
    ExampleResolves(0x2000, COLD_LAST);
    SameLinkedBytes(Example(), out, LayoutAt(0x1000), CODE_LAST, PatchedObject(Example(), LayoutAt(0x1000)).value);
    SameLinkedBytes(Example(), out, LayoutAt(0x2000), COLD_LAST, PatchedObject(Example(), LayoutAt(0x2000)).value);
  }

  /** Of two entries, only the load is asked about. */
  lemma OneLoad(data: seq<Byte>, layout: Layout, link: Link, s: Slot, t: Slot)
    requires SlotsIn(data) == [s, t] && IsLoad(data, s) && !IsLoad(data, t)
    ensures LoadsResolve(data, link) <==> LinkS(data, link, s).Some?
    ensures LoadsAgree(data, layout, link) <==> SameAddress(data, layout, link, s)
  {
    hide SameAddress, LinkS, SlotsIn, IsLoad;
    assert SlotsIn(data)[0] == s && SlotsIn(data)[1] == t;
  }

  lemma ExampleResolves(base: U32, link: Link)
    requires link == CODE_LAST || link == COLD_LAST
    ensures LoadsResolve(Example(), link) && (LoadsAgree(Example(), LayoutAt(base), link) <==> base == 0x1000)
  {
    hide *;
    ExampleSlotsIn();
    ExampleLoad();
    JumpIsNoLoad();
    LoadAddresses(base, link);
    LoadSame(base, link);
    OneLoad(Example(), LayoutAt(base), link, Slot(2, 284), Slot(2, 296));
  }

  lemma LoadSame(base: U32, link: Link)
    requires link == CODE_LAST || link == COLD_LAST
    ensures SameAddress(Example(), LayoutAt(base), link, Slot(2, 284)) <==> base == 0x1000
  {
    hide Example, LaneS, LinkS, LayoutAt, Mod32;
    LoadAddresses(base, link);
    ModSame(base);
    ModSame(0x1000);
  }

  lemma JumpIsNoLoad()
    ensures !IsLoad(Example(), Slot(2, 296))
  {
    hide Example, TypeOf, DebugTarget;
    ExampleTypes();
  }
}
