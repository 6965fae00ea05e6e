/** `inspect_object`: list the vendor relocations of an object; a normalized object has none. */
module Inspector {
  import opened Bytes
  import opened ElfObject
  import opened Normalizer
  import opened NormalizerFacts
  import opened NormalizerTheorems
  import opened PatchLane

  /** One vendor relocation. The names of the archive and the member are the caller's, and the type's name
      follows from the type. */
  datatype Record = Record(
    relocationSection: seq<Byte>, targetSection: seq<Byte>, offset: U32, relocationType: int,
    symbol: seq<Byte>, symbolSection: seq<Byte>, symbolValue: U32, addend: int, sameSection: bool, debugSection: bool)

  predicate IsVendor(relocationType: int) { relocationType >= R_LLUI48 }

  const UND: seq<Byte> := [0x55, 0x4e, 0x44]

  const SHN_PREFIX: seq<Byte> := [0x53, 0x48, 0x4e, 0x5f]

  /** Lower-case hexadecimal, without leading zeroes. */
  function Hex(value: nat): seq<Byte> {
    (if value < 16 then [] else Hex(value / 16)) + [if value % 16 < 10 then 0x30 + value % 16 else 0x57 + value % 16]
  }

  /** How the section of a symbol is shown: its name, UND, or the index if there is no such section. */
  function SymbolSection(sections: seq<Section>, symbol: Symbol): seq<Byte> {
    if symbol.sectionIndex == SHN_UNDEF then UND
    else if symbol.sectionIndex < |sections| then sections[symbol.sectionIndex].name
    else SHN_PREFIX + Hex(symbol.sectionIndex)
  }

  function RecordAt(data: seq<Byte>, sections: seq<Section>, from: seq<Byte>, table: Table,
                    pos: nat): Result<seq<Record>, Error>
    requires table.rela.info < |sections|
  {
    var info :- ReadU32(data, pos + 4);
    if !IsVendor(info % 0x100) then Ok([])
    else if info / 0x100 >= |table.symbols| then Err(SymbolIndex)
    else
      var entry :- ReadEntry(data, pos);
      var symbol, target := table.symbols[info / 0x100], sections[table.rela.info].name;
      var shown := SymbolSection(sections, symbol);
      Ok([Record(from, target, entry.offset, entry.Type(), symbol.name, shown, symbol.value, entry.addend,
                 shown == target, IsDebug(target))])
  }

  function RecordsFrom(data: seq<Byte>, sections: seq<Section>, from: seq<Byte>, table: Table,
                       k: nat): Result<seq<Record>, Error>
    requires table.rela.info < |sections|
    decreases table.count - k
  {
    if k >= table.count then Ok([])
    else
      var records :- RecordAt(data, sections, from, table, table.Pos(k));
      var rest :- RecordsFrom(data, sections, from, table, k + 1);
      Ok(records + rest)
  }

  function TableRecords(data: seq<Byte>, sections: seq<Section>, rela: Section): Result<seq<Record>, Error> {
    var table :- OpenTable(data, sections, rela.header);
    var _ :- CheckedRange(data, rela.header.offset, rela.header.size);
    RecordsFrom(data, sections, rela.name, table, 0)
  }

  function InspectFrom(data: seq<Byte>, sections: seq<Section>, t: nat): Result<seq<Record>, Error>
    decreases |sections| - t
  {
    if t >= |sections| then Ok([])
    else if !sections[t].IsRela() then InspectFrom(data, sections, t + 1)
    else
      var records :- TableRecords(data, sections, sections[t]);
      var rest :- InspectFrom(data, sections, t + 1);
      Ok(records + rest)
  }

  function Inspected(data: seq<Byte>): Result<seq<Record>, Error> {
    var sections :- SectionsOf(data);
    InspectFrom(data, sections, 0)
  }

  lemma PrependMany<T>(done: seq<T>, next: seq<T>, rest: Result<seq<T>, Error>)
    ensures rest.Ok? ==> Prepend(done, Ok(next + rest.value)) == Prepend(done + next, rest)
    ensures rest.Err? ==> Prepend(done + next, rest) == rest
  {
    assert rest.Ok? ==> done + (next + rest.value) == done + next + rest.value;
  }

  method InspectTable(data: seq<Byte>, sections: seq<Section>, from: seq<Byte>, table: Table)
    returns (r: Result<seq<Record>, Error>)
    requires table.rela.info < |sections|
    ensures r == RecordsFrom(data, sections, from, table, 0)
  {
    hide RecordAt;
    var records := [];
    PrependNothing(RecordsFrom(data, sections, from, table, 0));
    for k := 0 to table.count
      invariant RecordsFrom(data, sections, from, table, 0) ==
                Prepend(records, RecordsFrom(data, sections, from, table, k))
    {
      var more :- RecordAt(data, sections, from, table, table.Pos(k));
      PrependMany(records, more, RecordsFrom(data, sections, from, table, k + 1));
      records := records + more;
    }
    assert records + [] == records;
    return Ok(records);
  }

  method InspectObject(data: seq<Byte>) returns (r: Result<seq<Record>, Error>)
    ensures r == Inspected(data)
  {
    hide SectionsOf, SymbolsOf, RecordsFrom, EntryCountOf;
    var sections :- ParseSections(data);
    var records := [];
    PrependNothing(InspectFrom(data, sections, 0));
    for t := 0 to |sections|
      invariant InspectFrom(data, sections, 0) == Prepend(records, InspectFrom(data, sections, t))
    {
      if sections[t].IsRela() {
        var rela := sections[t].header;
        if rela.info >= |sections| { return Err(TargetIndex); }
        var symbols :- ParseSymbols(data, sections, rela.link);
        var count :- EntryCountOf(rela);
        var _ :- CheckedRange(data, rela.offset, rela.size);
        var more :- InspectTable(data, sections, sections[t].name,
                                 Table(rela, sections[rela.info].header, symbols, count));
        PrependMany(records, more, InspectFrom(data, sections, t + 1));
        records := records + more;
      }
    }
    assert records + [] == records;
    return Ok(records);
  }

  // ----- nothing is found after normalization -----

  ghost predicate NoVendor(data: seq<Byte>, slots: seq<Slot>) {
    forall a :: 0 <= a < |slots| ==> ReadEntry(data, slots[a].pos).Ok? && !IsVendor(TypeOf(data, slots[a]))
  }

  lemma NoRecordAt(data: seq<Byte>, sections: seq<Section>, from: seq<Byte>, table: Table, pos: nat)
    requires table.rela.info < |sections| && ReadEntry(data, pos).Ok? && !IsVendor(ReadEntry(data, pos).value.Type())
    ensures RecordAt(data, sections, from, table, pos) == Ok([])
  {
  }

  lemma {:induction false} NoRecords(data: seq<Byte>, sections: seq<Section>, t: nat, k: nat)
    requires t < |sections| && sections[t].IsRela() && OpenTable(data, sections, sections[t].header).Ok?
    requires k <= CountOf(sections[t].header) && NoVendor(data, Slots(sections))
    ensures RecordsFrom(data, sections, sections[t].name, OpenTable(data, sections, sections[t].header).value, k) ==
            Ok([])
    decreases CountOf(sections[t].header) - k
  {
    hide SymbolsOf, RecordAt, ReadEntry;
    var rela := sections[t].header;
    var none: seq<Record> := [];
    assert none + none == none;
    if k < CountOf(rela) {
      var s := Slot(t, EntryAt(rela.offset, EntrySizeOf(rela), k));
      assert Done(sections, t, k + 1) == Done(sections, t, k) + [s];
      DonePrefix(sections, t, k + 1);
      assert Slots(sections)[|Done(sections, t, k)|] == s;
      NoRecordAt(data, sections, sections[t].name, OpenTable(data, sections, rela).value, s.pos);
      NoRecords(data, sections, t, k + 1);
    }
  }

  /** Every relocation table lies in the file. */
  predicate TablesInside(data: seq<Byte>, sections: seq<Section>, t: nat) {
    forall u :: t <= u < |sections| && sections[u].IsRela() ==>
        CheckedRange(data, sections[u].header.offset, sections[u].header.size).Ok?
  }

  predicate TablesOpen(data: seq<Byte>, sections: seq<Section>, t: nat) {
    forall u :: t <= u < |sections| && sections[u].IsRela() ==> OpenTable(data, sections, sections[u].header).Ok?
  }

  lemma {:induction false} NothingInspected(data: seq<Byte>, sections: seq<Section>, t: nat)
    requires t <= |sections| && TablesOpen(data, sections, t) && TablesInside(data, sections, t)
             && NoVendor(data, Slots(sections))
    ensures InspectFrom(data, sections, t) == Ok([])
    decreases |sections| - t
  {
    hide SymbolsOf, RecordsFrom, NoVendor, EntryCountOf;
    if t < |sections| {
      if sections[t].IsRela() {
        var none: seq<Record> := [];
        assert none + none == none;
        NoRecords(data, sections, t, 0);
      }
      NothingInspected(data, sections, t + 1);
    }
  }

  /** No entry of this table, from `k` on, has a vendor type. */
  predicate TableClean(data: seq<Byte>, table: Table, k: nat) {
    forall j :: k <= j < table.count ==>
      ReadU32(data, table.Pos(j) + 4).Ok? && !IsVendor(ReadU32(data, table.Pos(j) + 4).value % 0x100)
  }

  lemma {:induction false} RecordsClean(data: seq<Byte>, sections: seq<Section>, from: seq<Byte>, table: Table, k: nat)
    requires table.rela.info < |sections| && RecordsFrom(data, sections, from, table, k) == Ok([])
    ensures TableClean(data, table, k)
    decreases table.count - k
  {
    hide ReadU32, ReadEntry;
    if k < table.count {
      RecordsClean(data, sections, from, table, k + 1);
      assert TableClean(data, table, k + 1);
    }
  }

  /** The entries of all tables from `t` on, as the inspection reads them. */
  ghost predicate AllClean(data: seq<Byte>, sections: seq<Section>, t: nat) {
    forall u :: t <= u < |sections| && sections[u].IsRela() ==>
      && OpenTable(data, sections, sections[u].header).Ok?
      && TableClean(data, OpenTable(data, sections, sections[u].header).value, 0)
  }

  lemma {:induction false} InspectedClean(data: seq<Byte>, sections: seq<Section>, t: nat)
    requires t <= |sections| && InspectFrom(data, sections, t) == Ok([])
    ensures AllClean(data, sections, t) && TablesInside(data, sections, t)
    decreases |sections| - t
  {
    hide OpenTable, RecordsFrom, TableClean;
    if t < |sections| {
      if sections[t].IsRela() {
        RecordsClean(data, sections, sections[t].name, OpenTable(data, sections, sections[t].header).value, 0);
      }
      InspectedClean(data, sections, t + 1);
    }
  }

  lemma {:induction false} TableSlotEntry(rela: Header, t: nat, n: nat, a: nat)
    requires a < n
    ensures TableSlots(rela, t, n)[a] == Slot(t, EntryAt(rela.offset, EntrySizeOf(rela), a))
  {
    if a < n - 1 {
      TableSlotEntry(rela, t, n - 1, a);
    }
  }

  /** Every slot is some entry of its table. */
  lemma {:induction false} SlotEntry(sections: seq<Section>, t: nat, a: nat) returns (k: nat)
    requires t <= |sections| && a < |SlotsBefore(sections, t)|
    ensures var s := SlotsBefore(sections, t)[a];
            && s.table < t && sections[s.table].IsRela() && k < CountOf(sections[s.table].header)
            && s.pos == EntryAt(sections[s.table].header.offset, EntrySizeOf(sections[s.table].header), k)
  {
    hide CountOf;
    var before := SlotsBefore(sections, t - 1);
    if a < |before| {
      k := SlotEntry(sections, t - 1, a);
    } else {
      k := a - |before|;
      TableSlotEntry(sections[t - 1].header, t - 1, CountOf(sections[t - 1].header), k);
    }
  }

  lemma CleanSlot(data: seq<Byte>, sections: seq<Section>, a: nat)
    requires AllClean(data, sections, 0) && a < |Slots(sections)|
    ensures ReadEntry(data, Slots(sections)[a].pos).Ok? ==> !IsVendor(TypeOf(data, Slots(sections)[a]))
  {
    hide SymbolsOf, SlotsBefore;
    var k := SlotEntry(sections, |sections|, a);
    var s := Slots(sections)[a];
    var table := OpenTable(data, sections, sections[s.table].header).value;
    assert table.Pos(k) == s.pos && k < table.count;
  }

  /** A second inspection finds no vendor relocation exactly if every relocation table lies in the file, which
      the normalization does not check, and none has a type above 61, which it does not know. */
  lemma NoVendorRelocationLeft(data: seq<Byte>, out: Pass)
    requires Succeeds(data, out)
    ensures Inspected(out.data) == Ok([]) <==>
            && TablesInside(data, SectionsIn(data), 0)
            && forall a :: 0 <= a < |SlotsIn(data)| ==> TypeOf(data, SlotsIn(data)[a]) <= R_LLUI_REP
  {
    hide WellFormed, Normalized, SectionsOf, Slots, SymbolsOf, ReadEntry, InspectFrom;
    Closed(data, out);
    NormalizedOutside(data, out);
    TablesKept(data, out.data);
    SlotsReadable(data, out);
    if Inspected(out.data) == Ok([]) {
      InspectedClean(out.data, SectionsIn(data), 0);
    }
    forall a | 0 <= a < |SlotsIn(data)|
      ensures IsVendor(TypeOf(out.data, SlotsIn(data)[a])) <==> TypeOf(data, SlotsIn(data)[a]) > R_LLUI_REP
      ensures Inspected(out.data) == Ok([]) ==> !IsVendor(TypeOf(out.data, SlotsIn(data)[a]))
    {
      NormalForm(data, out, a);
      EntryAfter(data, out, a);
      if Inspected(out.data) == Ok([]) {
        CleanSlot(out.data, SectionsIn(data), a);
      }
    }
    if TablesInside(data, SectionsIn(data), 0) && forall a :: 0 <= a < |SlotsIn(data)| ==>
        TypeOf(data, SlotsIn(data)[a]) <= R_LLUI_REP {
      NothingInspected(out.data, SectionsIn(data), 0);
    }
  }
}
