/** What `inspect_object` lists: one record for each vendor relocation, in the order of the tables and their entries,
    with every field read off the entry's words, its table and the sections. */
module InspectorRecords {
  import opened Bytes
  import opened ElfObject
  import opened Normalizer
  import opened NormalizerFacts
  import opened NormalizerTheorems
  import opened NormalizerExact
  import opened PatchLane
  import opened Inspector

  // ----- the printed section of a symbol -----

  predicate IsHexDigit(b: Byte) { 0x30 <= b <= 0x39 || 0x61 <= b <= 0x66 }

  function HexDigit(b: Byte): nat
    requires IsHexDigit(b)
  {
    if b <= 0x39 then b as int - 0x30 else b as int - 0x57
  }

  /** The value of lower-case hexadecimal digits. */
  function HexValue(text: seq<Byte>): nat
    requires forall i :: 0 <= i < |text| ==> IsHexDigit(text[i])
  {
    if text == [] then 0
    else 16 * HexValue(text[..|text| - 1]) + HexDigit(text[|text| - 1])
  }

  /** The text is `value` in lower-case hexadecimal, without a leading zero. */
  predicate IsHexOf(text: seq<Byte>, value: nat) {
    && text != [] && (forall i :: 0 <= i < |text| ==> IsHexDigit(text[i]))
    && HexValue(text) == value && (text[0] == 0x30 ==> |text| == 1)
  }

  lemma {:induction false} HexExact(value: nat)
    ensures IsHexOf(Hex(value), value)
  {
    var text := Hex(value);
    if value >= 16 {
      HexExact(value / 16);
      assert text[..|text| - 1] == Hex(value / 16) && text[0] == Hex(value / 16)[0];
      var front := Hex(value / 16);
      if |front| == 1 {
        assert front[..0] == [];
      }
    } else {
      assert text[..0] == [];
    }
  }

  /** The name of the symbol's section; UND for an undefined symbol; SHN_ and the index in hexadecimal if there is no
      such section. */
  predicate ShowsSection(text: seq<Byte>, sections: seq<Section>, symbol: Symbol) {
    if symbol.sectionIndex == 0 then text == [0x55, 0x4e, 0x44]
    else if symbol.sectionIndex < |sections| then text == sections[symbol.sectionIndex].name
    else |text| > 4 && text[..4] == [0x53, 0x48, 0x4e, 0x5f] && IsHexOf(text[4..], symbol.sectionIndex)
  }

  lemma SectionShown(sections: seq<Section>, symbol: Symbol)
    ensures ShowsSection(SymbolSection(sections, symbol), sections, symbol)
  {
    HexExact(symbol.sectionIndex);
    hide Hex, IsHexOf;
    var text := SHN_PREFIX + Hex(symbol.sectionIndex);
    assert text[..4] == SHN_PREFIX && text[4..] == Hex(symbol.sectionIndex);
    assert |Hex(symbol.sectionIndex)| > 0 by { HexSome(symbol.sectionIndex); }
  }

  lemma HexSome(value: nat)
    ensures |Hex(value)| > 0
  {
  }

  predicate StartsDebug(name: seq<Byte>) { |name| >= 6 && name[..6] == [0x2e, 0x64, 0x65, 0x62, 0x75, 0x67] }

  // ----- one record -----

  predicate IsVendorSlot(data: seq<Byte>, s: Slot) {
    ReadU32(data, s.pos + 4).Ok? && ReadU32(data, s.pos + 4).value % 256 >= 58
  }

  /** The record tells of this entry. */
  predicate Tells(r: Record, data: seq<Byte>, sections: seq<Section>, s: Slot) {
    && s.table < |sections| && s.pos + 12 <= |data|
    && var rela := sections[s.table].header;
    && Readable(data, sections, rela)
    && var symbols := SymbolsOf(data, sections, rela.link).value;
    && TellsWords(r, sections, s.table, symbols, ReadU32(data, s.pos).value, ReadU32(data, s.pos + 4).value,
                  ReadU32(data, s.pos + 8).value)
  }

  predicate TellsWords(r: Record, sections: seq<Section>, table: nat, symbols: seq<Symbol>, offset: U32, info: U32,
                       addend: U32)
    requires table < |sections| && sections[table].header.info < |sections|
  {
    && info / 256 < |symbols|
    && r.relocationSection == sections[table].name
    && r.targetSection == sections[sections[table].header.info].name
    && r.offset == offset && r.relocationType == info % 256
    && r.addend == (if addend < 0x8000_0000 then addend else addend - 0x1_0000_0000)
    && r.symbol == symbols[info / 256].name && r.symbolValue == symbols[info / 256].value
    && ShowsSection(r.symbolSection, sections, symbols[info / 256])
    && (r.sameSection <==> r.symbolSection == r.targetSection)
    && (r.debugSection <==> StartsDebug(r.targetSection))
  }

  /** The entries of vendor types among these. */
  function Vendors(data: seq<Byte>, slots: seq<Slot>): seq<Slot> {
    if slots == [] then [] else (if IsVendorSlot(data, slots[0]) then [slots[0]] else []) + Vendors(data, slots[1..])
  }

  ghost predicate AllTold(records: seq<Record>, data: seq<Byte>, sections: seq<Section>, slots: seq<Slot>) {
    && |records| == |slots|
    && forall k :: 0 <= k < |records| ==> Tells(records[k], data, sections, slots[k])
  }

  lemma ToldAppend(left: seq<Record>, right: seq<Record>, data: seq<Byte>, sections: seq<Section>, a: seq<Slot>,
                   b: seq<Slot>)
    requires AllTold(left, data, sections, a) && AllTold(right, data, sections, b)
    ensures AllTold(left + right, data, sections, a + b)
  {
    hide Tells;
  }

  lemma {:induction false} VendorsAppend(data: seq<Byte>, a: seq<Slot>, b: seq<Slot>)
    ensures Vendors(data, a + b) == Vendors(data, a) + Vendors(data, b)
  {
    hide IsVendorSlot;
    if a == [] {
      assert a + b == b;
    } else {
      assert (a + b)[0] == a[0] && (a + b)[1..] == a[1..] + b;
      var first := if IsVendorSlot(data, a[0]) then [a[0]] else [];
      assert Vendors(data, a + b) == first + Vendors(data, a[1..] + b)
          && Vendors(data, a) == first + Vendors(data, a[1..]);
      hide Vendors;
      VendorsAppend(data, a[1..], b);
    }
  }

  lemma VendorTold(data: seq<Byte>, sections: seq<Section>, t: nat, table: Table, pos: nat)
    requires t < |sections| && OpenTable(data, sections, sections[t].header) == Ok(table)
    requires RecordAt(data, sections, sections[t].name, table, pos).Ok? && IsVendorSlot(data, Slot(t, pos))
    ensures var records := RecordAt(data, sections, sections[t].name, table, pos).value;
            |records| == 1 && Tells(records[0], data, sections, Slot(t, pos))
  {
    ReadableOpens(data, sections, sections[t].header);
    EntryInRange(data, pos);
    hide ReadU32, ReadEntry, SymbolsOf, ShowsSection, SymbolSection, IsDebug, StartsDebug, OpenTable, Readable;
    EntryIsWords(data, pos);
    SectionShown(sections, table.symbols[ReadU32(data, pos + 4).value / 0x100]);
    DebugStart(sections[table.rela.info].name);
  }

  lemma OthersTold(data: seq<Byte>, sections: seq<Section>, t: nat, table: Table, pos: nat)
    requires t < |sections| && OpenTable(data, sections, sections[t].header) == Ok(table)
    requires RecordAt(data, sections, sections[t].name, table, pos).Ok? && !IsVendorSlot(data, Slot(t, pos))
    ensures RecordAt(data, sections, sections[t].name, table, pos).value == []
  {
    hide ReadU32, ReadEntry, SymbolsOf, SymbolSection, IsDebug, OpenTable;
  }

  lemma RecordTold(data: seq<Byte>, sections: seq<Section>, t: nat, table: Table, pos: nat)
    requires t < |sections| && OpenTable(data, sections, sections[t].header) == Ok(table)
    requires RecordAt(data, sections, sections[t].name, table, pos).Ok?
    ensures AllTold(RecordAt(data, sections, sections[t].name, table, pos).value, data, sections,
                    Vendors(data, [Slot(t, pos)]))
  {
    hide RecordAt, Tells, IsVendorSlot, OpenTable;
    var s := Slot(t, pos);
    assert [s][1..] == [] && Vendors(data, []) == [];
    if IsVendorSlot(data, s) {
      assert Vendors(data, [s]) == [s];
      VendorTold(data, sections, t, table, pos);
    } else {
      OthersTold(data, sections, t, table, pos);
    }
  }

  lemma DebugStart(name: seq<Byte>)
    ensures IsDebug(name) <==> StartsDebug(name)
  {
    assert |DEBUG_PREFIX| == 6;
    if StartsDebug(name) {
      assert name[..6] == DEBUG_PREFIX;
    }
  }

  // ----- a whole object -----

  lemma {:induction false} TableTold(data: seq<Byte>, sections: seq<Section>, t: nat, table: Table, k: nat)
    requires t < |sections| && OpenTable(data, sections, sections[t].header) == Ok(table) && k <= table.count
    requires RecordsFrom(data, sections, sections[t].name, table, k).Ok?
    ensures AllTold(RecordsFrom(data, sections, sections[t].name, table, k).value, data, sections,
                    Vendors(data, TableSlots(table.rela, t, table.count)[k..]))
    decreases table.count - k
  {
    hide RecordAt, OpenTable, Tells, IsVendorSlot;
    var slots := TableSlots(table.rela, t, table.count);
    if k < table.count {
      TableSlotEntry(table.rela, t, table.count, k);
      RecordTold(data, sections, t, table, table.Pos(k));
      TableTold(data, sections, t, table, k + 1);
      assert slots[k..] == [Slot(t, table.Pos(k))] + slots[k + 1..];
      VendorsAppend(data, [Slot(t, table.Pos(k))], slots[k + 1..]);
      ToldAppend(RecordAt(data, sections, sections[t].name, table, table.Pos(k)).value,
                 RecordsFrom(data, sections, sections[t].name, table, k + 1).value, data, sections,
                 Vendors(data, [Slot(t, table.Pos(k))]), Vendors(data, slots[k + 1..]));
    }
  }

  lemma {:induction false} SectionsTold(data: seq<Byte>, sections: seq<Section>, t: nat)
    requires t <= |sections| && InspectFrom(data, sections, t).Ok?
    ensures SlotsBefore(sections, t) <= Slots(sections)
    ensures AllTold(InspectFrom(data, sections, t).value, data, sections,
                    Vendors(data, Slots(sections)[|SlotsBefore(sections, t)|..]))
    decreases |sections| - t
  {
    hide RecordsFrom, OpenTable, Tells, IsVendorSlot, AllTold;
    SlotsBeforePrefix(sections, t, |sections|);
    if t == |sections| {
      NothingTold(data, sections);
      assert Slots(sections)[|SlotsBefore(sections, t)|..] == [];
    } else {
      SlotsBeforePrefix(sections, t + 1, |sections|);
      SectionsTold(data, sections, t + 1);
      if sections[t].IsRela() {
        var rela := sections[t].header;
        var table := OpenTable(data, sections, rela).value;
        TableTold(data, sections, t, table, 0);
        var own, rest := TableSlots(rela, t, CountOf(rela)), Slots(sections)[|SlotsBefore(sections, t + 1)|..];
        assert own[0..] == own;
        SuffixSplit(Slots(sections), SlotsBefore(sections, t), own);
        VendorsAppend(data, own, rest);
        ToldAppend(TableRecords(data, sections, sections[t]).value, InspectFrom(data, sections, t + 1).value, data,
                   sections,
                   Vendors(data, own), Vendors(data, rest));
      }
    }
  }

  lemma NothingTold(data: seq<Byte>, sections: seq<Section>)
    ensures AllTold([], data, sections, Vendors(data, []))
  {
  }

  lemma SuffixSplit<T>(all: seq<T>, before: seq<T>, own: seq<T>)
    requires before + own <= all
    ensures all[|before|..] == own + all[|before + own|..]
  {
  }

  /** A successful inspection lists, in order, exactly the entries of type 58 or above, each with its own offset, type
      and addend, its relocation and target section, its symbol's name, value and section, and both flags. */
  lemma RecordsExact(data: seq<Byte>)
    requires Inspected(data).Ok?
    ensures AllTold(Inspected(data).value, data, SectionsIn(data), Vendors(data, SlotsIn(data)))
  {
    hide InspectFrom, SectionsOf, Tells, IsVendorSlot;
    SectionsTold(data, SectionsIn(data), 0);
    assert SlotsIn(data)[0..] == SlotsIn(data);
  }

  lemma {:induction false} VendorIsSlot(data: seq<Byte>, slots: seq<Slot>, k: nat) returns (a: nat)
    requires k < |Vendors(data, slots)|
    ensures a < |slots| && slots[a] == Vendors(data, slots)[k]
  {
    hide IsVendorSlot;
    if IsVendorSlot(data, slots[0]) {
      if k == 0 {
        a := 0;
      } else {
        var b := VendorIsSlot(data, slots[1..], k - 1);
        a := b + 1;
      }
    } else {
      var b := VendorIsSlot(data, slots[1..], k);
      a := b + 1;
    }
  }

  /** The inspection and the normalizer agree: where an object normalizes, every branch it lists says that its symbol
      is in the section it relocates, unless that is the null section. */
  lemma BranchesSaySame(data: seq<Byte>, k: nat)
    requires WellFormed(data) && Normalized(data).Ok? && Inspected(data).Ok? && k < |Inspected(data).value|
    requires Inspected(data).value[k].relocationType == 59
    ensures k < |Vendors(data, SlotsIn(data))|
    ensures var s := Vendors(data, SlotsIn(data))[k];
            && s.table < |SectionsIn(data)|
            && (SectionsIn(data)[s.table].header.info != 0 ==> Inspected(data).value[k].sameSection)
  {
    hide WellFormed, Normalized, Inspected, SectionsIn, SlotsIn, ReadU32, IsVendorSlot, SymbolsOf;
    RecordsExact(data);
    NormalizesExactly(data);
    var a := VendorIsSlot(data, SlotsIn(data), k);
    var s := SlotsIn(data)[a];
    assert Convertible(data, SectionsIn(data), s) && Tells(Inspected(data).value[k], data, SectionsIn(data), s);
  }
}
