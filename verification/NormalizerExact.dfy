/** When `normalize_object` succeeds, and what it makes of every entry: stated on the words of the entries and
    the tables of the object alone, with the relocation types by number. */
module NormalizerExact {
  import opened Bytes
  import opened ElfObject
  import opened Normalizer
  import opened NormalizerFacts
  import opened NormalizerTheorems
  import Branchi

  /** The relocation table can be read: it relocates a section, its symbols can be read, and its size is a
      whole number of entries of at least 12 bytes. */
  predicate Readable(data: seq<Byte>, sections: seq<Section>, rela: Header) {
    && rela.info < |sections| && SymbolsOf(data, sections, rela.link).Ok?
    && var entrySize := if rela.entrySize == 0 then 12 else rela.entrySize;
       entrySize >= 12 && rela.size % entrySize == 0
  }

  ghost predicate AllTablesReadable(data: seq<Byte>, sections: seq<Section>) {
    forall t :: 0 <= t < |sections| && sections[t].header.sectionType == 4 ==>
        Readable(data, sections, sections[t].header)
  }

  /** Six bytes from `offset` lie in the section and below 2^32. */
  predicate SixBytes(offset: nat, target: Header) { offset + 6 <= target.size && offset + 6 <= 0xffff_ffff }

  /** The branch's symbol is in the section it relocates, and the displacement can be encoded. */
  predicate LocalBranch(data: seq<Byte>, target: Header, section: nat, symbols: seq<Symbol>, index: nat, offset: nat,
                        addend: int)
  {
    && index < |symbols| && symbols[index].sectionIndex == section
    && target.offset + offset + 4 <= |data|
    && (symbols[index].value + addend - offset) % 2 == 0
    && -512 <= symbols[index].value + addend - offset <= 510
  }

  /** The entry with these words can be converted: by its type, its symbol and its place. */
  predicate WordsConvertible(data: seq<Byte>, target: Header, section: nat, symbols: seq<Symbol>, offset: U32,
                             info: U32,
                             addend: U32)
  {
    var index, signed := info / 256, if addend < 0x8000_0000 then addend else addend - 0x1_0000_0000;
    match info % 256
    case 58 => SixBytes(offset, target)
    case 59 => LocalBranch(data, target, section, symbols, index, offset, signed)
    case 60 => false
    case 61 => index == 0 && addend == 0 && SixBytes(offset, target)
    case _ => true
  }

  predicate Convertible(data: seq<Byte>, sections: seq<Section>, s: Slot) {
    && IsSlot(sections, s) && s.pos + 12 <= |data|
    && var rela := sections[s.table].header;
    && Readable(data, sections, rela)
    && WordsConvertible(data, sections[rela.info].header, rela.info, SymbolsOf(data, sections, rela.link).value,
                        ReadU32(data, s.pos).value, ReadU32(data, s.pos + 4).value, ReadU32(data, s.pos + 8).value)
  }

  // ----- which entries there are -----

  /** The `k`-th entry of a relocation table: the entries lie one after another from the table's offset. */
  predicate EntryOfTable(rela: Header, t: nat, s: Slot, k: nat) {
    && s.table == t
    && var entrySize := if rela.entrySize == 0 then 12 else rela.entrySize;
       && entrySize >= 12 && rela.size % entrySize == 0 && k < rela.size / entrySize
       && s.pos == rela.offset + k * entrySize
  }

  ghost predicate IsEntry(sections: seq<Section>, s: Slot) {
    && s.table < |sections| && sections[s.table].header.sectionType == 4
    && exists k: nat :: EntryOfTable(sections[s.table].header, s.table, s, k)
  }

  predicate Precedes(s: Slot, s': Slot) { s.table < s'.table || (s.table == s'.table && s.pos < s'.pos) }

  lemma {:induction false} TableSlotsExact(rela: Header, t: nat, count: nat, j: nat)
    requires j < count
    ensures TableSlots(rela, t, count)[j]
         == Slot(t, rela.offset + j * if rela.entrySize == 0 then 12 else rela.entrySize)
  {
    if j < count - 1 {
      TableSlotsExact(rela, t, count - 1, j);
    }
  }

  lemma OwnEntry(rela: Header, t: nat, s: Slot, k: nat)
    ensures EntryOfTable(rela, t, s, k) <==> k < CountOf(rela) && TableSlots(rela, t, CountOf(rela))[k] == s
  {
    hide TableSlots;
    if k < CountOf(rela) {
      TableSlotsExact(rela, t, CountOf(rela), k);
    }
  }

  lemma FartherOn(entrySize: nat, i: nat, j: nat)
    requires i < j && entrySize > 0
    ensures i * entrySize < j * entrySize
  {
  }

  lemma InOrder(rela: Header, t: nat, i: nat, j: nat)
    requires i < j < CountOf(rela)
    ensures Precedes(TableSlots(rela, t, CountOf(rela))[i], TableSlots(rela, t, CountOf(rela))[j])
  {
    var entrySize := if rela.entrySize == 0 then 12 else rela.entrySize;
    FartherOn(entrySize, i, j);
    hide TableSlots, CountOf;
    TableSlotsExact(rela, t, CountOf(rela), i);
    TableSlotsExact(rela, t, CountOf(rela), j);
  }

  /** The entries of a relocation table, in order. */
  lemma TableExact(rela: Header, t: nat)
    ensures var slots := TableSlots(rela, t, CountOf(rela));
            && (forall j :: 0 <= j < |slots| ==> EntryOfTable(rela, t, slots[j], j))
            && (forall s, k: nat :: EntryOfTable(rela, t, s, k) ==> k < |slots| && slots[k] == s)
            && (forall i, j :: 0 <= i < j < |slots| ==> Precedes(slots[i], slots[j]))
  {
    hide *;
    var slots := TableSlots(rela, t, CountOf(rela));
    forall j | 0 <= j < |slots|
      ensures EntryOfTable(rela, t, slots[j], j)
    {
      OwnEntry(rela, t, slots[j], j);
    }
    forall s, k: nat | EntryOfTable(rela, t, s, k)
      ensures k < |slots| && slots[k] == s
    {
      OwnEntry(rela, t, s, k);
    }
    forall i, j | 0 <= i < j < |slots|
      ensures Precedes(slots[i], slots[j])
    {
      InOrder(rela, t, i, j);
    }
  }

  lemma {:induction false} SlotsBeforeExact(sections: seq<Section>, n: nat)
    requires n <= |sections|
    ensures var slots := SlotsBefore(sections, n);
            && (forall s :: s in slots <==> IsEntry(sections, s) && s.table < n)
            && (forall i, j :: 0 <= i < j < |slots| ==> Precedes(slots[i], slots[j]))
  {
    if n > 0 {
      SlotsBeforeExact(sections, n - 1);
      hide EntryOfTable, CountOf;
      var rela := sections[n - 1].header;
      var before, own := SlotsBefore(sections, n - 1), TableSlots(rela, n - 1, CountOf(rela));
      TableExact(rela, n - 1);
      if sections[n - 1].IsRela() {
        OwnTable(sections, n - 1);
      }
    }
  }

  lemma OwnTable(sections: seq<Section>, t: nat)
    requires t < |sections| && sections[t].header.sectionType == 4
    ensures var own := TableSlots(sections[t].header, t, CountOf(sections[t].header));
            forall s :: s in own <==> IsEntry(sections, s) && s.table == t
  {
    TableExact(sections[t].header, t);
    assert forall s, k :: EntryOfTable(sections[t].header, t, s, k) ==> s.table == t;
    hide EntryOfTable, CountOf, TableSlots;
  }

  /** The entries the passes visit are those of the sections of type 4, table by table and in the tables' order;
      an entry size of 0 stands for 12 bytes. */
  lemma SlotsExact(sections: seq<Section>)
    ensures forall s :: s in Slots(sections) <==> IsEntry(sections, s)
    ensures forall i, j :: 0 <= i < j < |Slots(sections)| ==> Precedes(Slots(sections)[i], Slots(sections)[j])
  {
    SlotsBeforeExact(sections, |sections|);
  }

  // ----- one entry -----

  lemma ReadableOpens(data: seq<Byte>, sections: seq<Section>, rela: Header)
    ensures Readable(data, sections, rela) <==> OpenTable(data, sections, rela).Ok?
    ensures Readable(data, sections, rela) ==>
              && EntryCountOf(rela).Ok?
              && OpenTable(data, sections, rela).value.symbols == SymbolsOf(data, sections, rela.link).value
  {
    hide SymbolsOf;
  }

  lemma BranchExact(data: seq<Byte>, table: Table, entry: Entry)
    requires entry.Type() == 59
    ensures LocalBranch(data, table.target, table.rela.info, table.symbols, entry.SymbolIndex(), entry.offset,
                        entry.addend)
            <==> && entry.SymbolIndex() < |table.symbols|
                 && table.symbols[entry.SymbolIndex()].sectionIndex == table.rela.info
                 && ReadU32(data, table.target.offset + entry.offset).Ok?
                 && Branchi.Encodable(BranchOffset(table, entry))
  {
    ReadInRange(data, table.target.offset + entry.offset);
    hide ReadU32;
  }

  lemma ChangeExact(data: seq<Byte>, table: Table, branchi: set<int>, pos: nat)
    requires ReadEntry(data, pos).Ok?
    ensures var entry := ReadEntry(data, pos).value;
            EntryChange(data, table, branchi, pos).Ok? <==>
              (match entry.Type()
               case 58 => SixBytes(entry.offset, table.target)
               case 59 => LocalBranch(data, table.target, table.rela.info, table.symbols, entry.SymbolIndex(),
                                      entry.offset,
                                      entry.addend)
               case 60 => false
               case 61 => entry.SymbolIndex() == 0 && entry.addend == 0 && SixBytes(entry.offset, table.target)
               case _ => true)
  {
    hide ReadEntry, ReadU32, LocalBranch, Branchi.Encode, Branchi.Encodable, WordAt;
    var entry := ReadEntry(data, pos).value;
    if entry.Type() == 59 {
      BranchExact(data, table, entry);
      var word := ReadU32(data, table.target.offset + entry.offset);
      if word.Ok? {
        Branchi.DecodeEncode(word.value, BranchOffset(table, entry));
      }
    }
  }

  lemma EntryIsWords(data: seq<Byte>, pos: nat)
    requires pos + 12 <= |data|
    ensures ReadU32(data, pos).Ok? && ReadU32(data, pos + 4).Ok? && ReadU32(data, pos + 8).Ok?
    ensures var addend := ReadU32(data, pos + 8).value;
            ReadEntry(data, pos) == Ok(Entry(ReadU32(data, pos).value, ReadU32(data, pos + 4).value,
                                             if addend < 0x8000_0000 then addend else addend - 0x1_0000_0000))
  {
    ReadInRange(data, pos);
    ReadInRange(data, pos + 4);
    ReadInRange(data, pos + 8);
    hide ReadU32;
  }

  lemma SlotExact(data: seq<Byte>, sections: seq<Section>, branchi: set<int>, s: Slot)
    ensures Convertible(data, sections, s) <==> Changes(data, sections, branchi, s)
  {
    hide ReadU32, ReadEntry, SymbolsOf, EntryChange, LocalBranch, Readable, OpenTable;
    EntryInRange(data, s.pos);
    if IsSlot(sections, s) && s.pos + 12 <= |data| {
      var rela := sections[s.table].header;
      ReadableOpens(data, sections, rela);
      EntryIsWords(data, s.pos);
      if Readable(data, sections, rela) {
        ChangeExact(data, OpenTable(data, sections, rela).value, branchi, s.pos);
      }
    } else if IsSlot(sections, s) && TableOf(data, sections, s).Ok?
              && EntryChange(data, TableOf(data, sections, s).value, branchi, s.pos).Ok? {
      ChangeReads(data, TableOf(data, sections, s).value, branchi, s.pos);
    }
  }

  // ----- the passes go through -----

  lemma {:induction false} EntriesRun(data: seq<Byte>, sections: seq<Section>, branchi: set<int>, t: nat, k: nat,
                                      pass: Pass)
    requires WellFormed(data) && SectionsOf(data).value == sections
    requires t < |sections| && sections[t].IsRela() && OpenTable(data, sections, sections[t].header).Ok?
    requires k <= CountOf(sections[t].header) && AllChange(data, sections, branchi, Slots(sections))
    requires Reached(data, sections, branchi, Done(sections, t, k), pass)
    ensures RunEntries(pass, OpenTable(data, sections, sections[t].header).value, branchi, k).Ok?
    decreases CountOf(sections[t].header) - k
  {
    hide EntryChange, SectionsOf, SymbolsOf, WellFormed;
    var rela := sections[t].header;
    var table := OpenTable(data, sections, rela).value;
    if k < CountOf(rela) {
      var s := Slot(t, table.Pos(k));
      var done := Done(sections, t, k);
      assert Done(sections, t, k + 1) == done + [s];
      DonePrefix(sections, t, k + 1);
      assert Slots(sections)[|done|] == s && Changes(data, sections, branchi, s);
      NextEntry(data, sections, branchi, done, s);
      TallySnoc(data, sections, branchi, done, s);
      var change := EntryChange(pass.data, table, branchi, s.pos).value;
      EntriesRun(data, sections, branchi, t, k + 1, Pass(Over(pass.data, change.edits), pass.counts.Plus(change.kind)));
    }
  }

  lemma {:induction false} TablesRun(data: seq<Byte>, sections: seq<Section>, branchi: set<int>, t: nat, pass: Pass)
    requires WellFormed(data) && SectionsOf(data).value == sections && t <= |sections|
    requires Reached(data, sections, branchi, SlotsBefore(sections, t), pass)
    requires AllChange(data, sections, branchi, Slots(sections))
    requires forall u :: t <= u < |sections| && sections[u].IsRela() ==>
               OpenTable(data, sections, sections[u].header).Ok?
    ensures RunTables(pass, sections, branchi, t).Ok?
    decreases |sections| - t
  {
    hide WellFormed, SymbolsOf, SectionsOf, EntryChange;
    if t < |sections| {
      if !sections[t].IsRela() {
        TablesRun(data, sections, branchi, t + 1, pass);
      } else {
        var rela := sections[t].header;
        SlotsBeforePrefix(sections, t, |sections|);
        TableUnmoved(data, sections, branchi, SlotsBefore(sections, t), t);
        assert Done(sections, t, 0) == SlotsBefore(sections, t);
        EntriesRun(data, sections, branchi, t, 0, pass);
        var next := RunEntries(pass, OpenTable(data, sections, rela).value, branchi, 0).value;
        EntriesClosed(data, sections, branchi, t, 0, pass, next);
        assert Done(sections, t, CountOf(rela)) == SlotsBefore(sections, t + 1);
        TablesRun(data, sections, branchi, t + 1, next);
      }
    }
  }

  // ----- exactly when it succeeds -----

  ghost predicate AllConvertible(data: seq<Byte>) {
    forall a :: 0 <= a < |SlotsIn(data)| ==> Convertible(data, SectionsIn(data), SlotsIn(data)[a])
  }

  lemma Started(data: seq<Byte>, branchi: set<int>)
    requires SectionsOf(data).Ok?
    ensures Reached(data, SectionsIn(data), branchi, [], Pass(data, NO_COUNTS))
  {
    hide SectionsOf;
    assert Union([], EditsOf(data, SectionsIn(data), branchi)) == map[];
    assert After(data, SectionsIn(data), branchi, []) == data;
  }

  lemma ConvertibleNormalizes(data: seq<Byte>)
    requires WellFormed(data) && AllTablesReadable(data, SectionsIn(data)) && AllConvertible(data)
    ensures Normalized(data).Ok?
  {
    hide SectionsOf, Slots, Convertible, Readable, ReadEntry, Reached, Found, EntryCountOf, OpenTable, Changes;
    var sections := SectionsIn(data);
    assert SectionsOf(data) == Ok(sections) by { FormedOpens(data); }
    hide WellFormed;
    forall t | 0 <= t < |sections| && sections[t].IsRela()
      ensures OpenTable(data, sections, sections[t].header).Ok? && EntryCountOf(sections[t].header).Ok?
    {
      ReadableOpens(data, sections, sections[t].header);
    }
    forall a | 0 <= a < |SlotsIn(data)|
      ensures ReadEntry(data, SlotsIn(data)[a].pos).Ok?
    {
      ConvertibleReads(data, sections, SlotsIn(data)[a]);
    }
    assert SlotsIn(data) == Slots(sections);
    assert AllReadable(data, Slots(sections));
    NothingFound(data, sections);
    ScanTablesFinds(data, sections, 0, {});
    var branchi := BranchiIn(data);
    forall a | 0 <= a < |SlotsIn(data)|
      ensures Changes(data, sections, branchi, SlotsIn(data)[a])
    {
      SlotExact(data, sections, branchi, SlotsIn(data)[a]);
    }
    assert AllChange(data, sections, branchi, Slots(sections));
    Started(data, branchi);
    TablesRun(data, sections, branchi, 0, Pass(data, NO_COUNTS));
  }

  lemma FormedOpens(data: seq<Byte>)
    requires WellFormed(data)
    ensures SectionsOf(data) == Ok(SectionsIn(data))
  {
  }

  lemma ConvertibleReads(data: seq<Byte>, sections: seq<Section>, s: Slot)
    requires Convertible(data, sections, s)
    ensures ReadEntry(data, s.pos).Ok?
  {
    EntryInRange(data, s.pos);
    hide ReadEntry;
  }

  lemma NothingFound(data: seq<Byte>, sections: seq<Section>)
    ensures Found(data, sections, SlotsBefore(sections, 0), {})
  {
  }

  /** A well-formed object normalizes if and only if its relocation tables can be read and every entry can be
      converted, each judged by its own three words, its table and its target section. */
  lemma NormalizesExactly(data: seq<Byte>)
    requires WellFormed(data)
    ensures Normalized(data).Ok? <==> AllTablesReadable(data, SectionsIn(data)) && AllConvertible(data)
  {
    hide WellFormed, Normalized, SectionsIn, SlotsIn, Convertible, Readable, OpenTable, Changes;
    if AllTablesReadable(data, SectionsIn(data)) && AllConvertible(data) {
      ConvertibleNormalizes(data);
    }
    if Normalized(data).Ok? {
      var out := Normalized(data).value;
      Closed(data, out);
      forall t | 0 <= t < |SectionsIn(data)| && SectionsIn(data)[t].IsRela()
        ensures Readable(data, SectionsIn(data), SectionsIn(data)[t].header)
      {
        ReadableOpens(data, SectionsIn(data), SectionsIn(data)[t].header);
      }
      forall a | 0 <= a < |SlotsIn(data)|
        ensures Convertible(data, SectionsIn(data), SlotsIn(data)[a])
      {
        SlotsChange(data, out, a);
        SlotExact(data, SectionsIn(data), BranchiIn(data), SlotsIn(data)[a]);
      }
    }
  }

  // ----- what becomes of each entry -----

  /** The type that takes the place of `relocation`, in a section with or without branches. */
  function TypeAfter(relocation: Byte, branches: bool): Byte {
    match relocation
    case 58 => 1
    case 59 => 0
    case 61 => 0
    case 51 => if branches then 0 else 51
    case _ => relocation
  }

  /** Every entry of the output, word by word: its offset moves by two exactly for type 58, its type changes as
      the table says, and its symbol and addend stay. */
  lemma WordsAfter(data: seq<Byte>, out: Pass, a: nat)
    requires Succeeds(data, out) && a < |SlotsIn(data)|
    ensures var s := SlotsIn(data)[a]; var pos := s.pos;
            && pos + 12 <= |data| == |out.data|
            && var offset, info := ReadU32(data, pos).value, ReadU32(data, pos + 4).value;
               var branches := BranchesInto(data, SectionsIn(data), SlotsIn(data), TargetOf(data, s));
            && ReadU32(out.data, pos).Ok?
               && ReadU32(out.data, pos).value == offset + (if info % 256 == 58 then 2 else 0)
            && ReadU32(out.data, pos + 4).Ok?
            && ReadU32(out.data, pos + 4).value == info - info % 256 + TypeAfter(info % 256, branches)
            && ReadI32(out.data, pos + 8) == ReadI32(data, pos + 8)
  {
    hide WellFormed, Normalized, SectionsIn, SlotsIn, BranchiIn, ReadU32, ReadEntry, ReadI32, BranchesInto, Changes,
         NewEntry;
    var s := SlotsIn(data)[a];
    EntryAfter(data, out, a);
    EntryInRange(data, s.pos);
    SameLength(data, out);
    BranchiExact(data, out, TargetOf(data, s));
    if TypeOf(data, s) == 58 {
      LoadFits(data, out, a);
    }
    NewWords(data, out.data, s.pos, TargetOf(data, s) in BranchiIn(data));
  }

  lemma SameLength(data: seq<Byte>, out: Pass)
    requires Succeeds(data, out)
    ensures |out.data| == |data|
  {
    hide WellFormed, Normalized, SectionsIn, SlotsIn, BranchiIn, Changes;
    Closed(data, out);
  }

  lemma NewWords(data: seq<Byte>, now: seq<Byte>, pos: nat, branches: bool)
    requires ReadEntry(data, pos).Ok?
    requires ReadEntry(now, pos) == Ok(NewEntry(ReadEntry(data, pos).value, branches))
    requires ReadEntry(data, pos).value.Type() == 58 ==> ReadEntry(data, pos).value.offset + 6 <= 0xffff_ffff
    ensures ReadU32(data, pos).Ok? && ReadU32(data, pos + 4).Ok?
    ensures var offset, info := ReadU32(data, pos).value, ReadU32(data, pos + 4).value;
            && ReadU32(now, pos).Ok? && ReadU32(now, pos).value == offset + (if info % 256 == 58 then 2 else 0)
            && ReadU32(now, pos + 4).Ok?
            && ReadU32(now, pos + 4).value == info - info % 256 + TypeAfter(info % 256, branches)
            && ReadI32(now, pos + 8) == ReadI32(data, pos + 8)
  {
    hide ReadU32;
  }

  lemma LoadFits(data: seq<Byte>, out: Pass, a: nat)
    requires Succeeds(data, out) && a < |SlotsIn(data)| && TypeOf(data, SlotsIn(data)[a]) == 58
    ensures EntryOf(data, SlotsIn(data)[a]).offset + 6 <= 0xffff_ffff
  {
    hide WellFormed, Normalized, SectionsIn, SlotsIn, BranchiIn, ReadEntry, OpenTable;
    var s := SlotsIn(data)[a];
    SlotsChange(data, out, a);
    ChangeReads(data, TableOf(data, SectionsIn(data), s).value, BranchiIn(data), s.pos);
    ChangeExact(data, TableOf(data, SectionsIn(data), s).value, BranchiIn(data), s.pos);
  }

  lemma {:induction false} CountSame(slots: seq<Slot>, left: Slot -> bool, right: Slot -> bool)
    requires forall a :: 0 <= a < |slots| ==> left(slots[a]) == right(slots[a])
    ensures CountIf(slots, left) == CountIf(slots, right)
  {
    if slots != [] {
      CountSame(slots[..|slots| - 1], left, right);
    }
  }

  /** The four counts are the numbers of entries of type 58, 59, 51 in a section with a branch, and 61. */
  lemma CountsByType(data: seq<Byte>, out: Pass)
    requires Succeeds(data, out)
    ensures var slots := SlotsIn(data);
            && out.counts.llui48 == CountIf(slots, s => TypeOf(data, s) == 58)
            && out.counts.branch == CountIf(slots, s => TypeOf(data, s) == 59)
            && out.counts.relax == CountIf(slots, s => TypeOf(data, s) == 51
                                                       && BranchesInto(data, SectionsIn(data), slots,
                                                            TargetOf(data, s)))
            && out.counts.rep == CountIf(slots, s => TypeOf(data, s) == 61)
  {
    hide WellFormed, Normalized, SectionsIn, SlotsIn, BranchiIn, CountIf, TypeOf, TargetOf, BranchesInto;
    var slots := SlotsIn(data);
    CountsExact(data, out);
    forall a | 0 <= a < |slots|
      ensures BranchesInto(data, SectionsIn(data), slots, TargetOf(data, slots[a]))
         <==> TargetOf(data, slots[a]) in BranchiIn(data)
    {
      BranchiExact(data, out, TargetOf(data, slots[a]));
    }
    CountSame(slots, OfKind(data, Llui48), s => TypeOf(data, s) == 58);
    CountSame(slots, OfKind(data, Branch), s => TypeOf(data, s) == 59);
    CountSame(slots, OfKind(data, Relax), s => TypeOf(data, s) == 51
                                               && BranchesInto(data, SectionsIn(data), slots, TargetOf(data, s)));
    CountSame(slots, OfKind(data, Rep), s => TypeOf(data, s) == 61);
  }
}
