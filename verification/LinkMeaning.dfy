/** What both lanes mean: a stock linker that knows R_RISCV_32 and ignores R_RISCV_NONE produces, from the
    normalized object, the bytes the patch lane wrote, exactly when the lane found the linker's addresses. */
module LinkMeaning {
  import opened Bytes
  import opened ElfObject
  import opened Normalizer
  import opened NormalizerFacts
  import opened NormalizerTheorems
  import opened PatchLane
  import opened FinalLink
  import Branchi

  /** R_RISCV_32: store S + A, modulo 2^32, at the relocated offset. Every other type stores nothing
      here: NONE by definition, and the remaining types are left to the linker unchanged. */
  function LinkEdit(data: seq<Byte>, sections: seq<Section>, link: Link, s: Slot): Edits {
    if IsSlot(sections, s) && TableOf(data, sections, s).Ok?
    then LinkWord(TableOf(data, sections, s).value, link, EntryOf(data, s))
    else map[]
  }

  /** The word R_RISCV_32 stores for this entry, and where. */
  function LinkWord(table: Table, link: Link, entry: Entry): Edits {
    if entry.Type() == R_32 && LinkOf(table, link, entry).Some?
    then WordAt(table.target.offset + entry.offset, Mod32(LinkOf(table, link, entry).value + entry.addend))
    else map[]
  }

  /** S of the entry, by the linker. */
  function LinkOf(table: Table, link: Link, entry: Entry): Option<int> {
    if entry.SymbolIndex() < |table.symbols| then LinkAddress(link, table.symbols[entry.SymbolIndex()]) else None
  }

  /** S of the entry, by the patch lane. */
  function LaneOf(sections: seq<Section>, table: Table, layout: Layout, entry: Entry): Option<int> {
    if entry.SymbolIndex() < |table.symbols| then Address(sections, table.symbols[entry.SymbolIndex()], layout)
    else None
  }

  function LinkEditsOf(data: seq<Byte>, link: Link): Slot -> Edits {
    s => LinkEdit(data, SectionsIn(data), link, s)
  }

  /** The object's bytes after the link has applied its R_RISCV_32 and NONE relocations. */
  function Linked(data: seq<Byte>, link: Link): seq<Byte> {
    Over(data, Union(SlotsIn(data), LinkEditsOf(data, link)))
  }

  /** Relocated sections have a name and are not the null section. */
  ghost predicate ProperTargets(data: seq<Byte>) {
    forall t ::
      (0 <= t < |SectionsIn(data)| && SectionsIn(data)[t].IsRela()
       && SectionsIn(data)[t].header.info < |SectionsIn(data)|) ==>
      SectionsIn(data)[t].header.info != SHN_UNDEF && SectionsIn(data)[SectionsIn(data)[t].header.info].name != []
  }

  /** The normalizer succeeded on a well-formed object, and the patch lane resolved everything. */
  ghost predicate BothLanes(data: seq<Byte>, out: Pass, layout: Layout, patched: PatchPass) {
    && Succeeds(data, out) && ProperTargets(data)
    && PatchedObject(data, layout) == Ok(patched) && patched.counts.Complete()
  }

  predicate DebugTarget(data: seq<Byte>, s: Slot) {
    0 <= TargetOf(data, s) < |SectionsIn(data)| && IsDebug(SectionsIn(data)[TargetOf(data, s)].name)
  }

  lemma BothClosed(data: seq<Byte>, out: Pass, layout: Layout, patched: PatchPass)
    requires BothLanes(data, out, layout, patched)
    ensures AllOpen(data) && PatchReached(data, SectionsIn(data), layout, SlotsIn(data), patched)
  {
    hide WellFormed, Normalized, PatchedObject, SectionsIn, SlotsIn, OpenTable, PatchReached;
    Closed(data, out);
    PatchClosed(data, layout, patched);
  }

  /** Inside an entry's footprint the patched object shows that entry's own step. */
  lemma PatchedInside(data: seq<Byte>, out: Pass, layout: Layout, patched: PatchPass, a: nat, i: int)
    requires BothLanes(data, out, layout, patched) && a < |SlotsIn(data)|
    requires 0 <= i < |data| && InFoot(data, SectionsIn(data), SlotsIn(data)[a], i)
    ensures |patched.data| == |data|
    ensures patched.data[i] == Over(data, StepOf(data, SectionsIn(data), layout, SlotsIn(data)[a]).edits)[i]
  {
    hide Normalized, PatchedObject, SectionsOf, SlotsBefore, StepOf, InFoot, InHeaders, InSymbols;
    var sections, slots := SectionsIn(data), SlotsIn(data);
    BothClosed(data, out, layout, patched);
    forall b, y | 0 <= b < |slots| && y in PatchEditsOf(data, sections, layout)(slots[b])
      ensures FootOf(data, sections)(slots[b], y)
    {
      PatchEditsInFoot(data, sections, layout, slots[b], y);
    }
    UnionInside(slots, PatchEditsOf(data, sections, layout), FootOf(data, sections), a, i);
  }

  lemma PatchedSameOutside(data: seq<Byte>, out: Pass, layout: Layout, patched: PatchPass)
    requires BothLanes(data, out, layout, patched)
    ensures SameOutside(data, patched.data)
  {
    hide WellFormed, Normalized, PatchedObject, SectionsIn, SlotsIn, InFoot;
    BothClosed(data, out, layout, patched);
    forall i | 0 <= i < |data| && forall a :: 0 <= a < |SlotsIn(data)| ==>
        !InFoot(data, SectionsIn(data), SlotsIn(data)[a], i)
      ensures patched.data[i] == data[i]
    {
      PatchedOutside(data, SectionsIn(data), layout, SlotsIn(data), i);
    }
  }

  // ----- the patch lane's step, unfolded once -----

  function TableIn(data: seq<Byte>, s: Slot): Table
    requires IsSlot(SectionsIn(data), s) && TableOf(data, SectionsIn(data), s).Ok?
  {
    TableOf(data, SectionsIn(data), s).value
  }

  predicate Acts(entry: Entry, debug: bool) {
    entry.Type() in {R_LLUI48, R_BRANCHI, R_LLUI_REP} || (debug && entry.Type() != R_NONE)
  }

  /** The entry the patch lane leaves: neutralized if it acted on it. */
  function PatchedEntry(entry: Entry, debug: bool): Entry {
    if Acts(entry, debug) then entry.(info := entry.Retyped(R_NONE)) else entry
  }

  /** The word the patch lane stores at the entry's site, if it stores one. */
  function PatchWord(data: seq<Byte>, sections: seq<Section>, table: Table, name: seq<Byte>, layout: Layout,
                     entry: Entry): Option<U32> {
    if name !in layout.sections then None
    else
      match LaneOf(sections, table, layout, entry)
      case None => None
      case Some(address) =>
        if entry.Type() == R_LLUI48 then Some(Mod32(address + entry.addend))
        else
          var word := ReadU32(data, table.target.offset + entry.offset);
          if entry.Type() == R_BRANCHI && word.Ok? then
            Branchi.PatchEncode(word.value, address + entry.addend - (layout.sections[name] + entry.offset))
          else None
  }

  /** What the step stores, given that it did not give up. */
  ghost predicate StepStores(data: seq<Byte>, sections: seq<Section>, table: Table, name: seq<Byte>, layout: Layout,
                             pos: nat, edits: Edits)
    requires ReadEntry(data, pos).Ok?
  {
    var entry := ReadEntry(data, pos).value;
    if !Acts(entry, IsDebug(name)) then edits == map[]
    else if IsDebug(name) || entry.Type() == R_LLUI_REP then edits == WordAt(pos + 4, entry.Retyped(R_NONE))
    else
      var word := PatchWord(data, sections, table, name, layout, entry);
      && word.Some?
      && edits == WordAt(table.target.offset + SiteOffset(entry).value, word.value) +
           WordAt(pos + 4, entry.Retyped(R_NONE))
  }

  lemma PatchStepUnfolded(data: seq<Byte>, sections: seq<Section>, table: Table, name: seq<Byte>, layout: Layout,
                          pos: nat)
    requires ReadEntry(data, pos).Ok?
    requires var site := SiteOffset(ReadEntry(data, pos).value);
             site.Some? ==> table.target.offset + site.value + 4 <= |data|
    ensures var step := PatchChange(data, sections, table, name, layout, pos);
            && step.Ok?
            && (step.value.outcome !in {MissingLayout, Unresolved} ==>
                  StepStores(data, sections, table, name, layout, pos, step.value.edits))
  {
    hide ReadEntry, ReadU32, Branchi.PatchEncode, Address, WordAt;
    ReadInRange(data, table.target.offset + ReadEntry(data, pos).value.offset);
  }

  lemma StoredEntry(data: seq<Byte>, sections: seq<Section>, table: Table, name: seq<Byte>, layout: Layout, pos: nat,
                    edits: Edits)
    requires ReadEntry(data, pos).Ok? && StepStores(data, sections, table, name, layout, pos, edits)
    requires var site := SiteOffset(ReadEntry(data, pos).value);
             site.Some? ==> pos + 12 <= table.target.offset + site.value || table.target.offset + site.value + 4 <= pos
    ensures ReadEntry(Over(data, edits), pos) == Ok(PatchedEntry(ReadEntry(data, pos).value, IsDebug(name)))
  {
    hide ReadEntry, ReadU32, PatchWord, WordAt, Over;
    var entry := ReadEntry(data, pos).value;
    if Acts(entry, IsDebug(name)) {
      EntryStored(data, edits, pos, PatchedEntry(entry, IsDebug(name)));
    } else {
      OverNothing(data);
    }
  }

  /** Everything known about one entry and its step in the patch lane. */
  lemma SlotStep(data: seq<Byte>, out: Pass, layout: Layout, patched: PatchPass, a: nat)
    requires BothLanes(data, out, layout, patched) && a < |SlotsIn(data)|
    ensures var s, sections := SlotsIn(data)[a], SectionsIn(data);
            && IsSlot(sections, s) && TableOf(data, sections, s).Ok? && ReadEntry(data, s.pos).Ok?
            && var table := TableIn(data, s);
               var name := sections[table.rela.info].name;
            && StepStores(data, sections, table, name, layout, s.pos, StepOf(data, sections, layout, s).edits)
            && ReadEntry(patched.data, s.pos) == Ok(PatchedEntry(EntryOf(data, s), IsDebug(name)))
  {
    hide WellFormed, Normalized, PatchedObject, PatchChange, SectionsOf, Slots, SymbolsOf, ReadEntry, StepStores,
         BranchiIn, Over;
    var s, sections := SlotsIn(data)[a], SectionsIn(data);
    BothClosed(data, out, layout, patched);
    SlotsChange(data, out, a);
    EntryAfter(data, out, a);
    OpenIsPatchTable(data, s.table);
    var table := TableIn(data, s);
    var name := sections[table.rela.info].name;
    SiteInFile(data, a);
    PatchStepUnfolded(data, sections, table, name, layout, s.pos);
    var edits := StepOf(data, sections, layout, s).edits;
    if SiteOf(data, sections, s).Some? {
      SiteApart(data, a);
    }
    StoredEntry(data, sections, table, name, layout, s.pos, edits);
    EntryInRange(data, s.pos);
    forall i | s.pos <= i < s.pos + 12
      ensures |patched.data| == |data| && patched.data[i] == Over(data, edits)[i]
    {
      assert InEntry(s, i);
      PatchedInside(data, out, layout, patched, a, i);
    }
    EntryLocal(Over(data, edits), patched.data, s.pos);
  }

  /** How many of `slots` the lane writes a value for, and how many entries it neutralizes, by their types. */
  function PatchCountsOf(data: seq<Byte>, slots: seq<Slot>): PatchCounts {
    if slots == [] then PatchCounts(0, 0, 0, 0)
    else
      var front, s := PatchCountsOf(data, slots[..|slots| - 1]), slots[|slots| - 1];
      var relocation, debug := TypeOf(data, s), DebugTarget(data, s);
      PatchCounts(front.patched + (if relocation in {58, 59} && !debug then 1 else 0),
                  front.neutralized + (if relocation in {58, 59, 61} || (debug && relocation != 0) then 1 else 0),
                  0, 0)
  }

  lemma StepCounted(data: seq<Byte>, out: Pass, layout: Layout, patched: PatchPass, a: nat)
    requires BothLanes(data, out, layout, patched) && a < |SlotsIn(data)|
    ensures var s := SlotsIn(data)[a];
            var outcome := StepOf(data, SectionsIn(data), layout, s).outcome;
            var relocation, debug := TypeOf(data, s), DebugTarget(data, s);
            && (outcome == Patched <==> relocation in {58, 59} && !debug)
            && (outcome == Untouched <==> !(relocation in {58, 59, 61} || (debug && relocation != 0)))
            && outcome in {Patched, Neutralized, Untouched}
  {
    hide WellFormed, Normalized, PatchedObject, SectionsOf, Slots, SymbolsOf, ReadEntry, BranchiIn, PatchEditsOf,
         Address, ReadU32, Branchi.PatchEncode, WordAt;
    var s, sections := SlotsIn(data)[a], SectionsIn(data);
    BothClosed(data, out, layout, patched);
    SlotsChange(data, out, a);
    EntryAfter(data, out, a);
    OpenIsPatchTable(data, s.table);
    SiteInFile(data, a);
    PatchStepUnfolded(data, sections, TableIn(data, s), sections[TableIn(data, s).rela.info].name, layout, s.pos);
  }

  lemma {:induction false} TallyExact(data: seq<Byte>, out: Pass, layout: Layout, patched: PatchPass, slots: seq<Slot>)
    requires BothLanes(data, out, layout, patched) && slots <= SlotsIn(data)
    ensures PatchTally(data, SectionsIn(data), layout, slots) == PatchCountsOf(data, slots)
  {
    hide BothLanes, SectionsIn, SlotsIn, StepOf, DebugTarget, TypeOf;
    if slots != [] {
      TallyExact(data, out, layout, patched, slots[..|slots| - 1]);
      StepCounted(data, out, layout, patched, |slots| - 1);
    }
  }

  /** The counts of a run that resolved everything: a value for each 48-bit load and each branch outside debug
      sections, and a neutralized entry for these, for each marker, and for all that a debug section holds. */
  lemma PatchCountsExact(data: seq<Byte>, out: Pass, layout: Layout, patched: PatchPass)
    requires BothLanes(data, out, layout, patched)
    ensures patched.counts == PatchCountsOf(data, SlotsIn(data))
  {
    hide WellFormed, Normalized, PatchedObject, SectionsIn, SlotsIn, PatchTally, PatchCountsOf;
    BothClosed(data, out, layout, patched);
    TallyExact(data, out, layout, patched, SlotsIn(data));
  }

  lemma SiteInFile(data: seq<Byte>, a: nat)
    requires WellFormed(data) && a < |SlotsIn(data)|
    ensures var site := SiteOf(data, SectionsIn(data), SlotsIn(data)[a]);
            site.Some? ==> site.value + 4 <= |data|
  {
    hide SectionsOf, SlotsBefore, InFoot, InHeaders, InSymbols, SiteOf;
  }

  // ----- the link, entry by entry -----

  /** The link stores only inside footprints of the original object's entries. */
  ghost predicate LinksInFoot(data: seq<Byte>, now: seq<Byte>, link: Link) {
    forall b, y :: 0 <= b < |SlotsIn(data)| && y in LinkEdit(now, SectionsIn(data), link, SlotsIn(data)[b])
      ==> InFoot(data, SectionsIn(data), SlotsIn(data)[b], y)
  }

  lemma LinkInside(data: seq<Byte>, now: seq<Byte>, link: Link, a: nat, i: int)
    requires WellFormed(data) && SameOutside(data, now) && LinksInFoot(data, now, link)
    requires a < |SlotsIn(data)| && 0 <= i < |data| && InFoot(data, SectionsIn(data), SlotsIn(data)[a], i)
    ensures Linked(now, link)[i] == Over(now, LinkEdit(now, SectionsIn(data), link, SlotsIn(data)[a]))[i]
  {
    hide SectionsOf, SlotsBefore, InFoot, InHeaders, InSymbols, LinkEdit, OpenTable;
    TablesKept(data, now);
    UnionInside(SlotsIn(data), LinkEditsOf(now, link), FootOf(data, SectionsIn(data)), a, i);
  }

  lemma LinkOutside(data: seq<Byte>, now: seq<Byte>, link: Link, i: int)
    requires WellFormed(data) && SameOutside(data, now) && LinksInFoot(data, now, link) && 0 <= i < |data|
    requires forall b :: 0 <= b < |SlotsIn(data)| ==> !InFoot(data, SectionsIn(data), SlotsIn(data)[b], i)
    ensures Linked(now, link)[i] == data[i]
  {
    hide SectionsIn, Slots, InFoot, LinkEdit, OpenTable;
    TablesKept(data, now);
    UnionOutside(SlotsIn(data), LinkEditsOf(now, link), FootOf(data, SectionsIn(data)), i);
  }

  lemma LinkEditIs(data: seq<Byte>, now: seq<Byte>, link: Link, s: Slot, entry: Entry)
    requires WellFormed(data) && SameOutside(data, now) && IsSlot(SectionsIn(data), s)
    requires TableOf(data, SectionsIn(data), s).Ok? && ReadEntry(now, s.pos) == Ok(entry)
    ensures LinkEdit(now, SectionsIn(data), link, s) == LinkWord(TableIn(data, s), link, entry)
  {
    hide WellFormed, SameOutside, SectionsIn, OpenTable, ReadEntry, Address, WordAt;
    TablesKept(data, now);
  }

  lemma NormalizedLinksInFoot(data: seq<Byte>, out: Pass, link: Link)
    requires Succeeds(data, out)
    ensures LinksInFoot(data, out.data, link)
  {
    hide WellFormed, Normalized, SectionsIn, SlotsIn, BranchiIn, ReadEntry, EntryChange, OpenTable, LinkEdit, Address;
    NormalizedOutside(data, out);
    forall b, y | 0 <= b < |SlotsIn(data)| && y in LinkEdit(out.data, SectionsIn(data), link, SlotsIn(data)[b])
      ensures InFoot(data, SectionsIn(data), SlotsIn(data)[b], y)
    {
      var s := SlotsIn(data)[b];
      SlotsChange(data, out, b);
      EntryAfter(data, out, b);
      LinkEditIs(data, out.data, link, s, NewEntry(EntryOf(data, s), TargetOf(data, s) in BranchiIn(data)));
      ChangeKind(data, TableIn(data, s), BranchiIn(data), s.pos);
      RetypedFields(EntryOf(data, s), R_NONE);
      assert InSite(data, SectionsIn(data), s, y);
    }
  }

  lemma PatchedLinksInFoot(data: seq<Byte>, out: Pass, layout: Layout, link: Link, patched: PatchPass)
    requires BothLanes(data, out, layout, patched)
    ensures LinksInFoot(data, patched.data, link)
  {
    hide WellFormed, Normalized, PatchedObject, SectionsIn, SlotsIn, BranchiIn, ReadEntry, OpenTable, LinkEdit, Address,
         StepStores;
    PatchedSameOutside(data, out, layout, patched);
    forall b, y | 0 <= b < |SlotsIn(data)| && y in LinkEdit(patched.data, SectionsIn(data), link, SlotsIn(data)[b])
      ensures InFoot(data, SectionsIn(data), SlotsIn(data)[b], y)
    {
      var s := SlotsIn(data)[b];
      SlotStep(data, out, layout, patched, b);
      var name := SectionsIn(data)[TableIn(data, s).rela.info].name;
      LinkEditIs(data, patched.data, link, s, PatchedEntry(EntryOf(data, s), IsDebug(name)));
      RetypedFields(EntryOf(data, s), R_NONE);
      assert InSite(data, SectionsIn(data), s, y);
    }
  }

  // ----- agreement at one relocated word -----

  /** In a branch whose symbol is in its own section, both bases cancel. */
  lemma BasesCancel(sections: seq<Section>, table: Table, layout: Layout, entry: Entry)
    requires entry.SymbolIndex() < |table.symbols| && table.symbols[entry.SymbolIndex()].sectionIndex == table.rela.info
    requires 0 < table.rela.info < |sections| && sections[table.rela.info].name in layout.sections
    ensures Address(sections, table.symbols[entry.SymbolIndex()], layout).Some?
    ensures Address(sections, table.symbols[entry.SymbolIndex()], layout).value + entry.addend
            - (layout.sections[sections[table.rela.info].name] + entry.offset) == BranchOffset(table, entry)
  {
  }

  /** The two linked bytes, reduced to the entry's own contribution. */
  lemma BothSides(data: seq<Byte>, out: Pass, layout: Layout, link: Link, patched: PatchPass, a: nat, i: int)
    requires BothLanes(data, out, layout, patched) && a < |SlotsIn(data)| && 0 <= i < |data|
    requires InFoot(data, SectionsIn(data), SlotsIn(data)[a], i)
    ensures var s, sections := SlotsIn(data)[a], SectionsIn(data);
            && IsSlot(sections, s) && TableOf(data, sections, s).Ok?
            && var table, entry := TableIn(data, s), EntryOf(data, s);
               var name := sections[table.rela.info].name;
            && |out.data| == |patched.data| == |data|
            && Linked(out.data, link)[i]
            == Over(out.data, LinkWord(table, link, NewEntry(entry, TargetOf(data, s) in BranchiIn(data))))[i]
            && Linked(patched.data, link)[i]
            == Over(patched.data, LinkWord(table, link, PatchedEntry(entry, IsDebug(name))))[i]
  {
    hide WellFormed, Normalized, PatchedObject, SectionsIn, SlotsIn, BranchiIn, ReadEntry, OpenTable, LinkEdit, Linked,
         LinksInFoot, LinkWord, StepStores, Over;
    var s := SlotsIn(data)[a];
    SlotStep(data, out, layout, patched, a);
    EntryAfter(data, out, a);
    NormalizedOutside(data, out);
    PatchedSameOutside(data, out, layout, patched);
    NormalizedLinksInFoot(data, out, link);
    PatchedLinksInFoot(data, out, layout, link, patched);
    LinkInside(data, out.data, link, a, i);
    LinkInside(data, patched.data, link, a, i);
    var name := SectionsIn(data)[TableIn(data, s).rela.info].name;
    LinkEditIs(data, out.data, link, s, NewEntry(EntryOf(data, s), TargetOf(data, s) in BranchiIn(data)));
    LinkEditIs(data, patched.data, link, s, PatchedEntry(EntryOf(data, s), IsDebug(name)));
  }

  predicate SameAt(left: seq<Byte>, right: seq<Byte>, i: nat) {
    i < |left| && i < |right| && left[i] == right[i]
  }

  /** At a vendor site the patched object holds the patch lane's word. */
  lemma PatchedSite(data: seq<Byte>, out: Pass, layout: Layout, patched: PatchPass, a: nat, i: int)
    requires BothLanes(data, out, layout, patched) && a < |SlotsIn(data)| && 0 <= i < |data|
    requires InSite(data, SectionsIn(data), SlotsIn(data)[a], i) && !DebugTarget(data, SlotsIn(data)[a])
    requires TypeOf(data, SlotsIn(data)[a]) in {R_LLUI48, R_BRANCHI}
    ensures var s, sections := SlotsIn(data)[a], SectionsIn(data);
            && IsSlot(sections, s) && TableOf(data, sections, s).Ok?
            && var table, entry := TableIn(data, s), EntryOf(data, s);
               var name := sections[table.rela.info].name;
               var word := PatchWord(data, sections, table, name, layout, entry);
            && word.Some? && !IsDebug(name) && |patched.data| == |data|
            && i in WordAt(table.target.offset + SiteOffset(entry).value, word.value)
            && patched.data[i] == WordAt(table.target.offset + SiteOffset(entry).value, word.value)[i]
  {
    hide WellFormed, Normalized, PatchedObject, SectionsIn, SlotsIn, ReadEntry, OpenTable, PatchWord, WordAt, StepOf;
    SlotStep(data, out, layout, patched, a);
    SiteApart(data, a);
    PatchedInside(data, out, layout, patched, a, i);
  }

  // ----- the addresses of both sides -----

  function EntrySymbolIn(data: seq<Byte>, s: Slot): Option<Symbol> {
    if IsSlot(SectionsIn(data), s) && TableOf(data, SectionsIn(data), s).Ok?
       && EntryOf(data, s).SymbolIndex() < |TableIn(data, s).symbols|
    then Some(TableIn(data, s).symbols[EntryOf(data, s).SymbolIndex()])
    else None
  }

  /** The address the patch lane takes for the entry's symbol. */
  function LaneS(data: seq<Byte>, layout: Layout, s: Slot): Option<int> {
    match EntrySymbolIn(data, s)
    case None => None
    case Some(symbol) => Address(SectionsIn(data), symbol, layout)
  }

  /** The address the linker gives it. */
  function LinkS(data: seq<Byte>, link: Link, s: Slot): Option<int> {
    match EntrySymbolIn(data, s)
    case None => None
    case Some(symbol) => LinkAddress(link, symbol)
  }

  predicate IsLoad(data: seq<Byte>, s: Slot) { TypeOf(data, s) == R_LLUI48 && !DebugTarget(data, s) }

  /** The link finds every symbol a 48-bit load refers to. */
  ghost predicate LoadsResolve(data: seq<Byte>, link: Link) {
    forall a :: 0 <= a < |SlotsIn(data)| && IsLoad(data, SlotsIn(data)[a]) ==> LinkS(data, link, SlotsIn(data)[a]).Some?
  }

  predicate SameAddress(data: seq<Byte>, layout: Layout, link: Link, s: Slot) {
    && LaneS(data, layout, s).Some? && LinkS(data, link, s).Some?
    && Mod32(LaneS(data, layout, s).value) == Mod32(LinkS(data, link, s).value)
  }

  /** At every 48-bit load outside debug sections, lane and linker have the same address modulo 2^32. */
  ghost predicate LoadsAgree(data: seq<Byte>, layout: Layout, link: Link) {
    forall a :: 0 <= a < |SlotsIn(data)| && IsLoad(data, SlotsIn(data)[a]) ==>
        SameAddress(data, layout, link, SlotsIn(data)[a])
  }

  /** The byte at `i` is the one that storing this word would store. */
  predicate ShowsWord(bytes: seq<Byte>, at: int, w: U32, i: int) {
    at <= i < at + 4 && 0 <= i < |bytes| && bytes[i] == WordAt(at, w)[i]
  }

  function LoadAt(data: seq<Byte>, s: Slot): int {
    if SiteOf(data, SectionsIn(data), s).Some? then SiteOf(data, SectionsIn(data), s).value else -1
  }

  /** A 48-bit load: the normalized object links to the linker's address, the patch lane wrote its own. */
  lemma Llui48Words(data: seq<Byte>, out: Pass, layout: Layout, link: Link, patched: PatchPass, a: nat, i: int)
    requires BothLanes(data, out, layout, patched) && a < |SlotsIn(data)| && 0 <= i < |data|
    requires InSite(data, SectionsIn(data), SlotsIn(data)[a], i) && IsLoad(data, SlotsIn(data)[a])
    requires LinkS(data, link, SlotsIn(data)[a]).Some?
    ensures var s, addend := SlotsIn(data)[a], EntryOf(data, SlotsIn(data)[a]).addend;
            && LaneS(data, layout, s).Some?
            && ShowsWord(Linked(out.data, link), LoadAt(data, s), Mod32(LinkS(data, link, s).value + addend), i)
            && ShowsWord(Linked(patched.data, link), LoadAt(data, s), Mod32(LaneS(data, layout, s).value + addend), i)
  {
    hide WellFormed, Normalized, PatchedObject, SectionsIn, SlotsIn, BranchiIn, ReadEntry, OpenTable, EntryChange,
         Address, LinkAddress, WordAt, BothLanes, InSite, DebugTarget, Linked, SiteOf, LoadAt;
    var s, sections := SlotsIn(data)[a], SectionsIn(data);
    LoadSite(data, out, layout, patched, a);
    PatchedSite(data, out, layout, patched, a, i);
    BothSides(data, out, layout, link, patched, a, i);
    Llui48InRange(data, out, layout, patched, a);
    LinkedLength(out.data, link);
    LinkedLength(patched.data, link);
    var table, entry := TableIn(data, s), EntryOf(data, s);
    RetypedFields(entry, R_32);
    RetypedFields(entry, R_NONE);
  }

  lemma Llui48Agrees(data: seq<Byte>, out: Pass, layout: Layout, link: Link, patched: PatchPass, a: nat, i: int)
    requires BothLanes(data, out, layout, patched) && a < |SlotsIn(data)| && 0 <= i < |data|
    requires InSite(data, SectionsIn(data), SlotsIn(data)[a], i) && IsLoad(data, SlotsIn(data)[a])
    requires SameAddress(data, layout, link, SlotsIn(data)[a])
    ensures SameAt(Linked(out.data, link), Linked(patched.data, link), i)
  {
    hide BothLanes, SectionsIn, SlotsIn, InSite, IsLoad, LaneS, LinkS, Linked, WordAt, OpenTable, EntryOf;
    var s := SlotsIn(data)[a];
    Llui48Words(data, out, layout, link, patched, a, i);
    Mod32Add(LaneS(data, layout, s).value, LinkS(data, link, s).value, EntryOf(data, s).addend);
  }

  lemma Mod32Add(x: int, y: int, addend: int)
    ensures Mod32(x) == Mod32(y) <==> Mod32(x + addend) == Mod32(y + addend)
  {
  }

  /** Words stored at the same place are the same if their bytes are. */
  lemma WordAtDetermines(bytes: seq<Byte>, at: int, v: U32, w: U32)
    requires forall i {:trigger ShowsWord(bytes, at, v, i)} :: at <= i < at + 4 ==>
               ShowsWord(bytes, at, v, i) && ShowsWord(bytes, at, w, i)
    ensures v == w
  {
    WordAtRoundTrip(at, v);
    WordAtRoundTrip(at, w);
    assert ShowsWord(bytes, at, v, at) && ShowsWord(bytes, at, v, at + 1) && ShowsWord(bytes, at, v, at + 2)
        && ShowsWord(bytes, at, v, at + 3);
  }

  /** Where a load's four bytes come out the same, the addresses are the same. */
  lemma Llui48Tells(data: seq<Byte>, out: Pass, layout: Layout, link: Link, patched: PatchPass, a: nat)
    requires BothLanes(data, out, layout, patched) && a < |SlotsIn(data)|
    requires IsLoad(data, SlotsIn(data)[a]) && LinkS(data, link, SlotsIn(data)[a]).Some?
    requires forall i: nat :: i < |data| && InSite(data, SectionsIn(data), SlotsIn(data)[a], i) ==>
               SameAt(Linked(out.data, link), Linked(patched.data, link), i)
    ensures SameAddress(data, layout, link, SlotsIn(data)[a])
  {
    hide BothLanes, SectionsIn, SlotsIn, LaneS, LinkS, Linked, WordAt, OpenTable, EntryOf, DebugTarget, ReadEntry;
    var s := SlotsIn(data)[a];
    LoadSite(data, out, layout, patched, a);
    var site := LoadAt(data, s);
    assert InSite(data, SectionsIn(data), s, site);
    Llui48Words(data, out, layout, link, patched, a, site);
    var lane, linked := LaneS(data, layout, s).value, LinkS(data, link, s).value;
    var addend, bytes := EntryOf(data, s).addend, Linked(out.data, link);
    var ours, theirs := Mod32(linked + addend), Mod32(lane + addend);
    forall i {:trigger ShowsWord(bytes, site, ours, i)} {:trigger ShowsWord(bytes, site, theirs, i)}
      | site <= i < site + 4
      ensures ShowsWord(bytes, site, ours, i) && ShowsWord(bytes, site, theirs, i)
    {
      assert InSite(data, SectionsIn(data), s, i);
      Llui48Words(data, out, layout, link, patched, a, i);
      assert SameAt(bytes, Linked(patched.data, link), i);
    }
    WordAtDetermines(bytes, site, ours, theirs);
    Mod32Add(lane, linked, addend);
  }

  lemma LoadSite(data: seq<Byte>, out: Pass, layout: Layout, patched: PatchPass, a: nat)
    requires BothLanes(data, out, layout, patched) && a < |SlotsIn(data)| && IsLoad(data, SlotsIn(data)[a])
    ensures var s := SlotsIn(data)[a];
            && SiteOf(data, SectionsIn(data), s).Some? && SiteOf(data, SectionsIn(data), s).value + 4 <= |data|
            && IsSlot(SectionsIn(data), s) && TableOf(data, SectionsIn(data), s).Ok?
            && LoadAt(data, s) == TableIn(data, s).target.offset + EntryOf(data, s).offset + 2
  {
    hide WellFormed, Normalized, PatchedObject, SectionsIn, SlotsIn, ReadEntry, SymbolsOf, StepStores;
    SlotStep(data, out, layout, patched, a);
    SiteInFile(data, a);
  }

  lemma Llui48InRange(data: seq<Byte>, out: Pass, layout: Layout, patched: PatchPass, a: nat)
    requires BothLanes(data, out, layout, patched) && a < |SlotsIn(data)| && TypeOf(data, SlotsIn(data)[a]) == R_LLUI48
    ensures EntryOf(data, SlotsIn(data)[a]).offset + 6 <= U32_MAX
  {
    hide WellFormed, Normalized, PatchedObject, SectionsIn, SlotsIn, BranchiIn, ReadEntry, OpenTable, EntryChange;
    var s := SlotsIn(data)[a];
    SlotsChange(data, out, a);
    ChangeReads(data, TableOf(data, SectionsIn(data), s).value, BranchiIn(data), s.pos);
    ChangeKind(data, TableOf(data, SectionsIn(data), s).value, BranchiIn(data), s.pos);
  }

  /** A branch: both lanes encoded the same displacement into the same word. */
  lemma BranchAgrees(data: seq<Byte>, out: Pass, layout: Layout, link: Link, patched: PatchPass, a: nat, i: int)
    requires BothLanes(data, out, layout, patched) && a < |SlotsIn(data)| && 0 <= i < |data|
    requires InSite(data, SectionsIn(data), SlotsIn(data)[a], i) && !DebugTarget(data, SlotsIn(data)[a])
    requires TypeOf(data, SlotsIn(data)[a]) == R_BRANCHI
    ensures SameAt(Linked(out.data, link), Linked(patched.data, link), i)
  {
    hide WellFormed, Normalized, PatchedObject, SectionsIn, SlotsIn, BranchiIn, ReadEntry, ReadU32, OpenTable, Address,
         WordAt, DebugTarget, Branchi.Encode, Branchi.PatchEncode;
    var s, sections := SlotsIn(data)[a], SectionsIn(data);
    PatchedSite(data, out, layout, patched, a, i);
    BothSides(data, out, layout, link, patched, a, i);
    BranchAfter(data, out, a);
    var table, entry := TableIn(data, s), EntryOf(data, s);
    RetypedFields(entry, R_NONE);
    BasesCancel(sections, table, layout, entry);
    var site := table.target.offset + entry.offset;
    var word := ReadU32(data, site).value;
    Branchi.EncodersAgree(word, BranchOffset(table, entry));
    StoredByte(out.data, site, i);
  }

  /** A byte of a word is the byte that storing the word would store. */
  lemma StoredByte(data: seq<Byte>, at: nat, i: int)
    requires ReadU32(data, at).Ok? && at <= i < at + 4
    ensures i < |data| && data[i] == WordAt(at, ReadU32(data, at).value)[i]
  {
    WordBytes(data[at], data[at + 1], data[at + 2], data[at + 3]);
  }

  /** A relocated word that was R_RISCV_32 from the start: neither lane touched it. */
  lemma PlainAgrees(data: seq<Byte>, out: Pass, layout: Layout, link: Link, patched: PatchPass, a: nat, i: int)
    requires BothLanes(data, out, layout, patched) && a < |SlotsIn(data)| && 0 <= i < |data|
    requires InSite(data, SectionsIn(data), SlotsIn(data)[a], i) && !DebugTarget(data, SlotsIn(data)[a])
    requires TypeOf(data, SlotsIn(data)[a]) == R_32
    ensures SameAt(Linked(out.data, link), Linked(patched.data, link), i)
  {
    hide WellFormed, Normalized, PatchedObject, SectionsIn, SlotsIn, BranchiIn, ReadEntry, OpenTable, Address, WordAt,
         LinkWord, StepOf;
    var s, sections := SlotsIn(data)[a], SectionsIn(data);
    BothSides(data, out, layout, link, patched, a, i);
    SlotStep(data, out, layout, patched, a);
    SiteApart(data, a);
    PatchedInside(data, out, layout, patched, a, i);
    SlotsChange(data, out, a);
    OutputInside(data, out, a, i);
  }

  /** Bytes outside RELA entries and outside words relocated in debug sections. */
  ghost predicate Compared(data: seq<Byte>, i: int) {
    forall a :: 0 <= a < |SlotsIn(data)| ==>
      && !InEntry(SlotsIn(data)[a], i)
      && (InSite(data, SectionsIn(data), SlotsIn(data)[a], i) ==> !DebugTarget(data, SlotsIn(data)[a]))
  }

  /** A byte is the same in both linked objects, unless a 48-bit load there has two addresses. */
  lemma SameByte(data: seq<Byte>, out: Pass, layout: Layout, link: Link, patched: PatchPass, i: nat)
    requires BothLanes(data, out, layout, patched) && i < |data| && Compared(data, i)
    requires forall a ::
               (0 <= a < |SlotsIn(data)| && InSite(data, SectionsIn(data), SlotsIn(data)[a], i)
                && IsLoad(data, SlotsIn(data)[a])) ==>
               SameAddress(data, layout, link, SlotsIn(data)[a])
    ensures SameAt(Linked(out.data, link), Linked(patched.data, link), i)
  {
    hide WellFormed, Normalized, PatchedObject, SectionsIn, SlotsIn, ReadEntry, Linked, InEntry, LinksInFoot,
         SameAddress;
    NormalizedOutside(data, out);
    PatchedSameOutside(data, out, layout, patched);
    if a :| 0 <= a < |SlotsIn(data)| && InSite(data, SectionsIn(data), SlotsIn(data)[a], i) {
      if TypeOf(data, SlotsIn(data)[a]) == R_LLUI48 {
        Llui48Agrees(data, out, layout, link, patched, a, i);
      } else if TypeOf(data, SlotsIn(data)[a]) == R_BRANCHI {
        BranchAgrees(data, out, layout, link, patched, a, i);
      } else {
        PlainAgrees(data, out, layout, link, patched, a, i);
      }
    } else {
      NormalizedLinksInFoot(data, out, link);
      PatchedLinksInFoot(data, out, layout, link, patched);
      LinkOutside(data, out.data, link, i);
      LinkOutside(data, patched.data, link, i);
      LinkedLength(out.data, link);
      LinkedLength(patched.data, link);
    }
  }

  /** The bytes of a relocated word are compared, if its section is not a debug section. */
  lemma SiteCompared(data: seq<Byte>, a: nat, i: int)
    requires WellFormed(data) && a < |SlotsIn(data)| && !DebugTarget(data, SlotsIn(data)[a])
    requires InSite(data, SectionsIn(data), SlotsIn(data)[a], i)
    ensures Compared(data, i)
  {
    hide SectionsOf, SlotsBefore, InEntry, InSite, InHeaders, InSymbols, DebugTarget, SiteOf;
    var slots := SlotsIn(data);
    forall b | 0 <= b < |slots|
      ensures !InEntry(slots[b], i)
      ensures InSite(data, SectionsIn(data), slots[b], i) ==> b == a
    {
      assert InFoot(data, SectionsIn(data), slots[a], i);
      if InFoot(data, SectionsIn(data), slots[b], i) && b != a {
        assert false;
      }
    }
  }

  ghost predicate SameCode(data: seq<Byte>, left: seq<Byte>, right: seq<Byte>) {
    forall i: nat :: i < |data| && Compared(data, i) ==> SameAt(left, right, i)
  }

  /** For every layout the lane was given and every link: both lanes give the same linked bytes, outside
      RELA entries and words relocated in debug sections, if and only if at every 48-bit load the lane's
      address is the linker's, modulo 2^32. Branches and plain words never differ. */
  lemma SameLinkedBytes(data: seq<Byte>, out: Pass, layout: Layout, link: Link, patched: PatchPass)
    requires BothLanes(data, out, layout, patched) && LoadsResolve(data, link)
    ensures |out.data| == |patched.data| == |data|
    ensures SameCode(data, Linked(out.data, link), Linked(patched.data, link)) <==> LoadsAgree(data, layout, link)
  {
    hide WellFormed, Normalized, PatchedObject, SectionsIn, SlotsIn, Linked, Compared, InSite, SameAddress, SameAt,
         LinkS, ProperTargets;
    NormalizedOutside(data, out);
    PatchedSameOutside(data, out, layout, patched);
    if SameCode(data, Linked(out.data, link), Linked(patched.data, link)) {
      forall a | 0 <= a < |SlotsIn(data)| && IsLoad(data, SlotsIn(data)[a])
        ensures SameAddress(data, layout, link, SlotsIn(data)[a])
      {
        forall i: nat | i < |data| && InSite(data, SectionsIn(data), SlotsIn(data)[a], i)
          ensures SameAt(Linked(out.data, link), Linked(patched.data, link), i)
        {
          SiteCompared(data, a, i);
        }
        Llui48Tells(data, out, layout, link, patched, a);
      }
    }
    if LoadsAgree(data, layout, link) {
      forall i: nat | i < |data| && Compared(data, i)
        ensures SameAt(Linked(out.data, link), Linked(patched.data, link), i)
      {
        SameByte(data, out, layout, link, patched, i);
      }
    }
  }

  /** What has to be checked of an object and its link: section names are distinct, and each load's symbol is
      one that the map or the final symbol table tells. */
  ghost predicate LoadsTold(data: seq<Byte>, link: Link) {
    && PlacedOnce(link.lines) && DistinctNames(SectionsIn(data))
    && forall a :: 0 <= a < |SlotsIn(data)| && IsLoad(data, SlotsIn(data)[a]) ==>
         var symbol := EntrySymbolIn(data, SlotsIn(data)[a]);
         symbol.Some? && (DefinedHere(link, SectionsIn(data), symbol.value)
             || DefinedElsewhere(link, SectionsIn(data), symbol.value))
  }

  /** With distinct section names, the layout the lane reads back from the link gives the linked bytes of
      the normalized object. */
  lemma DistinctNamesSuffice(data: seq<Byte>, out: Pass, link: Link, patched: PatchPass)
    requires BothLanes(data, out, LaneLayout(link, SectionsIn(data)), patched) && LoadsTold(data, link)
    ensures SameCode(data, Linked(out.data, link), Linked(patched.data, link))
  {
    hide BothLanes, SectionsIn, SlotsIn, SameCode, DefinedHere, DefinedElsewhere, EntrySymbolIn, IsLoad, DistinctNames,
         PlacedOnce;
    var layout := LaneLayout(link, SectionsIn(data));
    forall a | 0 <= a < |SlotsIn(data)| && IsLoad(data, SlotsIn(data)[a])
      ensures SameAddress(data, layout, link, SlotsIn(data)[a]) && LinkS(data, link, SlotsIn(data)[a]).Some?
    {
      AddressAgrees(link, SectionsIn(data), EntrySymbolIn(data, SlotsIn(data)[a]).value);
    }
    SameLinkedBytes(data, out, layout, link, patched);
  }

  lemma LinkedLength(data: seq<Byte>, link: Link)
    ensures |Linked(data, link)| == |data|
  {
  }

  /** What is left to the linker is the same record in both lanes: all entries of other types, RELAX
      markers apart. */
  lemma SameRemainingEntries(data: seq<Byte>, out: Pass, layout: Layout, patched: PatchPass, a: nat)
    requires BothLanes(data, out, layout, patched) && a < |SlotsIn(data)| && !DebugTarget(data, SlotsIn(data)[a])
    requires TypeOf(data, SlotsIn(data)[a]) !in {R_LLUI48, R_BRANCHI, R_LLUI_REP, R_RELAX}
    ensures var s := SlotsIn(data)[a];
            && ReadEntry(out.data, s.pos) == ReadEntry(patched.data, s.pos) == ReadEntry(data, s.pos)
            && ReadEntry(data, s.pos).Ok?
  {
    hide WellFormed, Normalized, PatchedObject, SectionsIn, SlotsIn, BranchiIn, ReadEntry, OpenTable, StepStores;
    SlotStep(data, out, layout, patched, a);
    EntryAfter(data, out, a);
  }
}
