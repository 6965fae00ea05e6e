/** What a successful normalization leaves behind, entry by entry, on objects whose relocation entries,
    relocated words and tables do not overlap. */
module NormalizerFacts {
  import opened Bytes
  import opened ElfObject
  import opened Normalizer
  import Branchi

  /** One relocation entry: the RELA section it belongs to and its file offset. */
  datatype Slot = Slot(table: nat, pos: nat)

  // ----- the entries of an object, in processing order -----

  function TableSlots(rela: Header, t: nat, k: nat): (r: seq<Slot>)
    ensures |r| == k
  {
    if k == 0 then [] else TableSlots(rela, t, k - 1) + [Slot(t, EntryAt(rela.offset, EntrySizeOf(rela), k - 1))]
  }

  function CountOf(rela: Header): nat {
    var count := EntryCountOf(rela);
    if count.Ok? then count.value else 0
  }

  function SlotsBefore(sections: seq<Section>, t: nat): seq<Slot>
    requires t <= |sections|
  {
    if t == 0 then []
    else if !sections[t - 1].IsRela() then SlotsBefore(sections, t - 1)
    else SlotsBefore(sections, t - 1) + TableSlots(sections[t - 1].header, t - 1, CountOf(sections[t - 1].header))
  }

  function Slots(sections: seq<Section>): seq<Slot> {
    SlotsBefore(sections, |sections|)
  }

  lemma {:induction false} TableSlotsPrefix(rela: Header, t: nat, k: nat, n: nat)
    requires k <= n
    ensures TableSlots(rela, t, k) <= TableSlots(rela, t, n)
  {
    if k < n { TableSlotsPrefix(rela, t, k, n - 1); }
  }

  lemma {:induction false} SlotsBeforePrefix(sections: seq<Section>, t: nat, n: nat)
    requires t <= n <= |sections|
    ensures SlotsBefore(sections, t) <= SlotsBefore(sections, n)
  {
    if t < n { SlotsBeforePrefix(sections, t, n - 1); }
  }

  /** The entries handled when entry `k` of table `t` is reached. */
  function Done(sections: seq<Section>, t: nat, k: nat): seq<Slot>
    requires t < |sections|
  {
    SlotsBefore(sections, t) + TableSlots(sections[t].header, t, k)
  }

  lemma DonePrefix(sections: seq<Section>, t: nat, k: nat)
    requires t < |sections| && sections[t].IsRela() && k <= CountOf(sections[t].header)
    ensures Done(sections, t, k) <= Slots(sections)
  {
    var rela := sections[t].header;
    TableSlotsPrefix(rela, t, k, CountOf(rela));
    SlotsBeforePrefix(sections, t + 1, |sections|);
  }

  lemma {:induction false} SlotTables(sections: seq<Section>, t: nat, a: nat)
    requires t <= |sections| && a < |SlotsBefore(sections, t)|
    ensures var s := SlotsBefore(sections, t)[a]; s.table < t && sections[s.table].IsRela()
  {
    var before := SlotsBefore(sections, t - 1);
    if a < |before| {
      SlotTables(sections, t - 1, a);
    } else {
      TableSlotsTable(sections[t - 1].header, t - 1, CountOf(sections[t - 1].header), a - |before|);
    }
  }

  lemma {:induction false} TableSlotsTable(rela: Header, t: nat, k: nat, a: nat)
    requires a < k
    ensures TableSlots(rela, t, k)[a].table == t
  {
    if a < k - 1 { TableSlotsTable(rela, t, k - 1, a); }
  }

  // ----- footprints -----

  predicate IsSlot(sections: seq<Section>, s: Slot) {
    s.table < |sections| && sections[s.table].IsRela()
  }

  function TableOf(data: seq<Byte>, sections: seq<Section>, s: Slot): Result<Table, Error>
    requires IsSlot(sections, s)
  {
    OpenTable(data, sections, sections[s.table].header)
  }

  /** Offset of the word a relocation of this type patches: two bytes in for the 48-bit load. */
  function SiteOffset(entry: Entry): Option<nat> {
    if entry.Type() == R_LLUI48 then Some(entry.offset + 2)
    else if entry.Type() == R_BRANCHI || entry.Type() == R_32 then Some(entry.offset)
    else None
  }

  /** File offset of the word the entry relocates, if its type relocates one. */
  function SiteOf(data: seq<Byte>, sections: seq<Section>, s: Slot): Option<nat> {
    if IsSlot(sections, s) && ReadEntry(data, s.pos).Ok? && sections[s.table].header.info < |sections| then
      match SiteOffset(ReadEntry(data, s.pos).value)
      case None => None
      case Some(offset) => Some(sections[sections[s.table].header.info].header.offset + offset)
    else None
  }

  predicate InEntry(s: Slot, i: int) { InSpan(i, s.pos, 12) }

  predicate InSite(data: seq<Byte>, sections: seq<Section>, s: Slot, i: int) {
    var site := SiteOf(data, sections, s);
    site.Some? && InSpan(i, site.value, 4)
  }

  predicate InFoot(data: seq<Byte>, sections: seq<Section>, s: Slot, i: int) {
    InEntry(s, i) || InSite(data, sections, s, i)
  }

  /** Entries and relocated words are pairwise disjoint, in the file, and apart from every header,
      symbol table and string table that is read. */
  ghost predicate WellFormed(data: seq<Byte>) {
    && SectionsOf(data).Ok?
    && var sections := SectionsOf(data).value;
    && var slots := Slots(sections);
    && (forall a, b, i :: 0 <= a < b < |slots| && InFoot(data, sections, slots[a], i) ==>
         !InFoot(data, sections, slots[b], i))
    && (forall a, i :: 0 <= a < |slots| && InEntry(slots[a], i) ==> !InSite(data, sections, slots[a], i))
    && (forall a, i :: 0 <= a < |slots| && InFoot(data, sections, slots[a], i) ==> !InHeaders(data, i))
    && (forall a, t, i ::
          0 <= a < |slots| && 0 <= t < |sections| && sections[t].IsRela() && InFoot(data, sections, slots[a], i) ==>
            !InSymbols(sections, sections[t].header.link, i))
    && (forall a :: 0 <= a < |slots| && SiteOf(data, sections, slots[a]).Some?
          ==> SiteOf(data, sections, slots[a]).value + 4 <= |data|)
  }

  // ----- each entry's own change -----

  ghost predicate Changes(data: seq<Byte>, sections: seq<Section>, branchi: set<int>, s: Slot) {
    && IsSlot(sections, s)
    && TableOf(data, sections, s).Ok?
    && EntryChange(data, TableOf(data, sections, s).value, branchi, s.pos).Ok?
  }

  function ChangeOf(data: seq<Byte>, sections: seq<Section>, branchi: set<int>, s: Slot): Change {
    if IsSlot(sections, s) && TableOf(data, sections, s).Ok?
       && EntryChange(data, TableOf(data, sections, s).value, branchi, s.pos).Ok?
    then EntryChange(data, TableOf(data, sections, s).value, branchi, s.pos).value
    else Change(map[], Kept)
  }

  function EditsOf(data: seq<Byte>, sections: seq<Section>, branchi: set<int>): Slot -> Edits {
    s => ChangeOf(data, sections, branchi, s).edits
  }

  function FootOf(data: seq<Byte>, sections: seq<Section>): (Slot, int) -> bool {
    (s, i) => InFoot(data, sections, s, i)
  }

  function Tally(data: seq<Byte>, sections: seq<Section>, branchi: set<int>, slots: seq<Slot>): Counts {
    if slots == [] then NO_COUNTS
    else Tally(data, sections, branchi, slots[..|slots| - 1]).Plus(ChangeOf(data, sections, branchi,
        slots[|slots| - 1]).kind)
  }

  lemma EditsInFoot(data: seq<Byte>, sections: seq<Section>, branchi: set<int>, s: Slot, i: int)
    requires i in ChangeOf(data, sections, branchi, s).edits
    ensures InFoot(data, sections, s, i)
  {
  }

  lemma EditsSeparate(data: seq<Byte>, branchi: set<int>)
    requires WellFormed(data)
    ensures var sections := SectionsOf(data).value;
            Separate(Slots(sections), EditsOf(data, sections, branchi), FootOf(data, sections))
  {
    var sections := SectionsOf(data).value;
    forall a, i | 0 <= a < |Slots(sections)| && i in EditsOf(data, sections, branchi)(Slots(sections)[a])
      ensures FootOf(data, sections)(Slots(sections)[a], i)
    {
      EditsInFoot(data, sections, branchi, Slots(sections)[a], i);
    }
  }

  /** An entry's change depends only on its footprint. */
  lemma ChangeLocal(data: seq<Byte>, now: seq<Byte>, sections: seq<Section>, branchi: set<int>, s: Slot)
    requires IsSlot(sections, s) && TableOf(data, sections, s).Ok?
    requires |now| == |data| && forall i :: 0 <= i < |data| && InFoot(data, sections, s, i) ==> now[i] == data[i]
    ensures ReadEntry(now, s.pos) == ReadEntry(data, s.pos)
    ensures EntryChange(now, TableOf(data, sections, s).value, branchi, s.pos)
         == EntryChange(data, TableOf(data, sections, s).value, branchi, s.pos)
  {
    hide ReadU32, ReadI32, ReadEntry, SymbolsOf, Branchi.Encode, WordAt, Over;
    var table := TableOf(data, sections, s).value;
    forall i | s.pos <= i < s.pos + 12 && i < |data|
      ensures now[i] == data[i]
    {
      assert InEntry(s, i);
    }
    EntryLocal(data, now, s.pos);
    var entry := ReadEntry(data, s.pos);
    if entry.Ok? && entry.value.Type() == R_BRANCHI {
      var site := table.target.offset + entry.value.offset;
      forall i | site <= i < site + 4 && i < |data|
        ensures now[i] == data[i]
      {
        assert InSite(data, sections, s, i);
      }
      WordLocal(data, now, site);
    }
  }

  lemma WordLocal(data: seq<Byte>, now: seq<Byte>, at: nat)
    requires |now| == |data| && forall i {:trigger data[i]} :: at <= i < at + 4 && i < |data| ==> now[i] == data[i]
    ensures ReadU32(now, at) == ReadU32(data, at)
  {
  }

  lemma StoredWord(data: seq<Byte>, edits: Edits, at: nat, value: U32)
    requires at + 4 <= |data|
    requires forall i :: at <= i < at + 4 ==> i in edits && edits[i] == WordAt(at, value)[i]
    ensures ReadU32(Over(data, edits), at) == Ok(value)
  {
    WordAtRoundTrip(at, value);
    var now := Over(data, edits);
    assert now[at] == edits[at] && now[at + 1] == edits[at + 1] && now[at + 2] == edits[at + 2]
        && now[at + 3] == edits[at + 3];
  }

  lemma KeptWord(data: seq<Byte>, edits: Edits, at: nat)
    requires forall i :: at <= i < at + 4 ==> i !in edits
    ensures ReadU32(Over(data, edits), at) == ReadU32(data, at)
  {
    WordLocal(data, Over(data, edits), at);
  }

  lemma EntryLocal(data: seq<Byte>, now: seq<Byte>, at: nat)
    requires |now| == |data| && forall i {:trigger data[i]} :: at <= i < at + 12 && i < |data| ==> now[i] == data[i]
    ensures ReadEntry(now, at) == ReadEntry(data, at)
  {
    WordLocal(data, now, at);
    WordLocal(data, now, at + 4);
    WordLocal(data, now, at + 8);
  }

  // ----- the fold is the union of the entries' changes -----

  /** The bytes once the entries of `done` have been handled. */
  function After(data: seq<Byte>, sections: seq<Section>, branchi: set<int>, done: seq<Slot>): seq<Byte> {
    Over(data, Union(done, EditsOf(data, sections, branchi)))
  }

  lemma AfterOutside(data: seq<Byte>, sections: seq<Section>, branchi: set<int>, done: seq<Slot>, i: int)
    requires 0 <= i < |data|
    requires forall a :: 0 <= a < |done| ==> !InFoot(data, sections, done[a], i)
    ensures After(data, sections, branchi, done)[i] == data[i]
  {
    forall a, y | 0 <= a < |done| && y in EditsOf(data, sections, branchi)(done[a])
      ensures FootOf(data, sections)(done[a], y)
    {
      EditsInFoot(data, sections, branchi, done[a], y);
    }
    UnionOutside(done, EditsOf(data, sections, branchi), FootOf(data, sections), i);
  }

  /** The next entry changes exactly what it would have changed in the original object. */
  lemma NextEntry(data: seq<Byte>, sections: seq<Section>, branchi: set<int>, done: seq<Slot>, s: Slot)
    requires WellFormed(data) && SectionsOf(data).value == sections
    requires IsSlot(sections, s) && TableOf(data, sections, s).Ok? && done + [s] <= Slots(sections)
    ensures var now := After(data, sections, branchi, done);
            var change := EntryChange(now, TableOf(data, sections, s).value, branchi, s.pos);
            && change == EntryChange(data, TableOf(data, sections, s).value, branchi, s.pos)
            && (change.Ok? ==> After(data, sections, branchi, done + [s]) == Over(now, change.value.edits))
  {
    hide EntryChange, ReadEntry, OpenTable, SectionsOf;
    var slots := Slots(sections);
    var now := After(data, sections, branchi, done);
    assert forall a :: 0 <= a < |done| ==> slots[a] == (done + [s])[a] == done[a];
    assert slots[|done|] == s;
    forall i | 0 <= i < |data| && InFoot(data, sections, s, i)
      ensures now[i] == data[i]
    {
      AfterOutside(data, sections, branchi, done, i);
    }
    ChangeLocal(data, now, sections, branchi, s);
    UnionSnoc(done, s, EditsOf(data, sections, branchi));
    OverOver(data, Union(done, EditsOf(data, sections, branchi)), EditsOf(data, sections, branchi)(s));
  }

  lemma TallySnoc(data: seq<Byte>, sections: seq<Section>, branchi: set<int>, done: seq<Slot>, s: Slot)
    ensures Tally(data, sections, branchi, done + [s])
         == Tally(data, sections, branchi, done).Plus(ChangeOf(data, sections, branchi, s).kind)
  {
    assert (done + [s])[..|done|] == done;
  }

  ghost predicate AllChange(data: seq<Byte>, sections: seq<Section>, branchi: set<int>, slots: seq<Slot>) {
    forall a :: 0 <= a < |slots| ==> Changes(data, sections, branchi, slots[a])
  }

  /** The state of the pass once the entries of `done` have been handled. */
  ghost predicate Reached(data: seq<Byte>, sections: seq<Section>, branchi: set<int>, done: seq<Slot>, pass: Pass) {
    && pass.data == After(data, sections, branchi, done)
    && pass.counts == Tally(data, sections, branchi, done)
    && AllChange(data, sections, branchi, done)
  }

  lemma {:induction false} EntriesClosed(data: seq<Byte>, sections: seq<Section>, branchi: set<int>, t: nat, k: nat,
                                         pass: Pass, out: Pass)
    requires WellFormed(data) && SectionsOf(data).value == sections
    requires t < |sections| && sections[t].IsRela() && OpenTable(data, sections, sections[t].header).Ok?
    requires k <= CountOf(sections[t].header)
    requires Reached(data, sections, branchi, Done(sections, t, k), pass)
    requires RunEntries(pass, OpenTable(data, sections, sections[t].header).value, branchi, k) == Ok(out)
    ensures Reached(data, sections, branchi, Done(sections, t, CountOf(sections[t].header)), out)
    decreases CountOf(sections[t].header) - k
  {
    hide EntryChange, SectionsOf, SymbolsOf, WellFormed;
    var rela := sections[t].header;
    var table := OpenTable(data, sections, rela).value;
    if k < CountOf(rela) {
      var s := Slot(t, table.Pos(k));
      var done := Done(sections, t, k);
      assert Done(sections, t, k + 1) == done + [s];
      DonePrefix(sections, t, k + 1);
      NextEntry(data, sections, branchi, done, s);
      TallySnoc(data, sections, branchi, done, s);
      var change := EntryChange(pass.data, table, branchi, s.pos).value;
      var next := Pass(Over(pass.data, change.edits), pass.counts.Plus(change.kind));
      EntriesClosed(data, sections, branchi, t, k + 1, next, out);
    }
  }

  lemma {:induction false} TablesClosed(data: seq<Byte>, sections: seq<Section>, branchi: set<int>, t: nat, pass: Pass,
                                        out: Pass)
    requires WellFormed(data) && SectionsOf(data).value == sections && t <= |sections|
    requires Reached(data, sections, branchi, SlotsBefore(sections, t), pass)
    requires RunTables(pass, sections, branchi, t) == Ok(out)
    ensures Reached(data, sections, branchi, Slots(sections), out)
    ensures forall u :: t <= u < |sections| && sections[u].IsRela() ==>
              OpenTable(data, sections, sections[u].header).Ok?
    decreases |sections| - t
  {
    hide WellFormed, SymbolsOf, SectionsOf, EntryChange;
    if t < |sections| {
      if !sections[t].IsRela() {
        TablesClosed(data, sections, branchi, t + 1, pass, out);
      } else {
        var rela := sections[t].header;
        SlotsBeforePrefix(sections, t, |sections|);
        TableUnmoved(data, sections, branchi, SlotsBefore(sections, t), t);
        assert Done(sections, t, 0) == SlotsBefore(sections, t);
        var next := RunEntries(pass, OpenTable(data, sections, rela).value, branchi, 0).value;
        EntriesClosed(data, sections, branchi, t, 0, pass, next);
        assert Done(sections, t, CountOf(rela)) == SlotsBefore(sections, t + 1);
        TablesClosed(data, sections, branchi, t + 1, next, out);
      }
    }
  }

  /** The tables read as they did before any rewriting. */
  lemma TableUnmoved(data: seq<Byte>, sections: seq<Section>, branchi: set<int>, done: seq<Slot>, t: nat)
    requires WellFormed(data) && SectionsOf(data).value == sections && done <= Slots(sections)
    requires t < |sections| && sections[t].IsRela()
    ensures OpenTable(After(data, sections, branchi, done), sections, sections[t].header) ==
            OpenTable(data, sections, sections[t].header)
  {
    var now := After(data, sections, branchi, done);
    forall i | 0 <= i < |data| && InSymbols(sections, sections[t].header.link, i)
      ensures now[i] == data[i]
    {
      assert forall a :: 0 <= a < |done| ==> done[a] == Slots(sections)[a];
      AfterOutside(data, sections, branchi, done, i);
    }
    SymbolsLocal(now, data, sections, sections[t].header.link);
  }
}
