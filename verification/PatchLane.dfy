/** The older lane, `patch_object` in patch mode: given the final layout, it writes every vendor
    relocation's value into the object and neutralizes the entry. It is the executable meaning of the
    vendor relocations. */
module PatchLane {
  import opened Bytes
  import opened ElfObject
  import opened Normalizer
  import opened NormalizerFacts
  import opened NormalizerTheorems
  import Branchi

  const DEBUG_PREFIX: seq<Byte> := [0x2e, 0x64, 0x65, 0x62, 0x75, 0x67]

  /** The final link: addresses of this member's sections by name, and of global symbols by name. */
  datatype Layout = Layout(sections: map<seq<Byte>, int>, symbols: map<seq<Byte>, int>)

  datatype Outcome = Patched | Neutralized | MissingLayout | Unresolved | Untouched

  datatype PatchCounts = PatchCounts(patched: nat, neutralized: nat, missing: nat, unresolved: nat) {
    function Plus(outcome: Outcome): PatchCounts {
      match outcome
      case Patched => this.(patched := patched + 1, neutralized := neutralized + 1)
      case Neutralized => this.(neutralized := neutralized + 1)
      case MissingLayout => this.(missing := missing + 1)
      case Unresolved => this.(unresolved := unresolved + 1)
      case Untouched => this
    }

    predicate Complete() { missing == 0 && unresolved == 0 }
  }

  datatype PatchStep = PatchStep(edits: Edits, outcome: Outcome)
  datatype PatchPass = PatchPass(data: seq<Byte>, counts: PatchCounts)

  predicate IsDebug(name: seq<Byte>) { DEBUG_PREFIX <= name }

  /** `local_symbol_addr`: the base of the symbol's own section plus its value. */
  function LocalAddress(sections: seq<Section>, symbol: Symbol, layout: Layout): Option<int> {
    if symbol.sectionIndex == SHN_UNDEF || symbol.sectionIndex >= |sections| then None
    else if sections[symbol.sectionIndex].name in layout.sections then
      Some(layout.sections[sections[symbol.sectionIndex].name] + symbol.value)
    else None
  }

  /** By section base, else by name in the final symbol table. */
  function Address(sections: seq<Section>, symbol: Symbol, layout: Layout): Option<int> {
    var own := LocalAddress(sections, symbol, layout);
    if own.Some? then own
    else if symbol.name != [] && symbol.name in layout.symbols then Some(layout.symbols[symbol.name])
    else None
  }

  /** What the lane does to one entry; it never raises an error of its own, it counts. */
  function PatchChange(data: seq<Byte>, sections: seq<Section>, table: Table, name: seq<Byte>, layout: Layout,
                       pos: nat): Result<PatchStep, Error> {
    var entry :- ReadEntry(data, pos);
    var neutral := WordAt(pos + 4, entry.Retyped(R_NONE));
    if IsDebug(name) && entry.Type() != R_NONE then Ok(PatchStep(neutral, Neutralized))
    else if entry.Type() == R_LLUI_REP then Ok(PatchStep(neutral, Neutralized))
    else if entry.Type() != R_BRANCHI && entry.Type() != R_LLUI48 then Ok(PatchStep(map[], Untouched))
    else if name !in layout.sections then Ok(PatchStep(map[], MissingLayout))
    else if entry.SymbolIndex() >= |table.symbols| then Ok(PatchStep(map[], Unresolved))
    else
      match Address(sections, table.symbols[entry.SymbolIndex()], layout)
      case None => Ok(PatchStep(map[], Unresolved))
      case Some(address) =>
        if entry.Type() == R_BRANCHI then
          var site := table.target.offset + entry.offset;
          var word :- ReadU32(data, site);
          match Branchi.PatchEncode(word, address + entry.addend - (layout.sections[name] + entry.offset))
          case None => Ok(PatchStep(map[], Unresolved))
          case Some(encoded) => Ok(PatchStep(WordAt(site, encoded) + neutral, Patched))
        else
          var site := table.target.offset + entry.offset + 2;
          var _ :- CheckedRange(data, site, 4);
          Ok(PatchStep(WordAt(site, Mod32(address + entry.addend)) + neutral, Patched))
  }

  function FloorCount(size: nat, entrySize: nat): nat
    requires entrySize > 0
  {
    size / entrySize
  }

  /** The table the lane works on, or nothing when it skips the RELA section. */
  function PatchTable(data: seq<Byte>, sections: seq<Section>, rela: Header): Option<Table> {
    if rela.info >= |sections| || sections[rela.info].name == [] then None
    else
      var symbols := SymbolsOf(data, sections, rela.link);
      Some(Table(rela, sections[rela.info].header, if symbols.Ok? then symbols.value else [],
                 FloorCount(rela.size, EntrySizeOf(rela))))
  }

  function PatchEntries(pass: PatchPass, sections: seq<Section>, table: Table, name: seq<Byte>, layout: Layout,
                        k: nat): Result<PatchPass, Error>
    decreases table.count - k
  {
    if k >= table.count then Ok(pass)
    else
      var step :- PatchChange(pass.data, sections, table, name, layout, table.Pos(k));
      PatchEntries(PatchPass(Over(pass.data, step.edits), pass.counts.Plus(step.outcome)), sections, table, name,
                   layout, k + 1)
  }

  /** The tables in order; sections and symbols come from `original`, read before any rewriting. */
  function PatchTables(original: seq<Byte>, pass: PatchPass, sections: seq<Section>, layout: Layout,
                       t: nat): Result<PatchPass, Error>
    decreases |sections| - t
  {
    if t >= |sections| then Ok(pass)
    else if !sections[t].IsRela() then PatchTables(original, pass, sections, layout, t + 1)
    else
      match PatchTable(original, sections, sections[t].header)
      case None => PatchTables(original, pass, sections, layout, t + 1)
      case Some(table) =>
        var next :- PatchEntries(pass, sections, table, sections[table.rela.info].name, layout, 0);
        PatchTables(original, next, sections, layout, t + 1)
  }

  const NO_PATCHES := PatchCounts(0, 0, 0, 0)

  function PatchedObject(data: seq<Byte>, layout: Layout): Result<PatchPass, Error> {
    var sections :- SectionsOf(data);
    PatchTables(data, PatchPass(data, NO_PATCHES), sections, layout, 0)
  }

  // ----- the in-place code -----

  /** The body of the patching loop for one entry of the object `obj`. */
  method PatchEntry(obj: array<Byte>, sections: seq<Section>, table: Table, name: seq<Byte>, layout: Layout, pos: nat)
    returns (r: Result<Outcome, Error>)
    modifies obj
    ensures var step := PatchChange(old(obj[..]), sections, table, name, layout, pos);
            if step.Err? then r == Err(step.error)
            else r == Ok(step.value.outcome) && obj[..] == Over(old(obj[..]), step.value.edits)
  {
    hide ReadEntry, ReadU32, Over, WordAt, Branchi.PatchEncode, Address;
    EntryInRange(obj[..], pos);
    var size := obj.Length;
    assert obj[..] == obj[0..size];
    var entry :- ReadEntry(obj[..], pos);
    if (IsDebug(name) && entry.Type() != R_NONE) || entry.Type() == R_LLUI_REP {
      var _ := PutU32(obj, 0, size, pos + 4, entry.Retyped(R_NONE));
      assert obj[..] == obj[0..size];
      return Ok(Neutralized);
    }
    if entry.Type() != R_BRANCHI && entry.Type() != R_LLUI48 { return Ok(Untouched); }
    if name !in layout.sections { return Ok(MissingLayout); }
    if entry.SymbolIndex() >= |table.symbols| { return Ok(Unresolved); }
    var address := Address(sections, table.symbols[entry.SymbolIndex()], layout);
    if address.None? { return Ok(Unresolved); }
    var site := table.target.offset + entry.offset + if entry.Type() == R_BRANCHI then 0 else 2;
    var value: U32;
    if entry.Type() == R_BRANCHI {
      ReadInRange(obj[..], site);
      var word :- ReadU32(obj[..], site);
      var encoded := Branchi.PatchEncode(word, address.value + entry.addend - (layout.sections[name] + entry.offset));
      if encoded.None? { return Ok(Unresolved); }
      value := encoded.value;
    } else {
      var _ :- CheckedRange(obj[..], site, 4);
      value := Mod32(address.value + entry.addend);
    }
    ghost var step := PatchChange(obj[..], sections, table, name, layout, pos);
    assert step == Ok(PatchStep(WordAt(site, value) + WordAt(pos + 4, entry.Retyped(R_NONE)), Patched));
    PutTwo(obj, 0, size, site, value, pos + 4, entry.Retyped(R_NONE));
    assert obj[..] == obj[0..size];
    return Ok(Patched);
  }

  /** Patch the whole object in place. */
  method PatchObject(obj: array<Byte>, layout: Layout) returns (r: Result<PatchCounts, Error>)
    modifies obj
    ensures var run := PatchedObject(old(obj[..]), layout);
            if run.Err? then r == Err(run.error) else r == Ok(run.value.counts) && obj[..] == run.value.data
  {
    hide SectionsOf, SymbolsOf, PatchChange, EntryCountOf;
    var original := obj[..];
    var sections :- ParseSections(original);
    var counts := NO_PATCHES;
    for t := 0 to |sections|
      invariant PatchTables(original, PatchPass(original, NO_PATCHES), sections, layout, 0)
             == PatchTables(original, PatchPass(obj[..], counts), sections, layout, t)
    {
      if sections[t].IsRela() {
        var found := PatchTable(original, sections, sections[t].header);
        if found.Some? {
          var table := found.value;
          var name := sections[table.rela.info].name;
          ghost var before := PatchPass(obj[..], counts);
          for k := 0 to table.count
            invariant PatchEntries(before, sections, table, name, layout, 0)
                   == PatchEntries(PatchPass(obj[..], counts), sections, table, name, layout, k)
          {
            var outcome :- PatchEntry(obj, sections, table, name, layout, table.Pos(k));
            counts := counts.Plus(outcome);
          }
        }
      }
    }
    return Ok(counts);
  }

  // ----- the fold is the union of the entries' changes -----

  function StepOf(data: seq<Byte>, sections: seq<Section>, layout: Layout, s: Slot): PatchStep {
    if IsSlot(sections, s) && PatchTable(data, sections, sections[s.table].header).Some? then
      var table := PatchTable(data, sections, sections[s.table].header).value;
      var step := PatchChange(data, sections, table, sections[table.rela.info].name, layout, s.pos);
      if step.Ok? then step.value else PatchStep(map[], Untouched)
    else PatchStep(map[], Untouched)
  }

  function PatchEditsOf(data: seq<Byte>, sections: seq<Section>, layout: Layout): Slot -> Edits {
    s => StepOf(data, sections, layout, s).edits
  }

  function PatchedBy(data: seq<Byte>, sections: seq<Section>, layout: Layout, done: seq<Slot>): (r: seq<Byte>)
    ensures |r| == |data|
  {
    Over(data, Union(done, PatchEditsOf(data, sections, layout)))
  }

  /** No entry was left for want of layout or symbol. */
  ghost predicate AllResolved(data: seq<Byte>, sections: seq<Section>, layout: Layout, slots: seq<Slot>) {
    forall a :: 0 <= a < |slots| ==> StepOf(data, sections, layout, slots[a]).outcome !in {MissingLayout, Unresolved}
  }

  ghost predicate PatchReached(data: seq<Byte>, sections: seq<Section>, layout: Layout, done: seq<Slot>,
                               pass: PatchPass) {
    && pass.data == PatchedBy(data, sections, layout, done)
    && pass.counts == PatchTally(data, sections, layout, done)
    && (pass.counts.Complete() ==> AllResolved(data, sections, layout, done))
  }

  /** The outcomes of these entries' steps, counted. */
  function PatchTally(data: seq<Byte>, sections: seq<Section>, layout: Layout, slots: seq<Slot>): PatchCounts {
    if slots == [] then NO_PATCHES
    else
      PatchTally(data, sections, layout, slots[..|slots| - 1]).Plus(StepOf(data, sections, layout,
                                                                           slots[|slots| - 1]).outcome)
  }

  lemma PatchTallySnoc(data: seq<Byte>, sections: seq<Section>, layout: Layout, done: seq<Slot>, s: Slot)
    ensures PatchTally(data, sections, layout, done + [s])
         == PatchTally(data, sections, layout, done).Plus(StepOf(data, sections, layout, s).outcome)
  {
    hide StepOf;
    assert (done + [s])[..|done|] == done;
  }

  lemma PatchEditsInFoot(data: seq<Byte>, sections: seq<Section>, layout: Layout, s: Slot, i: int)
    requires i in StepOf(data, sections, layout, s).edits
    ensures InFoot(data, sections, s, i)
  {
    hide ReadU32, Branchi.PatchEncode, SymbolsOf, Address, WordAt;
  }

  lemma PatchedOutside(data: seq<Byte>, sections: seq<Section>, layout: Layout, done: seq<Slot>, i: int)
    requires 0 <= i < |data|
    requires forall a :: 0 <= a < |done| ==> !InFoot(data, sections, done[a], i)
    ensures PatchedBy(data, sections, layout, done)[i] == data[i]
  {
    hide StepOf, InFoot;
    forall a, y | 0 <= a < |done| && y in PatchEditsOf(data, sections, layout)(done[a])
      ensures FootOf(data, sections)(done[a], y)
    {
      PatchEditsInFoot(data, sections, layout, done[a], y);
    }
    UnionOutside(done, PatchEditsOf(data, sections, layout), FootOf(data, sections), i);
  }

  lemma PatchChangeLocal(data: seq<Byte>, now: seq<Byte>, sections: seq<Section>, table: Table, layout: Layout, s: Slot)
    requires IsSlot(sections, s) && PatchTable(data, sections, sections[s.table].header) == Some(table)
    requires |now| == |data| && forall i :: 0 <= i < |data| && InFoot(data, sections, s, i) ==> now[i] == data[i]
    ensures PatchChange(now, sections, table, sections[table.rela.info].name, layout, s.pos)
         == PatchChange(data, sections, table, sections[table.rela.info].name, layout, s.pos)
  {
    hide ReadU32, ReadI32, ReadEntry, SymbolsOf, Branchi.PatchEncode, WordAt, Address;
    forall i | s.pos <= i < s.pos + 12 && i < |data|
      ensures now[i] == data[i]
    {
      assert InEntry(s, i);
    }
    EntryLocal(data, now, s.pos);
    var entry := ReadEntry(data, s.pos);
    if entry.Ok? && entry.value.Type() == R_BRANCHI {
      var site := table.target.offset + entry.value.offset;
      forall i | site <= i < site + 4 && i < |data|
        ensures now[i] == data[i]
      {
        assert InSite(data, sections, s, i);
      }
      WordLocal(data, now, site);
    }
  }

  /** The next entry's step is the one it would have taken in the original object. */
  lemma NextPatchStep(data: seq<Byte>, layout: Layout, done: seq<Slot>, s: Slot, table: Table)
    requires WellFormed(data) && IsSlot(SectionsIn(data), s) && done + [s] <= SlotsIn(data)
    requires PatchTable(data, SectionsIn(data), SectionsIn(data)[s.table].header) == Some(table)
    ensures var sections := SectionsIn(data);
            var now := PatchedBy(data, sections, layout, done);
            var step := PatchChange(now, sections, table, sections[table.rela.info].name, layout, s.pos);
            && step == PatchChange(data, sections, table, sections[table.rela.info].name, layout, s.pos)
            && (step.Ok? ==> step.value == StepOf(data, sections, layout, s)
                             && PatchedBy(data, sections, layout, done + [s]) == Over(now, step.value.edits))
  {
    hide PatchChange, SectionsOf, SymbolsOf, PatchTable, SlotsBefore, InFoot, InHeaders, InSymbols, PatchedBy;
    var sections, slots := SectionsIn(data), SlotsIn(data);
    var now := PatchedBy(data, sections, layout, done);
    assert forall a :: 0 <= a < |done| ==> slots[a] == (done + [s])[a] == done[a];
    assert slots[|done|] == s;
    forall i | 0 <= i < |data| && InFoot(data, sections, s, i)
      ensures now[i] == data[i]
    {
      PatchedOutside(data, sections, layout, done, i);
    }
    PatchChangeLocal(data, now, sections, table, layout, s);
    PatchedSnoc(data, sections, layout, done, s);
  }

  lemma PatchedSnoc(data: seq<Byte>, sections: seq<Section>, layout: Layout, done: seq<Slot>, s: Slot)
    ensures PatchedBy(data, sections, layout, done + [s])
         == Over(PatchedBy(data, sections, layout, done), StepOf(data, sections, layout, s).edits)
  {
    hide StepOf;
    UnionSnoc(done, s, PatchEditsOf(data, sections, layout));
    OverOver(data, Union(done, PatchEditsOf(data, sections, layout)), PatchEditsOf(data, sections, layout)(s));
  }

  lemma {:induction false} PatchEntriesClosed(data: seq<Byte>, layout: Layout, t: nat, table: Table, k: nat,
                                              pass: PatchPass, out: PatchPass)
    requires WellFormed(data) && t < |SectionsIn(data)| && SectionsIn(data)[t].IsRela()
    requires PatchTable(data, SectionsIn(data), SectionsIn(data)[t].header) == Some(table)
    requires table.count == CountOf(SectionsIn(data)[t].header) && k <= table.count
    requires PatchReached(data, SectionsIn(data), layout, Done(SectionsIn(data), t, k), pass)
    requires PatchEntries(pass, SectionsIn(data), table, SectionsIn(data)[table.rela.info].name, layout, k) == Ok(out)
    ensures PatchReached(data, SectionsIn(data), layout, Done(SectionsIn(data), t, table.count), out)
    decreases table.count - k
  {
    hide PatchChange, SectionsIn, SymbolsOf, WellFormed, StepOf, PatchedBy, EntryCountOf, PatchTally;
    var sections := SectionsIn(data);
    var rela := sections[t].header;
    if k < table.count {
      var s := Slot(t, table.Pos(k));
      var done := Done(sections, t, k);
      assert Done(sections, t, k + 1) == done + [s];
      DonePrefix(sections, t, k + 1);
      NextPatchStep(data, layout, done, s, table);
      PatchTallySnoc(data, sections, layout, done, s);
      var step := PatchChange(pass.data, sections, table, sections[table.rela.info].name, layout, s.pos).value;
      var next := PatchPass(Over(pass.data, step.edits), pass.counts.Plus(step.outcome));
      PatchEntriesClosed(data, layout, t, table, k + 1, next, out);
    }
  }

  /** The lane accepts the RELA sections of an object the normalizer accepts, if their targets are named. */
  ghost predicate AllOpen(data: seq<Byte>) {
    forall t :: 0 <= t < |SectionsIn(data)| && SectionsIn(data)[t].IsRela() ==>
      && OpenTable(data, SectionsIn(data), SectionsIn(data)[t].header).Ok?
      && SectionsIn(data)[SectionsIn(data)[t].header.info].name != []
  }

  lemma OpenIsPatchTable(data: seq<Byte>, t: nat)
    requires AllOpen(data) && t < |SectionsIn(data)| && SectionsIn(data)[t].IsRela()
    ensures var rela := SectionsIn(data)[t].header;
            PatchTable(data, SectionsIn(data), rela) == Some(OpenTable(data, SectionsIn(data), rela).value)
  {
    hide SectionsIn, SymbolsOf;
  }

  lemma {:induction false} PatchTablesClosed(data: seq<Byte>, layout: Layout, t: nat, pass: PatchPass, out: PatchPass)
    requires WellFormed(data) && AllOpen(data) && t <= |SectionsIn(data)|
    requires PatchReached(data, SectionsIn(data), layout, SlotsBefore(SectionsIn(data), t), pass)
    requires PatchTables(data, pass, SectionsIn(data), layout, t) == Ok(out)
    ensures PatchReached(data, SectionsIn(data), layout, SlotsIn(data), out)
    decreases |SectionsIn(data)| - t
  {
    hide PatchChange, SectionsIn, SymbolsOf, WellFormed, PatchReached, PatchTable, OpenTable, EntryCountOf;
    var sections := SectionsIn(data);
    if t < |sections| {
      if !sections[t].IsRela() {
        PatchTablesClosed(data, layout, t + 1, pass, out);
      } else {
        var rela := sections[t].header;
        OpenIsPatchTable(data, t);
        var table := OpenTable(data, sections, rela).value;
        assert Done(sections, t, 0) == SlotsBefore(sections, t);
        var next := PatchEntries(pass, sections, table, sections[table.rela.info].name, layout, 0).value;
        PatchEntriesClosed(data, layout, t, table, 0, pass, next);
        assert Done(sections, t, CountOf(rela)) == SlotsBefore(sections, t + 1);
        PatchTablesClosed(data, layout, t + 1, next, out);
      }
    }
  }

  lemma PatchClosed(data: seq<Byte>, layout: Layout, out: PatchPass)
    requires WellFormed(data) && AllOpen(data) && PatchedObject(data, layout) == Ok(out)
    ensures PatchReached(data, SectionsIn(data), layout, SlotsIn(data), out)
  {
    hide SymbolsOf, WellFormed, PatchTable, StepOf;
    var sections := SectionsIn(data);
    assert Union([], PatchEditsOf(data, sections, layout)) == map[];
    assert PatchedBy(data, sections, layout, []) == data;
    PatchTablesClosed(data, layout, 0, PatchPass(data, NO_PATCHES), out);
  }
}
