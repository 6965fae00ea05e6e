/** `normalize_object`: rewrite the vendor relocations of one ELF32 object in place.
    The pass is specified as a fold over the RELA tables and their entries; each entry either fails
    the object or contributes a few stored words. */
module Normalizer {
  import opened Bytes
  import opened ElfObject
  import Branchi

  const R_NONE := 0
  const R_32 := 1
  const R_RELAX := 51
  const R_LLUI48 := 58
  const R_BRANCHI := 59
  const R_UNDECLARED := 60
  const R_LLUI_REP := 61

  datatype Kind = Llui48 | Branch | Relax | Rep | Kept

  datatype Counts = Counts(llui48: nat, branch: nat, relax: nat, rep: nat) {
    function Plus(kind: Kind): Counts {
      match kind
      case Llui48 => this.(llui48 := llui48 + 1)
      case Branch => this.(branch := branch + 1)
      case Relax => this.(relax := relax + 1)
      case Rep => this.(rep := rep + 1)
      case Kept => this
    }

    function Sum(that: Counts): Counts {
      Counts(llui48 + that.llui48, branch + that.branch, relax + that.relax, rep + that.rep)
    }
  }

  const NO_COUNTS := Counts(0, 0, 0, 0)

  datatype Entry = Entry(offset: U32, info: U32, addend: int) {
    function Type(): int { info % 0x100 }

    function SymbolIndex(): nat { info / 0x100 }

    /** `(info & !0xff) | type`. */
    function Retyped(newType: Byte): U32 { info - Type() + newType }
  }

  /** A RELA table with its target section and the symbols it refers to. */
  datatype Table = Table(rela: Header, target: Header, symbols: seq<Symbol>, count: nat) {
    function Pos(k: nat): nat { EntryAt(rela.offset, EntrySizeOf(rela), k) }
  }

  datatype Change = Change(edits: Edits, kind: Kind)

  function EntrySizeOf(rela: Header): nat {
    if rela.entrySize == 0 then 12 else rela.entrySize
  }

  function EntryCountOf(rela: Header): Result<nat, Error> {
    var entrySize := EntrySizeOf(rela);
    if entrySize < 12 || rela.size % entrySize != 0 then Err(Error.EntrySize) else Ok(rela.size / entrySize)
  }

  function ReadEntry(data: seq<Byte>, pos: nat): Result<Entry, Error> {
    var offset :- ReadU32(data, pos);
    var info :- ReadU32(data, pos + 4);
    var addend :- ReadI32(data, pos + 8);
    Ok(Entry(offset, info, addend))
  }

  lemma EntryInRange(data: seq<Byte>, pos: nat)
    ensures ReadEntry(data, pos).Ok? <==> pos + 12 <= |data|
  {
  }

  lemma ReadInRange(data: seq<Byte>, at: nat)
    ensures ReadU32(data, at).Ok? <==> at + 4 <= |data|
  {
  }

  function OpenTable(data: seq<Byte>, sections: seq<Section>, rela: Header): (r: Result<Table, Error>)
    ensures r.Ok? ==> && rela.info < |sections| && r.value.rela == rela && r.value.target == sections[rela.info].header
                      && EntryCountOf(rela) == Ok(r.value.count)
  {
    if rela.info >= |sections| then Err(TargetIndex)
    else
      var symbols :- SymbolsOf(data, sections, rela.link);
      var count :- EntryCountOf(rela);
      Ok(Table(rela, sections[rela.info].header, symbols, count))
  }

  // ----- first pass: which target sections hold a BRANCHI -----

  function ScanEntries(data: seq<Byte>, rela: Header, k: nat, count: nat, found: set<int>): Result<set<int>, Error>
    decreases count - k
  {
    if k >= count then Ok(found)
    else
      var info :- ReadU32(data, EntryAt(rela.offset, EntrySizeOf(rela), k) + 4);
      ScanEntries(data, rela, k + 1, count, if info % 0x100 == R_BRANCHI then found + {rela.info} else found)
  }

  function ScanTables(data: seq<Byte>, sections: seq<Section>, t: nat, found: set<int>): Result<set<int>, Error>
    decreases |sections| - t
  {
    if t >= |sections| then Ok(found)
    else if !sections[t].IsRela() then ScanTables(data, sections, t + 1, found)
    else
      var count :- EntryCountOf(sections[t].header);
      var more :- ScanEntries(data, sections[t].header, 0, count, found);
      ScanTables(data, sections, t + 1, more)
  }

  // ----- second pass: rewrite -----

  /** What one entry does to the object, from the bytes as they are when it is reached. */
  function EntryChange(data: seq<Byte>, table: Table, branchi: set<int>, pos: nat): Result<Change, Error> {
    var entry :- ReadEntry(data, pos);
    if entry.Type() == R_LLUI48 then
      if entry.offset + 6 > U32_MAX then Err(Overflow)
      else if entry.offset + 6 > table.target.size then Err(SiteRange)
      else Ok(Change(WordAt(pos, entry.offset + 2) + WordAt(pos + 4, entry.Retyped(R_32)), Llui48))
    else if entry.Type() == R_BRANCHI then
      if entry.SymbolIndex() >= |table.symbols| then Err(SymbolIndex)
      else
        var symbol := table.symbols[entry.SymbolIndex()];
        if symbol.sectionIndex != table.rela.info then Err(CrossSection)
        else
          var site := table.target.offset + entry.offset;
          var word :- ReadU32(data, site);
          match Branchi.Encode(word, symbol.value + entry.addend - entry.offset)
          case None => Err(Displacement)
          case Some(encoded) => Ok(Change(WordAt(site, encoded) + WordAt(pos + 4, entry.Retyped(R_NONE)), Branch))
    else if entry.Type() == R_LLUI_REP then
      if entry.SymbolIndex() != 0 || entry.addend != 0 then Err(MarkerForm)
      else if entry.offset + 6 > U32_MAX then Err(Overflow)
      else if entry.offset + 6 > table.target.size then Err(SiteRange)
      else Ok(Change(WordAt(pos + 4, entry.Retyped(R_NONE)), Rep))
    else if entry.Type() == R_RELAX && table.rela.info in branchi then
      Ok(Change(WordAt(pos + 4, entry.Retyped(R_NONE)), Relax))
    else if entry.Type() == R_UNDECLARED then Err(UndeclaredType)
    else Ok(Change(map[], Kept))
  }

  datatype Pass = Pass(data: seq<Byte>, counts: Counts)

  function RunEntries(pass: Pass, table: Table, branchi: set<int>, k: nat): Result<Pass, Error>
    decreases table.count - k
  {
    if k >= table.count then Ok(pass)
    else
      var change :- EntryChange(pass.data, table, branchi, table.Pos(k));
      RunEntries(Pass(Over(pass.data, change.edits), pass.counts.Plus(change.kind)), table, branchi, k + 1)
  }

  function RunTables(pass: Pass, sections: seq<Section>, branchi: set<int>, t: nat): Result<Pass, Error>
    decreases |sections| - t
  {
    if t >= |sections| then Ok(pass)
    else if !sections[t].IsRela() then RunTables(pass, sections, branchi, t + 1)
    else
      var table :- OpenTable(pass.data, sections, sections[t].header);
      var next :- RunEntries(pass, table, branchi, 0);
      RunTables(next, sections, branchi, t + 1)
  }

  function Normalized(data: seq<Byte>): Result<Pass, Error> {
    var sections :- SectionsOf(data);
    var branchi :- ScanTables(data, sections, 0, {});
    RunTables(Pass(data, NO_COUNTS), sections, branchi, 0)
  }

  // ----- the in-place code -----

  /** Store a word in the window `[lo, hi)` of `data`, if it fits there. */
  method PutU32(data: array<Byte>, lo: nat, hi: nat, offset: nat, value: U32) returns (r: Result<(), Error>)
    requires lo <= hi <= data.Length
    modifies data
    ensures r.Ok? <==> offset + 4 <= hi - lo
    ensures r.Err? ==> r.error == RangeExceeded && data[..] == old(data[..])
    ensures r.Ok? ==> data[lo..hi] == Over(old(data[lo..hi]), WordAt(offset, value))
    ensures data[..lo] == old(data[..lo]) && data[hi..] == old(data[hi..])
  {
    if offset + 4 > hi - lo { return Err(RangeExceeded); }
    var at := lo + offset;
    data[at] := value % 0x100;
    data[at + 1] := value / 0x100 % 0x100;
    data[at + 2] := value / 0x1_0000 % 0x100;
    data[at + 3] := value / 0x100_0000;
    return Ok(());
  }

  /** Two stores in a row to words that were just read, so both fit. */
  method PutTwo(data: array<Byte>, lo: nat, hi: nat, first: nat, one: U32, second: nat, two: U32)
    requires lo <= hi <= data.Length && first + 4 <= hi - lo && second + 4 <= hi - lo
    modifies data
    ensures data[lo..hi] == Over(old(data[lo..hi]), WordAt(first, one) + WordAt(second, two))
    ensures data[..lo] == old(data[..lo]) && data[hi..] == old(data[hi..])
  {
    ghost var view := data[lo..hi];
    var _ := PutU32(data, lo, hi, first, one);
    var _ := PutU32(data, lo, hi, second, two);
    OverOver(view, WordAt(first, one), WordAt(second, two));
  }

  /** The arm for a 48-bit load: the relocated word starts two bytes further on. */
  method RewriteLlui48(data: array<Byte>, lo: nat, hi: nat, table: Table, pos: nat, entry: Entry)
    returns (r: Result<Kind, Error>)
    requires lo <= hi <= data.Length
    requires ReadEntry(data[lo..hi], pos) == Ok(entry) && entry.Type() == R_LLUI48
    modifies data
    ensures var change := EntryChange(old(data[lo..hi]), table, {}, pos);
            if change.Err? then r == Err(change.error)
            else r == Ok(change.value.kind) && data[lo..hi] == Over(old(data[lo..hi]), change.value.edits)
    ensures data[..lo] == old(data[..lo]) && data[hi..] == old(data[hi..])
  {
    if entry.offset > U32_MAX - 2 || entry.offset + 2 > U32_MAX - 4 { return Err(Overflow); }
    if entry.offset + 2 + 4 > table.target.size { return Err(SiteRange); }
    var relocated, info := entry.offset + 2, entry.Retyped(R_32);
    ghost var change := EntryChange(data[lo..hi], table, {}, pos);
    assert change == Ok(Change(WordAt(pos, relocated) + WordAt(pos + 4, info), Llui48));
    PutTwo(data, lo, hi, pos, relocated, pos + 4, info);
    return Ok(Llui48);
  }

  /** The arm for a branch: its displacement is encoded into the instruction now. */
  method RewriteBranch(data: array<Byte>, lo: nat, hi: nat, table: Table, pos: nat, entry: Entry)
    returns (r: Result<Kind, Error>)
    requires lo <= hi <= data.Length
    requires ReadEntry(data[lo..hi], pos) == Ok(entry) && entry.Type() == R_BRANCHI
    modifies data
    ensures var change := EntryChange(old(data[lo..hi]), table, {}, pos);
            if change.Err? then r == Err(change.error)
            else r == Ok(change.value.kind) && data[lo..hi] == Over(old(data[lo..hi]), change.value.edits)
    ensures data[..lo] == old(data[..lo]) && data[hi..] == old(data[hi..])
  {
    hide ReadEntry, ReadU32, WordAt, Over, Branchi.Encode;
    if entry.SymbolIndex() >= |table.symbols| { return Err(SymbolIndex); }
    var symbol := table.symbols[entry.SymbolIndex()];
    if symbol.sectionIndex != table.rela.info { return Err(CrossSection); }
    var site := table.target.offset + entry.offset;
    EntryInRange(data[lo..hi], pos);
    ReadInRange(data[lo..hi], site);
    var word :- ReadU32(data[lo..hi], site);
    var encoded := Branchi.Encode(word, symbol.value + entry.addend - entry.offset);
    if encoded.None? { return Err(Displacement); }
    var info := entry.Retyped(R_NONE);
    ghost var change := EntryChange(data[lo..hi], table, {}, pos);
    assert change == Ok(Change(WordAt(site, encoded.value) + WordAt(pos + 4, info), Branch));
    PutTwo(data, lo, hi, site, encoded.value, pos + 4, info);
    return Ok(Branch);
  }

  /** The body of the rewriting loop for one entry. */
  method RewriteEntry(data: array<Byte>, lo: nat, hi: nat, table: Table, branchi: set<int>, pos: nat)
    returns (r: Result<Kind, Error>)
    requires lo <= hi <= data.Length
    modifies data
    ensures var change := EntryChange(old(data[lo..hi]), table, branchi, pos);
            if change.Err? then r == Err(change.error)
            else r == Ok(change.value.kind) && data[lo..hi] == Over(old(data[lo..hi]), change.value.edits)
    ensures data[..lo] == old(data[..lo]) && data[hi..] == old(data[hi..])
  {
    hide ReadEntry, ReadU32, WordAt, Over, Branchi.Encode;
    EntryInRange(data[lo..hi], pos);
    var entry :- ReadEntry(data[lo..hi], pos);
    var kind := entry.Type();
    if kind == R_LLUI48 {
      r := RewriteLlui48(data, lo, hi, table, pos, entry);
    } else if kind == R_BRANCHI {
      r := RewriteBranch(data, lo, hi, table, pos, entry);
    } else if kind == R_LLUI_REP {
      if entry.SymbolIndex() != 0 || entry.addend != 0 { return Err(MarkerForm); }
      if entry.offset > U32_MAX - 6 { return Err(Overflow); }
      if entry.offset + 6 > table.target.size { return Err(SiteRange); }
      var _ := PutU32(data, lo, hi, pos + 4, entry.Retyped(R_NONE));
      return Ok(Rep);
    } else if kind == R_RELAX && table.rela.info in branchi {
      var _ := PutU32(data, lo, hi, pos + 4, entry.Retyped(R_NONE));
      return Ok(Relax);
    } else if kind == R_UNDECLARED {
      return Err(UndeclaredType);
    } else {
      return Ok(Kept);
    }
  }

  method ScanBranchi(data: seq<Byte>, sections: seq<Section>) returns (r: Result<set<int>, Error>)
    ensures r == ScanTables(data, sections, 0, {})
  {
    var found: set<int> := {};
    for t := 0 to |sections|
      invariant ScanTables(data, sections, 0, {}) == ScanTables(data, sections, t, found)
    {
      if sections[t].IsRela() {
        var rela := sections[t].header;
        var count :- EntryCountOf(rela);
        ghost var before := found;
        for k := 0 to count
          invariant ScanEntries(data, rela, 0, count, before) == ScanEntries(data, rela, k, count, found)
        {
          var info :- ReadU32(data, EntryAt(rela.offset, EntrySizeOf(rela), k) + 4);
          if info % 0x100 == R_BRANCHI {
            found := found + {rela.info};
          }
        }
      }
    }
    return Ok(found);
  }

  method RewriteTable(data: array<Byte>, lo: nat, hi: nat, table: Table, branchi: set<int>, counts: Counts)
    returns (r: Result<Counts, Error>)
    requires lo <= hi <= data.Length
    modifies data
    ensures var run := RunEntries(Pass(old(data[lo..hi]), counts), table, branchi, 0);
            if run.Err? then r == Err(run.error) else r == Ok(run.value.counts) && data[lo..hi] == run.value.data
    ensures data[..lo] == old(data[..lo]) && data[hi..] == old(data[hi..])
  {
    var total := counts;
    for k := 0 to table.count
      invariant RunEntries(Pass(old(data[lo..hi]), counts), table, branchi, 0)
             == RunEntries(Pass(data[lo..hi], total), table, branchi, k)
      invariant data[..lo] == old(data[..lo]) && data[hi..] == old(data[hi..])
    {
      var kind :- RewriteEntry(data, lo, hi, table, branchi, table.Pos(k));
      total := total.Plus(kind);
    }
    return Ok(total);
  }

  /** Rewrite the object held in the window `[lo, hi)`; nothing outside the window changes. */
  method NormalizeObject(data: array<Byte>, lo: nat, hi: nat) returns (r: Result<Counts, Error>)
    requires lo <= hi <= data.Length
    modifies data
    ensures var run := Normalized(old(data[lo..hi]));
            if run.Err? then r == Err(run.error) else r == Ok(run.value.counts) && data[lo..hi] == run.value.data
    ensures data[..lo] == old(data[..lo]) && data[hi..] == old(data[hi..])
  {
    hide SectionsOf, SymbolsOf, ScanTables, RunEntries;
    var sections :- ParseSections(data[lo..hi]);
    var branchi :- ScanBranchi(data[lo..hi], sections);
    var counts := NO_COUNTS;
    for t := 0 to |sections|
      invariant RunTables(Pass(old(data[lo..hi]), NO_COUNTS), sections, branchi, 0)
             == RunTables(Pass(data[lo..hi], counts), sections, branchi, t)
      invariant data[..lo] == old(data[..lo]) && data[hi..] == old(data[hi..])
    {
      if sections[t].IsRela() {
        var rela := sections[t].header;
        if rela.info >= |sections| { return Err(TargetIndex); }
        var symbols :- ParseSymbols(data[lo..hi], sections, rela.link);
        var count :- EntryCountOf(rela);
        counts :- RewriteTable(data, lo, hi, Table(rela, sections[rela.info].header, symbols, count), branchi, counts);
      }
    }
    return Ok(counts);
  }
}
