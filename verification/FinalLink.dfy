/** A finished link, as a stock linker lays it out: sections by index, not by name. `patch-reloc.py` reads it
    back from the link map and the final symbol table, where it finds names only. */
module FinalLink {
  import opened Bytes
  import opened ElfObject
  import opened PatchLane

  const SHN_ABS := 0xfff1

  /** One line of the link map: where an input section of the object went. */
  datatype Line = Line(section: nat, base: U32, size: U32)

  datatype FinalSymbol = FinalSymbol(name: seq<Byte>, value: U32, defined: bool)

  /** The map's lines in order, what each non-local name resolved to, and the final symbol table in order. */
  datatype Link = Link(lines: seq<Line>, globals: map<seq<Byte>, U32>, symbols: seq<FinalSymbol>)

  // ----- the linker's own addresses -----

  function BaseOf(lines: seq<Line>, section: nat): Option<U32> {
    if lines == [] then None
    else if lines[0].section == section then Some(lines[0].base)
    else BaseOf(lines[1..], section)
  }

  predicate IsLocal(symbol: Symbol) { symbol.info / 0x10 == 0 }

  /** Where this object's own definition of the symbol went. */
  function OwnAddress(link: Link, symbol: Symbol): Option<int> {
    if symbol.sectionIndex == SHN_ABS || symbol.sectionIndex == SHN_UNDEF then
      Some(if symbol.sectionIndex == SHN_ABS then symbol.value else 0)
    else
      match BaseOf(link.lines, symbol.sectionIndex)
      case None => None
      case Some(base) => Some(base + symbol.value)
  }

  /** S of a relocation: a local symbol is the object's own, any other is what its name resolved to. */
  function LinkAddress(link: Link, symbol: Symbol): Option<int> {
    if IsLocal(symbol) then OwnAddress(link, symbol)
    else if symbol.name in link.globals then Some(link.globals[symbol.name])
    else None
  }

  // ----- what the patch lane reads back -----

  /** The lines `parse_lld_map` keeps. */
  predicate Listed(line: Line, sections: seq<Section>) {
    line.base != 0 && line.size != 0 && line.section < |sections| && sections[line.section].name != []
  }

  /** The addresses of the object's sections by name: a later line of the same name replaces an earlier one. */
  function LaneBases(lines: seq<Line>, sections: seq<Section>): map<seq<Byte>, int> {
    if lines == [] then map[]
    else
      var last := lines[|lines| - 1];
      var front := LaneBases(lines[..|lines| - 1], sections);
      if Listed(last, sections) then front[sections[last.section].name := last.base] else front
  }

  /** `parse_final_symbols`: the first definition with a value decides. */
  function LaneSymbols(symbols: seq<FinalSymbol>): map<seq<Byte>, int> {
    if symbols == [] then map[]
    else
      var rest := LaneSymbols(symbols[1..]);
      if symbols[0].name != [] && symbols[0].defined
          && symbols[0].value != 0 then rest[symbols[0].name := symbols[0].value]
      else rest
  }

  function LaneLayout(link: Link, sections: seq<Section>): Layout {
    Layout(LaneBases(link.lines, sections), LaneSymbols(link.symbols))
  }

  predicate ListedAs(line: Line, sections: seq<Section>, name: seq<Byte>) {
    Listed(line, sections) && sections[line.section].name == name
  }

  /** The lane takes the base of the last listed line with the name. */
  lemma {:induction false} LastLineWins(lines: seq<Line>, sections: seq<Section>, name: seq<Byte>, k: nat)
    requires k < |lines| && ListedAs(lines[k], sections, name)
    requires forall j :: k < j < |lines| ==> !ListedAs(lines[j], sections, name)
    ensures name in LaneBases(lines, sections) && LaneBases(lines, sections)[name] == lines[k].base
  {
    if k < |lines| - 1 {
      LastLineWins(lines[..|lines| - 1], sections, name, k);
    }
  }

  lemma {:induction false} NoLine(lines: seq<Line>, sections: seq<Section>, name: seq<Byte>)
    requires forall j :: 0 <= j < |lines| ==> !ListedAs(lines[j], sections, name)
    ensures name !in LaneBases(lines, sections)
  {
    if lines != [] {
      NoLine(lines[..|lines| - 1], sections, name);
    }
  }

  // ----- when both agree -----

  /** The link places each of the object's sections at most once. */
  ghost predicate PlacedOnce(lines: seq<Line>) {
    forall j, k :: 0 <= j < k < |lines| ==> lines[j].section != lines[k].section
  }

  /** No two named sections of the object have the same name. */
  ghost predicate DistinctNames(sections: seq<Section>) {
    forall j, k :: 0 <= j < k < |sections| && sections[j].name != [] ==> sections[j].name != sections[k].name
  }

  lemma {:induction false} BaseFound(lines: seq<Line>, k: nat)
    requires PlacedOnce(lines) && k < |lines|
    ensures BaseOf(lines, lines[k].section) == Some(lines[k].base)
  {
    if k > 0 {
      BaseFound(lines[1..], k - 1);
    }
  }

  /** The symbol's own section is on the map, and the symbol is not overridden by another definition. */
  ghost predicate DefinedHere(link: Link, sections: seq<Section>, symbol: Symbol) {
    && symbol.sectionIndex != SHN_UNDEF && symbol.sectionIndex != SHN_ABS && symbol.sectionIndex < |sections|
    && (exists k ::
          0 <= k < |link.lines| && link.lines[k].section == symbol.sectionIndex && Listed(link.lines[k], sections))
    && LinkAddress(link, symbol) == OwnAddress(link, symbol)
  }

  /** The symbol is from elsewhere, and the first definition of its name in the final symbol table is the
      one the link chose. */
  predicate DefinedElsewhere(link: Link, sections: seq<Section>, symbol: Symbol) {
    && (symbol.sectionIndex == SHN_UNDEF || symbol.sectionIndex >= |sections|)
    && symbol.name != [] && symbol.name in LaneSymbols(link.symbols)
    && LinkAddress(link, symbol) == Some(LaneSymbols(link.symbols)[symbol.name])
  }

  /** With distinct section names, the lane finds the address the linker used. */
  lemma AddressAgrees(link: Link, sections: seq<Section>, symbol: Symbol)
    requires PlacedOnce(link.lines) && DistinctNames(sections)
    requires DefinedHere(link, sections, symbol) || DefinedElsewhere(link, sections, symbol)
    ensures Address(sections, symbol, LaneLayout(link, sections)) == LinkAddress(link, symbol)
    ensures LinkAddress(link, symbol).Some?
  {
    hide LaneBases, LaneSymbols, BaseOf;
    if DefinedHere(link, sections, symbol) {
      var k :| 0 <= k < |link.lines| && link.lines[k].section == symbol.sectionIndex && Listed(link.lines[k], sections);
      var name := sections[symbol.sectionIndex].name;
      forall j | k < j < |link.lines|
        ensures !ListedAs(link.lines[j], sections, name)
      {
        assert link.lines[j].section != link.lines[k].section;
      }
      LastLineWins(link.lines, sections, name, k);
      BaseFound(link.lines, k);
    }
  }
}
