/** Small ELF objects, byte for byte: a symbol table, a section of code, one relocation table, the strings,
    and a second section of the code's name. The relocation table's header and its entries are parameters. */
module ExampleObject {
  import opened Bytes
  import opened ElfObject
  import opened Normalizer

  // ----- encoding -----

  /** The four bytes that read as `w`. */
  ghost function LittleEndian(w: U32): (r: seq<Byte>)
    ensures |r| == 4 && Word(r[0], r[1], r[2], r[3]) == w
  {
    BytesExist(w);
    var b0: Byte, b1: Byte, b2: Byte, b3: Byte :| Word(b0, b1, b2, b3) == w;
    [b0, b1, b2, b3]
  }

  lemma BytesExist(w: U32)
    ensures exists b0: Byte, b1: Byte, b2: Byte, b3: Byte :: Word(b0, b1, b2, b3) == w
  {
    WordAtRoundTrip(0, w);
    var e := WordAt(0, w);
    assert Word(e[0], e[1], e[2], e[3]) == w;
  }

  function Zeroes(n: nat): (r: seq<Byte>)
    ensures |r| == n
  {
    seq(n, _ => 0)
  }

  ghost function HeaderBytes(h: Header): (r: seq<Byte>)
    ensures |r| == 40
  {
    LittleEndian(h.name) + LittleEndian(h.sectionType) + LittleEndian(h.flags) + LittleEndian(h.address) +
        LittleEndian(h.offset) +
    LittleEndian(h.size) + LittleEndian(h.link) + LittleEndian(h.info) + Zeroes(4) + LittleEndian(h.entrySize)
  }

  ghost function EntryBytes(e: Entry): (r: seq<Byte>)
    ensures |r| == 12
  {
    LittleEndian(e.offset) + LittleEndian(e.info) + LittleEndian(Mod32(e.addend))
  }

  predicate HoldsAt(data: seq<Byte>, at: nat, part: seq<Byte>) {
    at + |part| <= |data| && data[at..at + |part|] == part
  }

  /** A word is read back from where its bytes lie. */
  lemma BytesRead(data: seq<Byte>, at: nat, k: nat, part: seq<Byte>)
    requires HoldsAt(data, at, part) && k + 4 <= |part|
    ensures ReadU32(data, at + k) == Ok(Word(part[k], part[k + 1], part[k + 2], part[k + 3]))
  {
    forall i | k <= i < k + 4
      ensures data[at + i] == part[i]
    {
      assert data[at..at + |part|][i] == data[at + i];
    }
  }

  lemma WordRead(data: seq<Byte>, at: nat, k: nat, part: seq<Byte>, w: U32)
    requires HoldsAt(data, at, part) && k + 4 <= |part| && part[k..k + 4] == LittleEndian(w)
    ensures ReadU32(data, at + k) == Ok(w)
  {
    hide HoldsAt, ReadU32;
    BytesRead(data, at, k, part);
    var four := part[k..k + 4];
    assert four[0] == part[k] && four[1] == part[k + 1] && four[2] == part[k + 2] && four[3] == part[k + 3];
  }

  lemma HeaderRead(data: seq<Byte>, at: nat, h: Header)
    requires HoldsAt(data, at, HeaderBytes(h))
    ensures HeaderAt(data, at) == Ok(h)
  {
    var part := HeaderBytes(h);
    assert part[0..4] == LittleEndian(h.name) && part[4..8] == LittleEndian(h.sectionType)
        && part[8..12] == LittleEndian(h.flags);
    assert part[12..16] == LittleEndian(h.address) && part[16..20] == LittleEndian(h.offset)
        && part[20..24] == LittleEndian(h.size);
    assert part[24..28] == LittleEndian(h.link) && part[28..32] == LittleEndian(h.info)
        && part[36..40] == LittleEndian(h.entrySize);
    hide HeaderBytes, ReadU32;
    WordRead(data, at, 0, part, h.name);
    WordRead(data, at, 4, part, h.sectionType);
    WordRead(data, at, 8, part, h.flags);
    WordRead(data, at, 12, part, h.address);
    WordRead(data, at, 16, part, h.offset);
    WordRead(data, at, 20, part, h.size);
    WordRead(data, at, 24, part, h.link);
    WordRead(data, at, 28, part, h.info);
    WordRead(data, at, 36, part, h.entrySize);
  }

  lemma EntryWords(e: Entry)
    ensures var part := EntryBytes(e);
            part[0..4] == LittleEndian(e.offset) && part[4..8] == LittleEndian(e.info)
                && part[8..12] == LittleEndian(Mod32(e.addend))
  {
    hide LittleEndian;
  }

  lemma EntryWordsRead(data: seq<Byte>, at: nat, e: Entry)
    requires HoldsAt(data, at, EntryBytes(e))
    ensures ReadU32(data, at) == Ok(e.offset) && ReadU32(data, at + 4) == Ok(e.info)
    ensures ReadU32(data, at + 8) == Ok(Mod32(e.addend))
  {
    hide EntryBytes, ReadU32, LittleEndian, HoldsAt;
    var part := EntryBytes(e);
    EntryWords(e);
    WordRead(data, at, 0, part, e.offset);
    WordRead(data, at, 4, part, e.info);
    WordRead(data, at, 8, part, Mod32(e.addend));
  }

  /** An addend is stored modulo 2^32 and read back signed. */
  lemma EntryReadBack(data: seq<Byte>, at: nat, e: Entry)
    requires ReadU32(data, at) == Ok(e.offset) && ReadU32(data, at + 4) == Ok(e.info)
    requires ReadU32(data, at + 8) == Ok(Mod32(e.addend)) && -0x8000_0000 <= e.addend < 0x8000_0000
    ensures ReadEntry(data, at) == Ok(e)
  {
    hide ReadU32;
  }

  // ----- the object -----

  const IDENT: seq<Byte> := [0x7f, 0x45, 0x4c, 0x46, 1, 1] + Zeroes(26) + [52, 0, 0, 0] + Zeroes(10) +
      [40, 0, 5, 0, 3, 0]
  const NAMES: seq<Byte> := [0, 0x74, 0]
  const SYMBOL_BYTES: seq<Byte> := Zeroes(14) + [1, 0]

  const SYMTAB := Header(0, SHT_SYMTAB, 0, 0, 268, 16, 3, 0, 16)
  const CODE := Header(1, 1, 0, 0, 256, 12, 0, 0, 0)
  const STRINGS := Header(0, 3, 0, 0, 252, 3, 0, 0, 0)
  const COLD := Header(1, 1, 0, 0, 308, 4, 0, 0, 0)
  const CODE_NAME: seq<Byte> := [0x74]
  const SYMBOL := Symbol([], 0, 1, 0)

  function HeadersWith(rela: Header): seq<Header> { [SYMTAB, CODE, rela, STRINGS, COLD] }

  function SectionsWith(rela: Header): seq<Section> {
    [Section([], SYMTAB), Section(CODE_NAME, CODE), Section([], rela), Section([], STRINGS), Section(CODE_NAME, COLD)]
  }

  /** ELF header, five section headers from 52, names at 252, code at 256, a symbol at 268, relocations at
      284, the other section of the code's name at 308. */
  ghost function Object(rela: Header, first: Entry, second: Entry): (data: seq<Byte>)
    ensures |data| == 312
  {
    IDENT + HeaderBytes(SYMTAB) + HeaderBytes(CODE) + HeaderBytes(rela) + HeaderBytes(STRINGS) + HeaderBytes(COLD) +
    NAMES + Zeroes(13) + SYMBOL_BYTES + EntryBytes(first) + EntryBytes(second) + Zeroes(4)
  }

  /** A part lies behind what comes before it. */
  lemma PartHeld(before: seq<Byte>, part: seq<Byte>, data: seq<Byte>)
    requires before + part <= data
    ensures HoldsAt(data, |before|, part)
  {
    assert data[..|before + part|] == before + part;
  }

  lemma ObjectParts(rela: Header, first: Entry, second: Entry)
    ensures var data := Object(rela, first, second);
            && HoldsAt(data, 0, IDENT) && HoldsAt(data, 52, HeaderBytes(SYMTAB)) && HoldsAt(data, 92, HeaderBytes(CODE))
            && HoldsAt(data, 132, HeaderBytes(rela)) && HoldsAt(data, 172, HeaderBytes(STRINGS))
            && HoldsAt(data, 212, HeaderBytes(COLD))
            && HoldsAt(data, 252, NAMES) && HoldsAt(data, 255, Zeroes(13)) && HoldsAt(data, 268, SYMBOL_BYTES)
            && HoldsAt(data, 284, EntryBytes(first)) && HoldsAt(data, 296, EntryBytes(second))
  {
    hide HeaderBytes, EntryBytes, Zeroes, HoldsAt;
    var p1 := IDENT + HeaderBytes(SYMTAB);
    var p2 := p1 + HeaderBytes(CODE);
    var p3 := p2 + HeaderBytes(rela);
    var p4 := p3 + HeaderBytes(STRINGS);
    var p5 := p4 + HeaderBytes(COLD);
    var p6 := p5 + NAMES;
    var p7 := p6 + Zeroes(13);
    var p8 := p7 + SYMBOL_BYTES;
    var p9 := p8 + EntryBytes(first);
    var data := Object(rela, first, second);
    assert data == p9 + EntryBytes(second) + Zeroes(4);
    assert [] + IDENT == IDENT;
    PartHeld([], IDENT, data);
    PartHeld(IDENT, HeaderBytes(SYMTAB), data);
    PartHeld(p1, HeaderBytes(CODE), data);
    PartHeld(p2, HeaderBytes(rela), data);
    PartHeld(p3, HeaderBytes(STRINGS), data);
    PartHeld(p4, HeaderBytes(COLD), data);
    PartHeld(p5, NAMES, data);
    PartHeld(p6, Zeroes(13), data);
    PartHeld(p7, SYMBOL_BYTES, data);
    PartHeld(p8, EntryBytes(first), data);
    PartHeld(p9, EntryBytes(second), data);
  }

  // ----- what is read from it -----

  lemma ObjectHeaders(rela: Header, first: Entry, second: Entry)
    ensures var data := Object(rela, first, second);
            && HeaderAt(data, 52) == Ok(SYMTAB) && HeaderAt(data, 92) == Ok(CODE) && HeaderAt(data, 132) == Ok(rela)
            && HeaderAt(data, 172) == Ok(STRINGS) && HeaderAt(data, 212) == Ok(COLD)
  {
    hide Object, HeaderBytes, EntryBytes, Zeroes, HeaderAt, HoldsAt;
    var data := Object(rela, first, second);
    ObjectParts(rela, first, second);
    HeaderRead(data, 52, SYMTAB);
    HeaderRead(data, 92, CODE);
    HeaderRead(data, 132, rela);
    HeaderRead(data, 172, STRINGS);
    HeaderRead(data, 212, COLD);
  }

  lemma IdentHeld(data: seq<Byte>)
    requires HoldsAt(data, 0, IDENT)
    ensures |IDENT| == 52 && |data| >= 52 && forall i :: 0 <= i < 52 ==> data[i] == IDENT[i]
  {
    assert data[0..52] == IDENT;
    forall i | 0 <= i < 52
      ensures data[i] == IDENT[i]
    {
      assert data[i] == data[0..52][i];
    }
  }

  lemma IdentOffset(data: seq<Byte>)
    requires HoldsAt(data, 0, IDENT)
    ensures ReadU32(data, 32) == Ok(52)
  {
    hide ReadU32;
    assert IDENT[32] == 52 && IDENT[33] == 0 && IDENT[34] == 0 && IDENT[35] == 0;
    BytesRead(data, 0, 32, IDENT);
  }

  lemma IdentShape(data: seq<Byte>)
    requires HoldsAt(data, 0, IDENT)
    ensures ShapeOf(data) == Ok(TableShape(52, 40, 5, 3))
  {
    hide HoldsAt, ReadU32;
    IdentHeld(data);
    IdentOffset(data);
    assert IDENT[0] == 0x7f && IDENT[1] == 0x45 && IDENT[2] == 0x4c && IDENT[3] == 0x46 && IDENT[4] == 1
        && IDENT[5] == 1;
    assert data[..4] == [0x7f, 0x45, 0x4c, 0x46];
    assert IDENT[46] == 40 && IDENT[47] == 0 && IDENT[48] == 5 && IDENT[49] == 0 && IDENT[50] == 3 && IDENT[51] == 0;
  }

  lemma NamesRead(data: seq<Byte>)
    requires HoldsAt(data, 252, NAMES)
    ensures Slice(data, 252, 3) == Ok(NAMES)
    ensures CString(NAMES, 0) == Ok([]) && CString(NAMES, 1) == Ok(CODE_NAME)
  {
    var s: seq<Byte> := [0, 0x74, 0];
    assert s[0..] == s && s[1..] == [0x74, 0] && [0x74, 0][1..] == [0];
    assert UntilNul([0]) == [] && UntilNul([0x74, 0]) == [0x74] + [] == [0x74];
  }

  lemma ObjectHeaderList(rela: Header, first: Entry, second: Entry)
    ensures HeadersFrom(Object(rela, first, second), 52, 40, 0, 5) == Ok(HeadersWith(rela))
  {
    hide Object, HeaderAt;
    ObjectHeaders(rela, first, second);
    var data, all := Object(rela, first, second), HeadersWith(rela);
    assert all[5..] == [] && [COLD] + all[5..] == all[4..] && [STRINGS] + all[4..] == all[3..];
    assert [rela] + all[3..] == all[2..] && [CODE] + all[2..] == all[1..] && [SYMTAB] + all[1..] == all;
    assert HeadersFrom(data, 52, 40, 5, 5) == Ok(all[5..]);
    assert HeadersFrom(data, 52, 40, 4, 5) == Ok(all[4..]);
    assert HeadersFrom(data, 52, 40, 3, 5) == Ok(all[3..]);
    assert HeadersFrom(data, 52, 40, 2, 5) == Ok(all[2..]);
    assert HeadersFrom(data, 52, 40, 1, 5) == Ok(all[1..]);
  }

  lemma NamedAt(rela: Header, k: nat)
    requires k < 5 && rela.name == 0 && CString(NAMES, 0) == Ok([]) && CString(NAMES, 1) == Ok(CODE_NAME)
    requires NamedFrom(HeadersWith(rela), NAMES, k + 1) == Ok(SectionsWith(rela)[k + 1..])
    ensures NamedFrom(HeadersWith(rela), NAMES, k) == Ok(SectionsWith(rela)[k..])
  {
    hide CString;
    var headers, sections := HeadersWith(rela), SectionsWith(rela);
    assert sections[k].header == headers[k] && CString(NAMES, headers[k].name) == Ok(sections[k].name);
    assert sections[k] == Section(sections[k].name, headers[k]);
    assert [sections[k]] + sections[k + 1..] == sections[k..];
  }

  lemma ObjectNamed(rela: Header)
    requires rela.name == 0 && CString(NAMES, 0) == Ok([]) && CString(NAMES, 1) == Ok(CODE_NAME)
    ensures NamedFrom(HeadersWith(rela), NAMES, 0) == Ok(SectionsWith(rela))
  {
    hide CString;
    assert |HeadersWith(rela)| == 5 && SectionsWith(rela)[5..] == [];
    assert NamedFrom(HeadersWith(rela), NAMES, 5) == Ok(SectionsWith(rela)[5..]);
    NamedAt(rela, 4);
    NamedAt(rela, 3);
    NamedAt(rela, 2);
    NamedAt(rela, 1);
    NamedAt(rela, 0);
    assert SectionsWith(rela)[0..] == SectionsWith(rela);
  }

  lemma ObjectSections(rela: Header, first: Entry, second: Entry)
    requires rela.name == 0
    ensures var data := Object(rela, first, second);
            ShapeOf(data) == Ok(TableShape(52, 40, 5, 3)) && SectionsOf(data) == Ok(SectionsWith(rela))
  {
    hide Object, ShapeOf, HeadersFrom, NamedFrom, Slice, CString, HoldsAt, HeaderBytes, EntryBytes, Zeroes;
    var data := Object(rela, first, second);
    ObjectParts(rela, first, second);
    IdentShape(data);
    ObjectHeaderList(rela, first, second);
    NamesRead(data);
    ObjectNamed(rela);
  }

  lemma ZeroRead(data: seq<Byte>, at: nat, k: nat, part: seq<Byte>)
    requires HoldsAt(data, at, part) && k + 4 <= |part| && forall i :: k <= i < k + 4 ==> part[i] == 0
    ensures ReadU32(data, at + k) == Ok(0)
  {
    hide HoldsAt, ReadU32;
    BytesRead(data, at, k, part);
  }

  lemma SymbolWords(data: seq<Byte>)
    requires HoldsAt(data, 268, SYMBOL_BYTES)
    ensures ReadU32(data, 268) == Ok(0) && ReadU32(data, 272) == Ok(0)
  {
    hide ReadU32, HoldsAt;
    ZeroRead(data, 268, 0, SYMBOL_BYTES);
    ZeroRead(data, 268, 4, SYMBOL_BYTES);
  }

  lemma SymbolHalf(data: seq<Byte>)
    requires HoldsAt(data, 268, SYMBOL_BYTES)
    ensures ReadU16(data, 282) == Ok(1) && |data| > 280 && data[280] == 0
  {
    assert data[268..284] == SYMBOL_BYTES;
    assert data[280] == data[268..284][12] && data[282] == data[268..284][14] && data[283] == data[268..284][15];
  }

  lemma SymbolRead(data: seq<Byte>)
    requires HoldsAt(data, 268, SYMBOL_BYTES) && CString(NAMES, 0) == Ok([])
    ensures SymbolAt(data, NAMES, 268) == Ok(SYMBOL)
  {
    hide CString, ReadU32, ReadU16, HoldsAt;
    SymbolWords(data);
    SymbolHalf(data);
  }

  lemma ObjectSymbols(rela: Header, first: Entry, second: Entry)
    ensures SymbolsOf(Object(rela, first, second), SectionsWith(rela), 0) == Ok([SYMBOL])
  {
    hide SymbolAt, Object, Slice, CString, HoldsAt, HeaderBytes, EntryBytes, Zeroes;
    var data := Object(rela, first, second);
    ObjectParts(rela, first, second);
    NamesRead(data);
    SymbolRead(data);
    assert [SYMBOL] + [] == [SYMBOL];
    assert SymbolsFrom(data, NAMES, 268, 16, 1, 1) == Ok([]);
    assert SymbolsFrom(data, NAMES, 268, 16, 0, 1) == Ok([SYMBOL]);
  }
}
