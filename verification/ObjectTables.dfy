/** What the parsers read, and when they succeed: every field by its place in the file. */
module ObjectTables {
  import opened Bytes
  import opened ElfObject

  /** The number in the `width` bytes from `at`, the least significant first. */
  function Number(data: seq<Byte>, at: nat, width: nat): nat
    requires at + width <= |data|
    decreases width
  {
    if width == 0 then 0 else data[at] + 256 * Number(data, at + 1, width - 1)
  }

  /** The bytes from `offset` up to the first zero byte or the end of the table. */
  predicate IsName(table: seq<Byte>, offset: nat, name: seq<Byte>) {
    && offset + |name| <= |table| && table[offset..offset + |name|] == name && 0 !in name
    && (offset + |name| == |table| || table[offset + |name|] == 0)
  }

  predicate IsHeader(data: seq<Byte>, at: nat, h: Header) {
    && at + 40 <= |data|
    && h.name == Number(data, at, 4) && h.sectionType == Number(data, at + 4, 4)
    && h.flags == Number(data, at + 8, 4) && h.address == Number(data, at + 12, 4)
    && h.offset == Number(data, at + 16, 4) && h.size == Number(data, at + 20, 4)
    && h.link == Number(data, at + 24, 4) && h.info == Number(data, at + 28, 4)
    && h.entrySize == Number(data, at + 36, 4)
  }

  predicate IsSymbol(data: seq<Byte>, strings: seq<Byte>, at: nat, s: Symbol) {
    && at + 16 <= |data|
    && Number(data, at, 4) < |strings| && IsName(strings, Number(data, at, 4), s.name)
    && s.value == Number(data, at + 4, 4) && s.info == data[at + 12] && s.sectionIndex == Number(data, at + 14, 2)
  }

  // ----- numbers and names -----

  lemma NumbersRead(data: seq<Byte>, at: nat)
    ensures ReadU32(data, at).Ok? <==> at + 4 <= |data|
    ensures at + 4 <= |data| ==> ReadU32(data, at).value == Number(data, at, 4)
    ensures ReadU16(data, at).Ok? <==> at + 2 <= |data|
    ensures at + 2 <= |data| ==> ReadU16(data, at).value == Number(data, at, 2)
  {
    if at + 2 <= |data| {
      assert Number(data, at + 1, 1) == data[at + 1] + 256 * Number(data, at + 2, 0);
    }
    if at + 4 <= |data| {
      assert Number(data, at + 3, 1) == data[at + 3] + 256 * Number(data, at + 4, 0);
      assert Number(data, at + 2, 2) == data[at + 2] + 256 * Number(data, at + 3, 1);
      assert Number(data, at + 1, 3) == data[at + 1] + 256 * Number(data, at + 2, 2);
    }
  }

  lemma {:induction false} UntilNulStops(s: seq<Byte>)
    ensures IsName(s, 0, UntilNul(s))
  {
    if s != [] && s[0] != 0 {
      UntilNulStops(s[1..]);
      var rest := UntilNul(s[1..]);
      assert s[..1 + |rest|] == [s[0]] + s[1..][..|rest|];
    }
  }

  lemma NameRead(table: seq<Byte>, offset: nat)
    ensures CString(table, offset).Ok? <==> offset < |table|
    ensures offset < |table| ==> IsName(table, offset, CString(table, offset).value)
  {
    if offset < |table| {
      UntilNulStops(table[offset..]);
      var name := UntilNul(table[offset..]);
      assert table[offset..offset + |name|] == table[offset..][..|name|];
    }
  }

  // ----- section headers -----

  function Place(table: nat, entrySize: nat, k: nat): nat { table + k * entrySize }

  lemma PlaceIs(table: nat, entrySize: nat, k: nat)
    ensures Place(table, entrySize, k) == EntryAt(table, entrySize, k)
  {
  }

  lemma HeaderRead(data: seq<Byte>, at: nat)
    ensures HeaderAt(data, at).Ok? <==> at + 40 <= |data|
    ensures at + 40 <= |data| ==> IsHeader(data, at, HeaderAt(data, at).value)
  {
    hide ReadU32, Number;
    NumbersRead(data, at);
    NumbersRead(data, at + 4);
    NumbersRead(data, at + 8);
    NumbersRead(data, at + 12);
    NumbersRead(data, at + 16);
    NumbersRead(data, at + 20);
    NumbersRead(data, at + 24);
    NumbersRead(data, at + 28);
    NumbersRead(data, at + 36);
  }

  lemma {:induction false} HeadersRead(data: seq<Byte>, table: nat, entrySize: nat, index: nat, count: nat)
    requires index <= count
    ensures var r := HeadersFrom(data, table, entrySize, index, count);
            && (r.Ok? <==> forall k :: index <= k < count ==> Place(table, entrySize, k) + 40 <= |data|)
            && (r.Ok? ==> forall k :: index <= k < count ==>
                            IsHeader(data, Place(table, entrySize, k), r.value[k - index]))
    decreases count - index
  {
    hide HeaderAt, IsHeader, Place, EntryAt;
    if index < count {
      PlaceIs(table, entrySize, index);
      HeaderRead(data, Place(table, entrySize, index));
      HeadersRead(data, table, entrySize, index + 1, count);
    }
  }

  lemma {:induction false} NamesRead(headers: seq<Header>, names: seq<Byte>, index: nat)
    requires index <= |headers|
    ensures var r := NamedFrom(headers, names, index);
            && (r.Ok? <==> forall k :: index <= k < |headers| ==> headers[k].name < |names|)
            && (r.Ok? ==> forall k :: index <= k < |headers| ==>
                            IsName(names, headers[k].name, r.value[k - index].name))
    decreases |headers| - index
  {
    hide CString, IsName;
    if index < |headers| {
      NameRead(names, headers[index].name);
      NamesRead(headers, names, index + 1);
    }
  }

  /** A little-endian 32-bit ELF file with its whole header. */
  predicate IsElf32(data: seq<Byte>) {
    && |data| >= 52 && data[0] == 0x7f && data[1] == 0x45 && data[2] == 0x4c && data[3] == 0x46
    && data[4] == 1 && data[5] == 1
  }

  lemma ShapeRead(data: seq<Byte>)
    ensures ShapeOf(data).Ok? <==>
              IsElf32(data) && Number(data, 46, 2) >= 40 && Number(data, 50, 2) < Number(data, 48, 2)
    ensures ShapeOf(data).Ok? ==>
              ShapeOf(data).value
              == TableShape(Number(data, 32, 4), Number(data, 46, 2), Number(data, 48, 2), Number(data, 50, 2))
  {
    hide ReadU32, ReadU16, Number;
    NumbersRead(data, 32);
    NumbersRead(data, 46);
    NumbersRead(data, 48);
    NumbersRead(data, 50);
    if |data| > 5 {
      var magic: seq<Byte> := [0x7f, 0x45, 0x4c, 0x46];
      assert data[..4] == [data[0], data[1], data[2], data[3]];
      assert data[..4] == magic <==> data[0] == 0x7f && data[1] == 0x45 && data[2] == 0x4c && data[3] == 0x46;
    }
  }

  /** The place of a section's header: where the table begins, and the length of each header, are words of the
      file's header. */
  function HeaderPlace(data: seq<Byte>, k: nat): nat
    requires |data| >= 52
  {
    Place(Number(data, 32, 4), Number(data, 46, 2), k)
  }

  predicate HeadersInFile(data: seq<Byte>)
    requires |data| >= 52
  {
    forall k :: 0 <= k < Number(data, 48, 2) ==> HeaderPlace(data, k) + 40 <= |data|
  }

  /** The section of names lies in the file, and every section's name begins in it. */
  predicate NamesInFile(data: seq<Byte>, names: nat)
    requires |data| >= 52 && HeadersInFile(data) && names + 40 <= |data|
  {
    && Number(data, names + 16, 4) + Number(data, names + 20, 4) <= |data|
    && forall k :: 0 <= k < Number(data, 48, 2) ==> Number(data, HeaderPlace(data, k), 4) < Number(data, names + 20, 4)
  }

  /** A 32-bit little-endian ELF file whose section headers of at least 40 bytes lie in the file, as do the
      names, where every section's name begins. */
  predicate HasSections(data: seq<Byte>) {
    && IsElf32(data) && Number(data, 46, 2) >= 40 && Number(data, 50, 2) < Number(data, 48, 2)
    && HeadersInFile(data) && NamesInFile(data, HeaderPlace(data, Number(data, 50, 2)))
  }

  lemma SectionsOpen(data: seq<Byte>)
    requires IsElf32(data) && Number(data, 46, 2) >= 40 && Number(data, 50, 2) < Number(data, 48, 2)
    requires ShapeOf(data)
             == Ok(TableShape(Number(data, 32, 4), Number(data, 46, 2), Number(data, 48, 2), Number(data, 50, 2)))
    ensures var r := HeadersFrom(data, Number(data, 32, 4), Number(data, 46, 2), 0, Number(data, 48, 2));
            && (r.Ok? <==> HeadersInFile(data))
            && (r.Ok? ==> forall k :: 0 <= k < Number(data, 48, 2) ==> IsHeader(data, HeaderPlace(data, k), r.value[k]))
  {
    hide Place, Number, IsHeader, HeadersFrom;
    assert forall k: nat {:trigger Place(Number(data, 32, 4), Number(data, 46, 2), k)} ::
        HeaderPlace(data, k) == Place(Number(data, 32, 4), Number(data, 46, 2), k);
    HeadersRead(data, Number(data, 32, 4), Number(data, 46, 2), 0, Number(data, 48, 2));
  }

  /** The section parser succeeds exactly on such files, and each section has its header's fields and the name
      its header points at. */
  lemma SectionsRead(data: seq<Byte>)
    ensures SectionsOf(data).Ok? <==> HasSections(data)
    ensures HasSections(data) ==>
              var sections := SectionsOf(data).value;
              && |sections| == Number(data, 48, 2) && Number(data, 50, 2) < |sections|
              && var names := sections[Number(data, 50, 2)].header;
              && names.offset + names.size <= |data|
              && forall k :: 0 <= k < |sections| ==>
                   && IsHeader(data, HeaderPlace(data, k), sections[k].header)
                   && IsName(data[names.offset..names.offset + names.size], sections[k].header.name, sections[k].name)
  {
    hide ShapeOf, HeadersFrom, NamedFrom, Number, IsName, HeaderPlace, ReadU32, HeaderAt;
    ShapeRead(data);
    if ShapeOf(data).Ok? {
      SectionsOpen(data);
      var headers := HeadersFrom(data, Number(data, 32, 4), Number(data, 46, 2), 0, Number(data, 48, 2));
      if headers.Ok? {
        var names := headers.value[Number(data, 50, 2)];
        assert IsHeader(data, HeaderPlace(data, Number(data, 50, 2)), names);
        if names.offset + names.size <= |data| {
          NamesRead(headers.value, data[names.offset..names.offset + names.size], 0);
        }
      }
    }
  }

  // ----- symbol tables -----

  lemma SymbolRead(data: seq<Byte>, strings: seq<Byte>, at: nat)
    ensures SymbolAt(data, strings, at).Ok? <==> at + 16 <= |data| && Number(data, at, 4) < |strings|
    ensures SymbolAt(data, strings, at).Ok? ==> IsSymbol(data, strings, at, SymbolAt(data, strings, at).value)
  {
    hide ReadU32, ReadU16, Number, CString, IsName;
    NumbersRead(data, at);
    NumbersRead(data, at + 4);
    NumbersRead(data, at + 14);
    if at + 4 <= |data| {
      NameRead(strings, Number(data, at, 4));
    }
  }

  /** A symbol's bytes lie in the file and its name begins in the strings. */
  predicate SymbolHeld(data: seq<Byte>, strings: seq<Byte>, at: nat) {
    at + 16 <= |data| && Number(data, at, 4) < |strings|
  }

  lemma {:induction false} SymbolListRead(data: seq<Byte>, strings: seq<Byte>, table: nat, entrySize: nat, index: nat,
                                          count: nat)
    requires index <= count
    ensures var r := SymbolsFrom(data, strings, table, entrySize, index, count);
            && (r.Ok? <==> forall k :: index <= k < count ==> SymbolHeld(data, strings, Place(table, entrySize, k)))
            && (r.Ok? ==> forall k :: index <= k < count ==>
                            IsSymbol(data, strings, Place(table, entrySize, k), r.value[k - index]))
    decreases count - index
  {
    hide SymbolAt, IsSymbol, Place, EntryAt, Number;
    if index < count {
      PlaceIs(table, entrySize, index);
      SymbolRead(data, strings, Place(table, entrySize, index));
      SymbolListRead(data, strings, table, entrySize, index + 1, count);
    }
  }

  /** The indexed section is a symbol table whose entries have at least 16 bytes; it, its strings and its
      symbols lie in the file. */
  predicate HasSymbols(data: seq<Byte>, sections: seq<Section>, index: nat) {
    && index < |sections|
    && var h := sections[index].header;
    && h.sectionType == 2 && h.entrySize >= 16 && h.link < |sections| && h.offset + h.size <= |data|
    && var names := sections[h.link].header;
    && names.offset + names.size <= |data|
    && forall k :: 0 <= k < h.size / h.entrySize ==>
         SymbolHeld(data, data[names.offset..names.offset + names.size], Place(h.offset, h.entrySize, k))
  }

  /** The symbol parser succeeds exactly on such tables, and each symbol has its entry's fields and the name its
      entry points at. */
  lemma SymbolsRead(data: seq<Byte>, sections: seq<Section>, index: nat)
    ensures SymbolsOf(data, sections, index).Ok? <==> HasSymbols(data, sections, index)
    ensures HasSymbols(data, sections, index) ==>
              var h := sections[index].header;
              var names := sections[h.link].header;
              var symbols := SymbolsOf(data, sections, index).value;
              && |symbols| == h.size / h.entrySize
              && forall k :: 0 <= k < |symbols| ==>
                   IsSymbol(data, data[names.offset..names.offset + names.size], Place(h.offset, h.entrySize, k),
                            symbols[k])
  {
    hide SymbolsFrom, SymbolHeld, IsSymbol, Place;
    if index < |sections| {
      var h := sections[index].header;
      if h.entrySize >= 16 && h.link < |sections| {
        var names := sections[h.link].header;
        if names.offset + names.size <= |data| {
          SymbolListRead(data, data[names.offset..names.offset + names.size], h.offset, h.entrySize, 0,
                         h.size / h.entrySize);
        }
      }
    }
  }
}
