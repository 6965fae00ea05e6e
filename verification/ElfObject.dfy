/** Reading an ELF32 little-endian relocatable object: section headers, symbol tables, and the facts
    that what is read depends only on the bytes of those tables. */
module ElfObject {
  import opened Bytes

  const SHT_SYMTAB := 2
  const SHT_RELA := 4
  const SHN_UNDEF := 0

  datatype Error =
    | RangeExceeded | NotElf32 | HeaderSize | NamesIndex | StringOffset
    | SymtabIndex | NotSymtab | StringTable
    | TargetIndex | EntrySize | Overflow | SiteRange | SymbolIndex | CrossSection | Displacement
    | MarkerForm | UndeclaredType
    | ArMagic | ArHeader | ArDecimal | ArName

  datatype Header = Header(
    name: U32, sectionType: U32, flags: U32, address: U32, offset: U32, size: U32, link: U32, info: U32, entrySize: U32)

  datatype Section = Section(name: seq<Byte>, header: Header) {
    predicate IsRela() { header.sectionType == SHT_RELA }
  }

  datatype Symbol = Symbol(name: seq<Byte>, value: U32, sectionIndex: U16, info: Byte)

  // ----- bounded reads -----

  function CheckedRange(data: seq<Byte>, offset: nat, length: nat): (r: Result<nat, Error>)
    ensures r.Ok? <==> offset + length <= |data|
    ensures r.Ok? ==> r.value == offset + length
  {
    if offset + length > |data| then Err(RangeExceeded) else Ok(offset + length)
  }

  function ReadU16(data: seq<Byte>, offset: nat): Result<U16, Error> {
    var _ :- CheckedRange(data, offset, 2);
    var word: U16 := data[offset] as int + 0x100 * data[offset + 1] as int;
    Ok(word)
  }

  function ReadU32(data: seq<Byte>, offset: nat): Result<U32, Error> {
    var _ :- CheckedRange(data, offset, 4);
    Ok(Word(data[offset], data[offset + 1], data[offset + 2], data[offset + 3]))
  }

  function ReadI32(data: seq<Byte>, offset: nat): Result<int, Error> {
    var word :- ReadU32(data, offset);
    Ok(Signed(word))
  }

  function UntilNul(s: seq<Byte>): seq<Byte> {
    if s == [] || s[0] == 0 then [] else [s[0]] + UntilNul(s[1..])
  }

  function CString(table: seq<Byte>, offset: nat): Result<seq<Byte>, Error> {
    if offset >= |table| then Err(StringOffset) else Ok(UntilNul(table[offset..]))
  }

  /** Put the elements already read in front of what is still to be read. */
  function Prepend<T>(done: seq<T>, rest: Result<seq<T>, Error>): Result<seq<T>, Error> {
    if rest.Ok? then Ok(done + rest.value) else rest
  }

  lemma PrependNothing<T>(rest: Result<seq<T>, Error>)
    ensures Prepend([], rest) == rest
  {
    assert rest.Ok? ==> [] + rest.value == rest.value;
  }

  lemma PrependOne<T>(done: seq<T>, next: T, rest: Result<seq<T>, Error>)
    ensures rest.Ok? ==> Prepend(done, Ok([next] + rest.value)) == Prepend(done + [next], rest)
    ensures rest.Err? ==> Prepend(done + [next], rest) == rest
  {
    assert rest.Ok? ==> done + ([next] + rest.value) == done + [next] + rest.value;
  }

  // ----- section headers -----

  function Slice(data: seq<Byte>, offset: nat, length: nat): Result<seq<Byte>, Error> {
    var end :- CheckedRange(data, offset, length);
    Ok(data[offset..end])
  }

  /** Offset of entry `index` of a table. */
  function EntryAt(table: nat, entrySize: nat, index: nat): nat {
    table + index * entrySize
  }

  function HeaderAt(data: seq<Byte>, at: nat): Result<Header, Error> {
    var _ :- CheckedRange(data, at, 40);
    var name :- ReadU32(data, at);
    var sectionType :- ReadU32(data, at + 4);
    var flags :- ReadU32(data, at + 8);
    var address :- ReadU32(data, at + 12);
    var offset :- ReadU32(data, at + 16);
    var size :- ReadU32(data, at + 20);
    var link :- ReadU32(data, at + 24);
    var info :- ReadU32(data, at + 28);
    var entrySize :- ReadU32(data, at + 36);
    Ok(Header(name, sectionType, flags, address, offset, size, link, info, entrySize))
  }

  function HeadersFrom(data: seq<Byte>, table: nat, entrySize: nat, index: nat,
                       count: nat): (r: Result<seq<Header>, Error>)
    ensures r.Ok? && index <= count ==> |r.value| == count - index
    decreases count - index
  {
    if index >= count then Ok([])
    else
      var header :- HeaderAt(data, EntryAt(table, entrySize, index));
      var rest :- HeadersFrom(data, table, entrySize, index + 1, count);
      Ok([header] + rest)
  }

  function NamedFrom(headers: seq<Header>, names: seq<Byte>, index: nat): (r: Result<seq<Section>, Error>)
    requires index <= |headers|
    ensures r.Ok? ==> |r.value| == |headers| - index
    ensures r.Ok? ==> forall k :: 0 <= k < |r.value| ==> r.value[k].header == headers[index + k]
    decreases |headers| - index
  {
    if index == |headers| then Ok([])
    else
      var name :- CString(names, headers[index].name);
      var rest :- NamedFrom(headers, names, index + 1);
      Ok([Section(name, headers[index])] + rest)
  }

  predicate HasElf32Ident(data: seq<Byte>) {
    |data| > 5 && data[..4] == [0x7f, 0x45, 0x4c, 0x46] && data[4] == 1 && data[5] == 1
  }

  datatype TableShape = TableShape(offset: U32, entrySize: U16, count: U16, namesIndex: U16)

  function ShapeOf(data: seq<Byte>): Result<TableShape, Error> {
    if !HasElf32Ident(data) then Err(NotElf32)
    else
      var offset :- ReadU32(data, 0x20);
      var entrySize :- ReadU16(data, 0x2e);
      var count :- ReadU16(data, 0x30);
      var namesIndex :- ReadU16(data, 0x32);
      if entrySize < 40 then Err(HeaderSize)
      else if namesIndex >= count then Err(NamesIndex)
      else Ok(TableShape(offset, entrySize, count, namesIndex))
  }

  function SectionsOf(data: seq<Byte>): Result<seq<Section>, Error> {
    var shape :- ShapeOf(data);
    var headers :- HeadersFrom(data, shape.offset, shape.entrySize, 0, shape.count);
    var names :- Slice(data, headers[shape.namesIndex].offset, headers[shape.namesIndex].size);
    NamedFrom(headers, names, 0)
  }

  method ReadHeaders(data: seq<Byte>, table: nat, entrySize: nat, count: nat) returns (r: Result<seq<Header>, Error>)
    ensures r == HeadersFrom(data, table, entrySize, 0, count)
  {
    var headers := [];
    PrependNothing(HeadersFrom(data, table, entrySize, 0, count));
    for index := 0 to count
      invariant HeadersFrom(data, table, entrySize, 0, count)
             == Prepend(headers, HeadersFrom(data, table, entrySize, index, count))
    {
      var header :- HeaderAt(data, EntryAt(table, entrySize, index));
      PrependOne(headers, header, HeadersFrom(data, table, entrySize, index + 1, count));
      headers := headers + [header];
    }
    assert headers + [] == headers;
    return Ok(headers);
  }

  method NameSections(headers: seq<Header>, names: seq<Byte>) returns (r: Result<seq<Section>, Error>)
    ensures r == NamedFrom(headers, names, 0)
  {
    var sections := [];
    PrependNothing(NamedFrom(headers, names, 0));
    for index := 0 to |headers|
      invariant NamedFrom(headers, names, 0) == Prepend(sections, NamedFrom(headers, names, index))
    {
      var name :- CString(names, headers[index].name);
      PrependOne(sections, Section(name, headers[index]), NamedFrom(headers, names, index + 1));
      sections := sections + [Section(name, headers[index])];
    }
    assert sections + [] == sections;
    return Ok(sections);
  }

  method ParseSections(data: seq<Byte>) returns (r: Result<seq<Section>, Error>)
    ensures r == SectionsOf(data)
  {
    var shape :- ShapeOf(data);
    var headers :- ReadHeaders(data, shape.offset, shape.entrySize, shape.count);
    var names :- Slice(data, headers[shape.namesIndex].offset, headers[shape.namesIndex].size);
    r := NameSections(headers, names);
  }

  // ----- symbol tables -----

  function SymbolAt(data: seq<Byte>, strings: seq<Byte>, at: nat): Result<Symbol, Error> {
    var nameOffset :- ReadU32(data, at);
    var name :- CString(strings, nameOffset);
    var value :- ReadU32(data, at + 4);
    var sectionIndex :- ReadU16(data, at + 14);
    if at + 12 >= |data| then Err(RangeExceeded)
    else Ok(Symbol(name, value, sectionIndex, data[at + 12]))
  }

  function SymbolsFrom(data: seq<Byte>, strings: seq<Byte>, table: nat, entrySize: nat, index: nat,
                       count: nat): (r: Result<seq<Symbol>, Error>)
    ensures r.Ok? && index <= count ==> |r.value| == count - index
    decreases count - index
  {
    if index >= count then Ok([])
    else
      var symbol :- SymbolAt(data, strings, EntryAt(table, entrySize, index));
      var rest :- SymbolsFrom(data, strings, table, entrySize, index + 1, count);
      Ok([symbol] + rest)
  }

  function SymbolsOf(data: seq<Byte>, sections: seq<Section>, symtabIndex: nat): Result<seq<Symbol>, Error> {
    if symtabIndex >= |sections| then Err(SymtabIndex)
    else
      var symtab := sections[symtabIndex].header;
      if symtab.sectionType != SHT_SYMTAB || symtab.entrySize < 16 then Err(NotSymtab)
      else if symtab.link >= |sections| then Err(StringTable)
      else
        var strings :- Slice(data, sections[symtab.link].header.offset, sections[symtab.link].header.size);
        var _ :- CheckedRange(data, symtab.offset, symtab.size);
        SymbolsFrom(data, strings, symtab.offset, symtab.entrySize, 0, symtab.size / symtab.entrySize)
  }

  method ReadSymbols(data: seq<Byte>, strings: seq<Byte>, table: nat, entrySize: nat, count: nat)
    returns (r: Result<seq<Symbol>, Error>)
    ensures r == SymbolsFrom(data, strings, table, entrySize, 0, count)
  {
    var symbols := [];
    PrependNothing(SymbolsFrom(data, strings, table, entrySize, 0, count));
    for index := 0 to count
      invariant SymbolsFrom(data, strings, table, entrySize, 0, count)
             == Prepend(symbols, SymbolsFrom(data, strings, table, entrySize, index, count))
    {
      var symbol :- SymbolAt(data, strings, EntryAt(table, entrySize, index));
      PrependOne(symbols, symbol, SymbolsFrom(data, strings, table, entrySize, index + 1, count));
      symbols := symbols + [symbol];
    }
    assert symbols + [] == symbols;
    return Ok(symbols);
  }

  method ParseSymbols(data: seq<Byte>, sections: seq<Section>, symtabIndex: nat) returns (r: Result<seq<Symbol>, Error>)
    ensures r == SymbolsOf(data, sections, symtabIndex)
  {
    if symtabIndex >= |sections| { return Err(SymtabIndex); }
    var symtab := sections[symtabIndex].header;
    if symtab.sectionType != SHT_SYMTAB || symtab.entrySize < 16 { return Err(NotSymtab); }
    if symtab.link >= |sections| { return Err(StringTable); }
    var strings :- Slice(data, sections[symtab.link].header.offset, sections[symtab.link].header.size);
    var _ :- CheckedRange(data, symtab.offset, symtab.size);
    r := ReadSymbols(data, strings, symtab.offset, symtab.entrySize, symtab.size / symtab.entrySize);
  }

  // ----- what is read depends only on the tables' bytes -----

  /** The bytes `SectionsOf` reads: ELF header, section header table, section name table. */
  predicate InHeaders(data: seq<Byte>, i: int) {
    || i < 0x34
    || (ShapeOf(data).Ok? &&
        var shape := ShapeOf(data).value;
        || InSpan(i, shape.offset, shape.count * shape.entrySize)
        || (SectionsOf(data).Ok? && shape.namesIndex < |SectionsOf(data).value| &&
            var names := SectionsOf(data).value[shape.namesIndex].header;
            InSpan(i, names.offset, names.size)))
  }

  /** The bytes `SymbolsOf` reads: the symbol table and its string table. */
  predicate InSymbols(sections: seq<Section>, symtabIndex: nat, i: int) {
    && symtabIndex < |sections|
    && var symtab := sections[symtabIndex].header;
    && (|| InSpan(i, symtab.offset, symtab.size)
        || (symtab.link < |sections| &&
            InSpan(i, sections[symtab.link].header.offset, sections[symtab.link].header.size)))
  }

  lemma IndexedSpan(entrySize: nat, index: nat, count: nat)
    requires index < count
    ensures 0 <= index * entrySize && index * entrySize + entrySize <= count * entrySize
  {
    assert count * entrySize == index * entrySize + entrySize + (count - index - 1) * entrySize;
  }

  lemma {:induction false} HeadersLocal(left: seq<Byte>, right: seq<Byte>, table: nat, entrySize: nat, index: nat,
                                        count: nat)
    requires entrySize >= 40 && index <= count
    requires Agree(left, right, table, count * entrySize)
    ensures HeadersFrom(left, table, entrySize, index, count) == HeadersFrom(right, table, entrySize, index, count)
    decreases count - index
  {
    if index < count {
      IndexedSpan(entrySize, index, count);
      var at := EntryAt(table, entrySize, index);
      assert forall i {:trigger left[i]} :: at <= i < at + 40 && i < |left| ==> InSpan(i, table, count * entrySize);
      assert HeaderAt(left, at) == HeaderAt(right, at);
      HeadersLocal(left, right, table, entrySize, index + 1, count);
    }
  }

  lemma SliceLocal(left: seq<Byte>, right: seq<Byte>, offset: nat, length: nat)
    requires Agree(left, right, offset, length)
    ensures Slice(left, offset, length) == Slice(right, offset, length)
  {
    if offset + length <= |left| {
      assert forall i {:trigger left[i]} :: offset <= i < offset + length ==> InSpan(i, offset, length);
      assert left[offset..offset + length] == right[offset..offset + length];
    }
  }

  lemma ShapeLocal(left: seq<Byte>, right: seq<Byte>)
    requires ShapeOf(left).Ok? && |left| == |right|
    requires forall i :: 0 <= i < |left| && InSpan(i, 0, 52) ==> left[i] == right[i]
    ensures ShapeOf(right) == ShapeOf(left)
  {
    assert left[..4] == right[..4];
  }

  lemma SectionsLocal(left: seq<Byte>, right: seq<Byte>)
    requires SectionsOf(left).Ok? && |left| == |right|
    requires forall i :: 0 <= i < |left| && InHeaders(left, i) ==> left[i] == right[i]
    ensures SectionsOf(right) == SectionsOf(left)
  {
    assert ShapeOf(left).value.entrySize >= 40 && ShapeOf(left).value.namesIndex < ShapeOf(left).value.count;
    hide ShapeOf, HeadersFrom, Slice;
    ShapeLocal(left, right);
    var shape := ShapeOf(left).value;
    HeadersLocal(left, right, shape.offset, shape.entrySize, 0, shape.count);
    var headers := HeadersFrom(left, shape.offset, shape.entrySize, 0, shape.count).value;
    var names := headers[shape.namesIndex];
    assert SectionsOf(left).value[shape.namesIndex].header == names;
    SliceLocal(left, right, names.offset, names.size);
  }

  lemma {:induction false} SymbolsFromLocal(left: seq<Byte>, right: seq<Byte>, strings: seq<Byte>, table: nat,
                                            entrySize: nat, index: nat, count: nat)
    requires entrySize >= 16 && index <= count
    requires Agree(left, right, table, count * entrySize)
    ensures SymbolsFrom(left, strings, table, entrySize, index, count) ==
            SymbolsFrom(right, strings, table, entrySize, index, count)
    decreases count - index
  {
    if index < count {
      IndexedSpan(entrySize, index, count);
      var at := EntryAt(table, entrySize, index);
      assert forall i {:trigger left[i]} :: at <= i < at + 16 && i < |left| ==> InSpan(i, table, count * entrySize);
      assert SymbolAt(left, strings, at) == SymbolAt(right, strings, at);
      SymbolsFromLocal(left, right, strings, table, entrySize, index + 1, count);
    }
  }

  lemma SymbolsLocal(left: seq<Byte>, right: seq<Byte>, sections: seq<Section>, symtabIndex: nat)
    requires |left| == |right|
    requires forall i :: 0 <= i < |left| && InSymbols(sections, symtabIndex, i) ==> left[i] == right[i]
    ensures SymbolsOf(left, sections, symtabIndex) == SymbolsOf(right, sections, symtabIndex)
  {
    if symtabIndex < |sections| {
      var symtab := sections[symtabIndex].header;
      if symtab.sectionType == SHT_SYMTAB && symtab.entrySize >= 16 && symtab.link < |sections| {
        var table := sections[symtab.link].header;
        SliceLocal(left, right, table.offset, table.size);
        var strings := Slice(left, table.offset, table.size);
        if strings.Ok? {
          var count := symtab.size / symtab.entrySize;
          assert count * symtab.entrySize <= symtab.size;
          SymbolsFromLocal(left, right, strings.value, symtab.offset, symtab.entrySize, 0, count);
        }
      }
    }
  }
}
