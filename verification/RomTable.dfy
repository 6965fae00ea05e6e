/** The whole ROM patch image: discovery and ordering of the patches, the two table builders, the link of
    the build-script object, and the proof that both lanes give the same image. */
module RomTable {
  import opened Bytes
  import opened RomPatch

  const PATCH_WORDS := 586 // PATCH_SIZE / 4
  const REMAP_WORDS := 388 // REMAP_SIZE / 4
  const COMPARE_WORDS := 198 // COMPARE_SIZE / 4

  datatype TableError = MissingReplacement | MissingRomSymbol | InsideRom | NoPairs | TooMany

  /** A ROM entry with the replacement the final link gave it. */
  datatype Entry = Entry(name: string, original: U32, replacement: U32)

  /** A ROM entry as the build script keeps it, with its address made even. */
  datatype Patch = Patch(name: string, original: U32)

  // ----- the common order: by even address, then by name -----

  predicate StringLess(a: string, b: string) {
    b != [] && (a == [] || a[0] < b[0] || (a[0] == b[0] && StringLess(a[1..], b[1..])))
  }

  datatype Key = Key(address: U32, name: string)

  predicate KeyLess(a: Key, b: Key) {
    a.address < b.address || (a.address == b.address && StringLess(a.name, b.name))
  }

  function Place<T>(x: T, sorted: seq<T>, key: T -> Key): seq<T> {
    if sorted == [] || !KeyLess(key(sorted[0]), key(x)) then [x] + sorted
    else [sorted[0]] + Place(x, sorted[1..], key)
  }

  /** The stable sort both lanes call. */
  function Sort<T>(s: seq<T>, key: T -> Key): seq<T> {
    if s == [] then [] else Place(s[0], Sort(s[1..], key), key)
  }

  function EntryKey(e: Entry): Key { Key(Even(e.original), e.name) }

  function PatchKey(p: Patch): Key { Key(p.original, p.name) }

  function ToPatch(e: Entry): Patch { Patch(e.name, Even(e.original)) }

  function ToPatches(entries: seq<Entry>): (r: seq<Patch>)
    ensures |r| == |entries|
  {
    seq(|entries|, i requires 0 <= i < |entries| => ToPatch(entries[i]))
  }

  lemma {:induction false} StringLessAsymmetric(a: string, b: string)
    requires StringLess(a, b)
    ensures !StringLess(b, a)
  {
    if a != [] && a[0] == b[0] {
      StringLessAsymmetric(a[1..], b[1..]);
    }
  }

  /** No element's key is less than its predecessor's. */
  predicate InOrder<T>(s: seq<T>, key: T -> Key) {
    |s| < 2 || (!KeyLess(key(s[1]), key(s[0])) && InOrder(s[1..], key))
  }

  lemma {:induction false} PlaceInOrder<T>(x: T, sorted: seq<T>, key: T -> Key)
    requires InOrder(sorted, key)
    ensures InOrder(Place(x, sorted, key), key)
    ensures multiset(Place(x, sorted, key)) == multiset(sorted) + multiset{x}
  {
    if sorted == [] || !KeyLess(key(sorted[0]), key(x)) {
      assert ([x] + sorted)[1..] == sorted;
    } else {
      var first, rest := sorted[0], sorted[1..];
      assert sorted == [first] + rest;
      PlaceInOrder(x, rest, key);
      if key(first).address == key(x).address {
        StringLessAsymmetric(key(first).name, key(x).name);
      }
      var r := Place(x, rest, key);
      assert ([first] + r)[1..] == r;
      assert r[0] == x || (rest != [] && r[0] == rest[0] == sorted[1]);
    }
  }

  /** Sorting orders the keys and loses nothing. */
  lemma {:induction false} SortSorts<T>(s: seq<T>, key: T -> Key)
    ensures InOrder(Sort(s, key), key) && multiset(Sort(s, key)) == multiset(s)
  {
    if s != [] {
      SortSorts(s[1..], key);
      PlaceInOrder(s[0], Sort(s[1..], key), key);
      assert s == [s[0]] + s[1..];
    }
  }

  lemma {:induction false} PlaceCommutes(x: Entry, sorted: seq<Entry>)
    ensures ToPatches(Place(x, sorted, EntryKey)) == Place(ToPatch(x), ToPatches(sorted), PatchKey)
  {
    EvenKey(x);
    if sorted != [] {
      EvenKey(sorted[0]);
      assert ToPatches(sorted)[1..] == ToPatches(sorted[1..]);
      PlaceCommutes(x, sorted[1..]);
    }
  }

  lemma EvenKey(e: Entry)
    ensures PatchKey(ToPatch(e)) == EntryKey(e)
  {
  }

  /** The lanes sort different records by the same key, so they agree on the order. */
  lemma {:induction false} SortCommutes(s: seq<Entry>)
    ensures ToPatches(Sort(s, EntryKey)) == Sort(ToPatches(s), PatchKey)
  {
    if s != [] {
      assert ToPatches(s)[1..] == ToPatches(s[1..]);
      SortCommutes(s[1..]);
      PlaceCommutes(s[0], Sort(s[1..], EntryKey));
    }
  }

  // ----- discovery -----

  function PatchName(name: string): string { name + "_patch" }

  /** `discover_pairs` before its sort. */
  function FindPairs(names: seq<string>, rom: map<string, U32>, symbols: map<string, U32>)
    : Result<seq<Entry>, TableError>
  {
    if names == [] then Ok([])
    else if PatchName(names[0]) !in symbols then Err(MissingReplacement)
    else if names[0] !in rom then Err(MissingRomSymbol)
    else if ROM_START <= Even(symbols[PatchName(names[0])]) < ROM_END then Err(InsideRom)
    else
      var rest :- FindPairs(names[1..], rom, symbols);
      Ok([Entry(names[0], rom[names[0]], symbols[PatchName(names[0])])] + rest)
  }

  function DiscoverPairs(names: seq<string>, rom: map<string, U32>, symbols: map<string, U32>)
    : Result<seq<Entry>, TableError>
  {
    var pairs :- FindPairs(names, rom, symbols);
    Ok(Sort(pairs, EntryKey))
  }

  /** The build script's list: only the ROM symbols are known yet. */
  function FindPatches(names: seq<string>, rom: map<string, U32>): Result<seq<Patch>, TableError> {
    if names == [] then Ok([])
    else if names[0] !in rom then Err(MissingRomSymbol)
    else
      var rest :- FindPatches(names[1..], rom);
      Ok([Patch(names[0], Even(rom[names[0]]))] + rest)
  }

  function BuildPatches(names: seq<string>, rom: map<string, U32>): Result<seq<Patch>, TableError> {
    var patches :- FindPatches(names, rom);
    if |patches| > INSTRUCTION_COMPARE_COUNT then Err(TooMany) else Ok(Sort(patches, PatchKey))
  }

  lemma {:induction false} FoundAlike(names: seq<string>, rom: map<string, U32>, symbols: map<string, U32>)
    requires FindPairs(names, rom, symbols).Ok?
    ensures FindPatches(names, rom) == Ok(ToPatches(FindPairs(names, rom, symbols).value))
    ensures forall e :: e in FindPairs(names, rom, symbols).value ==>
              PatchName(e.name) in symbols && e.replacement == symbols[PatchName(e.name)]
  {
    if names != [] {
      FoundAlike(names[1..], rom, symbols);
      var rest := FindPairs(names[1..], rom, symbols).value;
      var all := FindPairs(names, rom, symbols).value;
      assert ToPatches(all) == [ToPatch(all[0])] + ToPatches(rest);
    }
  }

  // ----- the image, word by word -----

  /** The word at index `w` of the finished `.patch` image. */
  function ImageWord(entries: seq<Entry>, w: nat): U32
    requires |entries| <= INSTRUCTION_COMPARE_COUNT
  {
    var slot := w - 2 * DATA_PATCH_ENTRY_COUNT;
    var compare := w - REMAP_WORDS;
    if 0 <= slot < 2 * |entries| then
      var jump := EncodeLongJump(entries[slot / 2].original, entries[slot / 2].replacement);
      if slot % 2 == 0 then jump.auipc else jump.jalr
    else if compare == 1 then PATCH_VMA
    else if compare == 2 then |entries|
    else if COMPARE_HEADER_WORDS <= compare < COMPARE_HEADER_WORDS + |entries| then
      Even(entries[compare - COMPARE_HEADER_WORDS].original) + 1
    else 0
  }

  function WordOf(data: seq<Byte>, w: nat): U32
    requires 4 * w + 4 <= |data|
  {
    Word(data[4 * w], data[4 * w + 1], data[4 * w + 2], data[4 * w + 3])
  }

  method PutWord(table: array<Byte>, w: nat, value: U32)
    requires 4 * w + 4 <= table.Length
    modifies table
    ensures forall v :: 0 <= v && 4 * v + 4 <= table.Length ==>
              WordOf(table[..], v) == if v == w then value else old(WordOf(table[..], v))
  {
    WordAtRoundTrip(0, value);
    table[4 * w] := value % 0x100;
    table[4 * w + 1] := value / 0x100 % 0x100;
    table[4 * w + 2] := value / 0x1_0000 % 0x100;
    table[4 * w + 3] := value / 0x100_0000;
  }

  // ----- generate-rom-patch.py: build_table -----

  method BuildTable(pairs: seq<Entry>) returns (r: Result<array<Byte>, TableError>)
    ensures r.Err? <==> pairs == [] || |pairs| > 192
    ensures r.Ok? ==> r.value.Length == 0x928 && fresh(r.value)
    ensures r.Ok? ==> forall w :: 0 <= w < 586 ==> WordOf(r.value[..], w) == ImageWord(pairs, w)
  {
    hide EncodeLongJump, WordOf;
    if pairs == [] { return Err(NoPairs); }
    if |pairs| > INSTRUCTION_COMPARE_COUNT { return Err(TooMany); }
    var n := |pairs|;
    var table := NewTable(PATCH_SIZE, PATCH_WORDS);
    for i := 0 to n
      invariant forall w :: 0 <= w < PATCH_WORDS ==>
                  WordOf(table[..], w) == if w < 2 * (DATA_PATCH_ENTRY_COUNT + i) then ImageWord(pairs, w) else 0
    {
      var stub := EncodeLongJump(pairs[i].original, pairs[i].replacement);
      PutWord(table, 2 * (DATA_PATCH_ENTRY_COUNT + i), stub.auipc);
      PutWord(table, 2 * (DATA_PATCH_ENTRY_COUNT + i) + 1, stub.jalr);
    }
    PutWord(table, REMAP_WORDS, 0);
    PutWord(table, REMAP_WORDS + 1, PATCH_VMA);
    PutWord(table, REMAP_WORDS + 2, n);
    for i := 0 to n
      invariant forall w :: 0 <= w < PATCH_WORDS ==>
                  WordOf(table[..], w) == if w < REMAP_WORDS + COMPARE_HEADER_WORDS + i then ImageWord(pairs, w) else 0
    {
      PutWord(table, REMAP_WORDS + COMPARE_HEADER_WORDS + i, Even(pairs[i].original) + 1);
    }
    return Ok(table);
  }

  method NewTable(size: nat, words: nat) returns (table: array<Byte>)
    requires size == 4 * words
    ensures table.Length == size && fresh(table)
    ensures forall w :: 0 <= w < words ==> WordOf(table[..], w) == 0
  {
    table := new Byte[size](_ => 0);
  }

  // ----- build.rs: write_rom_patch_object -----

  datatype Relocation = Relocation(offset: nat, symbol: string, addend: int, relocationType: int)

  /** The object the build script writes: two sections and the relocations of the first. */
  datatype RomObject = RomObject(remap: seq<U32>, compare: seq<U32>, relocations: seq<Relocation>)

  function SlotOffset(index: nat): nat { 8 * (DATA_PATCH_ENTRY_COUNT + index) }

  function RemapWord(n: nat, w: nat): U32 {
    if 2 * DATA_PATCH_ENTRY_COUNT <= w < 2 * (DATA_PATCH_ENTRY_COUNT + n)
    then (if w % 2 == 0 then AUIPC_X6 else JALR_X0_X6) else 0
  }

  function CompareWord(patches: seq<Patch>, w: nat): U32
    requires |patches| <= INSTRUCTION_COMPARE_COUNT
    requires forall i :: 0 <= i < |patches| ==> patches[i].original % 2 == 0
  {
    if w == 1 then PATCH_VMA
    else if w == 2 then |patches|
    else if COMPARE_HEADER_WORDS <= w < COMPARE_HEADER_WORDS + |patches|
    then patches[w - COMPARE_HEADER_WORDS].original + 1
    else 0
  }

  function RelocationOf(patch: Patch, index: nat): Relocation {
    Relocation(SlotOffset(index), PatchName(patch.name), (PATCH_VMA + SlotOffset(index)) - patch.original,
               R_RISCV_CALL_PLT)
  }

  function ObjectOf(patches: seq<Patch>): RomObject
    requires |patches| <= INSTRUCTION_COMPARE_COUNT
    requires forall i :: 0 <= i < |patches| ==> patches[i].original % 2 == 0
  {
    RomObject(seq(REMAP_WORDS, w requires 0 <= w < REMAP_WORDS => RemapWord(|patches|, w)),
              seq(COMPARE_WORDS, w requires 0 <= w < COMPARE_WORDS => CompareWord(patches, w)),
              seq(|patches|, i requires 0 <= i < |patches| => RelocationOf(patches[i], i)))
  }

  method WriteRomPatchObject(patches: seq<Patch>)
    returns (remap: array<Byte>, compare: array<Byte>, relocations: seq<Relocation>)
    requires |patches| <= INSTRUCTION_COMPARE_COUNT
    requires forall i :: 0 <= i < |patches| ==> patches[i].original % 2 == 0
    ensures remap.Length == REMAP_SIZE && compare.Length == COMPARE_SIZE
    ensures forall w :: 0 <= w < REMAP_WORDS ==> WordOf(remap[..], w) == ObjectOf(patches).remap[w]
    ensures forall w :: 0 <= w < COMPARE_WORDS ==> WordOf(compare[..], w) == ObjectOf(patches).compare[w]
    ensures relocations == ObjectOf(patches).relocations
    ensures forall k :: 0 <= k < |relocations| ==>
              relocations[k] == Relocation(16 + 8 * k, patches[k].name + "_patch",
                                           0x14_c010 + 8 * k - patches[k].original, 19)
  {
    hide WordOf;
    var n := |patches|;
    remap := NewTable(REMAP_SIZE, REMAP_WORDS);
    compare := NewTable(COMPARE_SIZE, COMPARE_WORDS);
    PutWord(compare, 1, PATCH_VMA);
    PutWord(compare, 2, n);
    for i := 0 to n
      invariant forall w :: 0 <= w < REMAP_WORDS ==> WordOf(remap[..], w) == RemapWord(i, w)
      invariant forall w :: 0 <= w < COMPARE_WORDS ==>
                  WordOf(compare[..], w) == if w < COMPARE_HEADER_WORDS + i then CompareWord(patches, w) else 0
    {
      PutWord(remap, 2 * (DATA_PATCH_ENTRY_COUNT + i), AUIPC_X6);
      PutWord(remap, 2 * (DATA_PATCH_ENTRY_COUNT + i) + 1, JALR_X0_X6);
      PutWord(compare, COMPARE_HEADER_WORDS + i, patches[i].original + 1);
    }
    relocations := [];
    for i := 0 to n
      invariant |relocations| == i && forall k :: 0 <= k < i ==> relocations[k] == RelocationOf(patches[k], k)
    {
      relocations := relocations + [RelocationOf(patches[i], i)];
    }
  }

  // ----- the final link of that object -----

  /** Resolve the first `k` call relocations with `.patch_remap` at PATCH_VMA. */
  function LinkRemap(emitted: RomObject, symbols: map<string, U32>, k: nat): (r: seq<U32>)
    requires k <= |emitted.relocations|
    requires forall i :: 0 <= i < |emitted.relocations| ==> emitted.relocations[i].offset / 4 + 1 < |emitted.remap|
    ensures |r| == |emitted.remap|
  {
    if k == 0 then emitted.remap
    else
      var words, reloc := LinkRemap(emitted, symbols, k - 1), emitted.relocations[k - 1];
      var at := reloc.offset / 4;
      var target := if reloc.symbol in symbols then symbols[reloc.symbol] else 0;
      var jump := LinkCall(Jump(words[at], words[at + 1]), target + reloc.addend - (PATCH_VMA + reloc.offset));
      words[at := jump.auipc][at + 1 := jump.jalr]
  }

  /** The whole `.patch` image of this lane: the two sections one after the other. */
  function LinkedImage(patches: seq<Patch>, symbols: map<string, U32>): (r: seq<U32>)
    requires |patches| <= INSTRUCTION_COMPARE_COUNT
    requires forall i :: 0 <= i < |patches| ==> patches[i].original % 2 == 0
    ensures |r| == PATCH_WORDS
  {
    LinkRemap(ObjectOf(patches), symbols, |patches|) + ObjectOf(patches).compare
  }

  // ----- both lanes give the same image -----

  /** The jump the linker makes at slot `i`. */
  function LinkedJump(entries: seq<Entry>, i: nat): Jump
    requires i < |entries|
  {
    LinkCall(Jump(AUIPC_X6, JALR_X0_X6),
             entries[i].replacement + ((PATCH_VMA + SlotOffset(i)) - Even(entries[i].original)) - (PATCH_VMA +
                 SlotOffset(i)))
  }

  ghost predicate Resolves(entries: seq<Entry>, symbols: map<string, U32>) {
    forall i :: 0 <= i < |entries| ==>
      PatchName(entries[i].name) in symbols && symbols[PatchName(entries[i].name)] == entries[i].replacement
  }

  /** Word `w` of `.patch_remap` once `k` relocations are resolved. */
  function LinkedWord(entries: seq<Entry>, k: nat, w: nat): U32
    requires k <= |entries|
  {
    if 4 <= w < 4 + 2 * k
    then (if w % 2 == 0 then LinkedJump(entries, (w - 4) / 2).auipc else LinkedJump(entries, (w - 4) / 2).jalr)
    else RemapWord(|entries|, w)
  }

  /** `.patch_remap` of the lane for these entries, with `k` relocations resolved. */
  function LinkedRemap(entries: seq<Entry>, symbols: map<string, U32>, k: nat): (r: seq<U32>)
    requires k <= |entries| <= INSTRUCTION_COMPARE_COUNT
    ensures |r| == REMAP_WORDS
  {
    LinkRemap(ObjectOf(ToPatches(entries)), symbols, k)
  }

  lemma LinkStep(entries: seq<Entry>, symbols: map<string, U32>, k: nat)
    requires 0 < k <= |entries| <= INSTRUCTION_COMPARE_COUNT && Resolves(entries, symbols)
    ensures var words := LinkedRemap(entries, symbols, k - 1);
            words[2 * k + 2] == AUIPC_X6 && words[2 * k + 3] == JALR_X0_X6 ==>
              LinkedRemap(entries, symbols, k)
              == words[2 * k + 2 := LinkedJump(entries, k - 1).auipc][2 * k + 3 := LinkedJump(entries, k - 1).jalr]
  {
    hide LinkCall;
  }

  lemma {:induction false} LinkedWords(entries: seq<Entry>, symbols: map<string, U32>, k: nat, w: nat)
    requires |entries| <= INSTRUCTION_COMPARE_COUNT && k <= |entries| && w < REMAP_WORDS && Resolves(entries, symbols)
    ensures LinkedRemap(entries, symbols, k)[w] == LinkedWord(entries, k, w)
  {
    hide LinkedJump, Resolves, LinkedRemap, LinkedWord, LinkRemap, ToPatches, ObjectOf, RemapWord;
    if k == 0 {
      NothingLinked(entries, symbols, w);
    } else {
      LinkedWords(entries, symbols, k - 1, w);
      LinkedWords(entries, symbols, k - 1, 2 * k + 2);
      LinkedWords(entries, symbols, k - 1, 2 * k + 3);
      PlaceholderWords(entries, k);
      LinkStep(entries, symbols, k);
      StepWord(entries, LinkedRemap(entries, symbols, k - 1), k, w);
    }
  }

  lemma NothingLinked(entries: seq<Entry>, symbols: map<string, U32>, w: nat)
    requires |entries| <= INSTRUCTION_COMPARE_COUNT && w < REMAP_WORDS
    ensures LinkedRemap(entries, symbols, 0)[w] == LinkedWord(entries, 0, w)
  {
  }

  lemma PlaceholderWords(entries: seq<Entry>, k: nat)
    requires 0 < k <= |entries|
    ensures LinkedWord(entries, k - 1, 2 * k + 2) == AUIPC_X6 && LinkedWord(entries, k - 1, 2 * k + 3) == JALR_X0_X6
  {
  }

  lemma StepWord(entries: seq<Entry>, words: seq<U32>, k: nat, w: nat)
    requires 0 < k <= |entries| <= INSTRUCTION_COMPARE_COUNT && |words| == REMAP_WORDS && w < REMAP_WORDS
    requires words[w] == LinkedWord(entries, k - 1, w)
    ensures words[2 * k + 2 := LinkedJump(entries, k - 1).auipc][2 * k + 3 := LinkedJump(entries, k - 1).jalr][w] ==
            LinkedWord(entries, k, w)
  {
    hide LinkedJump;
  }

  /** The word of the linked image, against the word of the table built by the other lane. */
  lemma WordsAgree(entries: seq<Entry>, symbols: map<string, U32>, w: nat)
    requires |entries| <= INSTRUCTION_COMPARE_COUNT && w < PATCH_WORDS && Resolves(entries, symbols)
    ensures (4 <= w < 4 + 2 * |entries| ==> entries[(w - 4) / 2].replacement % 2 == 0)
              ==> LinkedImage(ToPatches(entries), symbols)[w] == ImageWord(entries, w)
  {
    hide LinkCall, EncodeLongJump, LinkRemap;
    if w < REMAP_WORDS {
      LinkedWords(entries, symbols, |entries|, w);
      assert LinkedImage(ToPatches(entries), symbols)[w] == LinkedRemap(entries, symbols, |entries|)[w];
      if 4 <= w < 4 + 2 * |entries| {
        var i := (w - 4) / 2;
        CallMatchesLongJump(entries[i].original, entries[i].replacement, PATCH_VMA + SlotOffset(i));
      }
    }
  }

  /** An odd replacement makes the two words of its slot differ. */
  lemma OddDiffers(entries: seq<Entry>, symbols: map<string, U32>, i: nat)
    requires |entries| <= INSTRUCTION_COMPARE_COUNT && i < |entries| && Resolves(entries, symbols)
    requires entries[i].replacement % 2 != 0
    ensures var image := LinkedImage(ToPatches(entries), symbols);
            !(image[4 + 2 * i] == ImageWord(entries, 4 + 2 * i) && image[5 + 2 * i] == ImageWord(entries, 5 + 2 * i))
  {
    hide LinkCall, EncodeLongJump, LinkRemap;
    LinkedWords(entries, symbols, |entries|, 4 + 2 * i);
    LinkedWords(entries, symbols, |entries|, 5 + 2 * i);
    CallMatchesLongJump(entries[i].original, entries[i].replacement, PATCH_VMA + SlotOffset(i));
  }

  ghost predicate SameImage(entries: seq<Entry>, symbols: map<string, U32>)
    requires |entries| <= INSTRUCTION_COMPARE_COUNT
  {
    forall w :: 0 <= w < PATCH_WORDS ==> LinkedImage(ToPatches(entries), symbols)[w] == ImageWord(entries, w)
  }

  lemma SameImageIff(pairs: seq<Entry>, symbols: map<string, U32>)
    requires |pairs| <= INSTRUCTION_COMPARE_COUNT && Resolves(pairs, symbols)
    ensures SameImage(pairs, symbols) <==> forall i :: 0 <= i < |pairs| ==> pairs[i].replacement % 2 == 0
  {
    hide LinkedImage, ImageWord, Resolves;
    if forall i :: 0 <= i < |pairs| ==> pairs[i].replacement % 2 == 0 {
      forall w | 0 <= w < PATCH_WORDS
        ensures LinkedImage(ToPatches(pairs), symbols)[w] == ImageWord(pairs, w)
      {
        WordsAgree(pairs, symbols, w);
      }
    } else {
      var i :| 0 <= i < |pairs| && pairs[i].replacement % 2 != 0;
      OddDiffers(pairs, symbols, i);
    }
  }

  lemma PairsResolve(names: seq<string>, rom: map<string, U32>, symbols: map<string, U32>)
    requires DiscoverPairs(names, rom, symbols).Ok?
    ensures Resolves(DiscoverPairs(names, rom, symbols).value, symbols)
    ensures |DiscoverPairs(names, rom, symbols).value| == |FindPairs(names, rom, symbols).value|
  {
    var found := FindPairs(names, rom, symbols).value;
    var pairs := Sort(found, EntryKey);
    FoundAlike(names, rom, symbols);
    SortSorts(found, EntryKey);
    assert |pairs| == |multiset(pairs)| == |multiset(found)| == |found|;
    forall i | 0 <= i < |pairs|
      ensures pairs[i] in found
    {
      assert pairs[i] in multiset(pairs);
    }
  }

  /** Whenever the final-link lane finds its pairs, the build script makes the same list, and linking its
      object gives the same image as `build_table` if and only if every replacement address is even. */
  lemma LanesAgree(names: seq<string>, rom: map<string, U32>, symbols: map<string, U32>)
    requires DiscoverPairs(names, rom, symbols).Ok?
             && |DiscoverPairs(names, rom, symbols).value| <= INSTRUCTION_COMPARE_COUNT
    ensures var pairs := DiscoverPairs(names, rom, symbols).value;
            && BuildPatches(names, rom) == Ok(ToPatches(pairs))
            && (SameImage(pairs, symbols) <==> forall i :: 0 <= i < |pairs| ==> pairs[i].replacement % 2 == 0)
  {
    hide SameImage, Resolves, Sort;
    FoundAlike(names, rom, symbols);
    SortCommutes(FindPairs(names, rom, symbols).value);
    PairsResolve(names, rom, symbols);
    SameImageIff(DiscoverPairs(names, rom, symbols).value, symbols);
  }

  // ----- what is found, and in which order -----

  /** `a` comes before `b` in the dictionary: it is a proper front of it, or smaller where they first differ. */
  ghost predicate InDictionary(a: string, b: string) {
    exists n ::
      && 0 <= n <= |a| && n < |b| && a[..n] == b[..n]
      && (n == |a| || a[n] < b[n])
  }

  lemma {:induction false} LessIsDictionary(a: string, b: string)
    ensures StringLess(a, b) <==> InDictionary(a, b)
  {
    if a != [] && b != [] && a[0] == b[0] {
      LessIsDictionary(a[1..], b[1..]);
      if InDictionary(a[1..], b[1..]) {
        var n :| 0 <= n <= |a[1..]| && n < |b[1..]| && a[1..][..n] == b[1..][..n]
            && (n == |a[1..]| || a[1..][n] < b[1..][n]);
        assert a[..n + 1] == [a[0]] + a[1..][..n] && b[..n + 1] == [b[0]] + b[1..][..n];
        assert a[..n + 1] == b[..n + 1] && (n + 1 == |a| || a[n + 1] < b[n + 1]);
      }
      if InDictionary(a, b) {
        var n :| 0 <= n <= |a| && n < |b| && a[..n] == b[..n] && (n == |a| || a[n] < b[n]);
        assert n > 0;
        assert a[1..][..n - 1] == a[..n][1..] && b[1..][..n - 1] == b[..n][1..];
        assert a[1..][..n - 1] == b[1..][..n - 1] && (n - 1 == |a[1..]| || a[1..][n - 1] < b[1..][n - 1]);
      }
    } else if b != [] {
      if a == [] || a[0] < b[0] {
        assert a[..0] == b[..0];
      } else if InDictionary(a, b) {
        var n :| 0 <= n <= |a| && n < |b| && a[..n] == b[..n] && (n == |a| || a[n] < b[n]);
        SameFronts(a, b, n);
      }
    }
  }

  lemma SameFronts(a: string, b: string, n: nat)
    requires n <= |a| && n <= |b| && a[..n] == b[..n]
    ensures n > 0 ==> a[0] == b[0]
  {
    if n > 0 {
      assert a[..n][0] == a[0] && b[..n][0] == b[0];
    }
  }

  /** Ascending by even address, and by name where addresses are the same. */
  ghost predicate Ascending(entries: seq<Entry>) {
    forall i :: 0 <= i < |entries| - 1 ==>
      var here, next := entries[i], entries[i + 1];
      && here.original / 2 <= next.original / 2
      && (here.original / 2 == next.original / 2 ==> !InDictionary(next.name, here.name))
  }

  lemma {:induction false} OrderAscends(entries: seq<Entry>)
    requires InOrder(entries, EntryKey)
    ensures Ascending(entries)
  {
    if |entries| >= 2 {
      OrderAscends(entries[1..]);
      LessIsDictionary(entries[1].name, entries[0].name);
      hide InDictionary, StringLess;
      forall i | 0 <= i < |entries| - 1
        ensures entries[i].original / 2 <= entries[i + 1].original / 2
        ensures entries[i].original / 2 == entries[i + 1].original / 2 ==>
                  !InDictionary(entries[i + 1].name, entries[i].name)
      {
        if i > 0 {
          assert entries[1..][i - 1] == entries[i] && entries[1..][i - 1 + 1] == entries[i + 1];
        }
      }
    }
  }

  /** A name can be patched: it is in the ROM, its replacement is linked, and the replacement is not in the ROM's own
      range from 0x109000 to 0x14c000. */
  predicate Patchable(name: string, rom: map<string, U32>, symbols: map<string, U32>) {
    && name + "_patch" in symbols && name in rom
    && !(0x0010_9000 <= symbols[name + "_patch"] - symbols[name + "_patch"] % 2 < 0x0014_c000)
  }

  lemma {:induction false} FoundExactly(names: seq<string>, rom: map<string, U32>, symbols: map<string, U32>)
    ensures FindPairs(names, rom, symbols).Ok? <==> forall i :: 0 <= i < |names| ==> Patchable(names[i], rom, symbols)
    ensures FindPairs(names, rom, symbols).Ok? ==>
              var found := FindPairs(names, rom, symbols).value;
              |found| == |names| && forall i :: 0 <= i < |names| ==>
                found[i] == Entry(names[i], rom[names[i]], symbols[names[i] + "_patch"])
  {
    if names != [] {
      FoundExactly(names[1..], rom, symbols);
      assert forall i :: 0 <= i < |names[1..]| ==> names[1..][i] == names[i + 1];
      if forall i :: 0 <= i < |names| ==> Patchable(names[i], rom, symbols) {
        assert Patchable(names[0], rom, symbols);
        forall i | 0 <= i < |names[1..]|
          ensures Patchable(names[1..][i], rom, symbols)
        {
          assert names[1..][i] == names[i + 1];
        }
      }
    }
  }

  /** Discovery succeeds exactly if every name can be patched; then it gives one pair for each name, in ascending
      order. */
  lemma DiscoveredExactly(names: seq<string>, rom: map<string, U32>, symbols: map<string, U32>)
    ensures var r := DiscoverPairs(names, rom, symbols);
            && (r.Ok? <==> forall i :: 0 <= i < |names| ==> Patchable(names[i], rom, symbols))
            && (r.Ok? ==>
                  && Ascending(r.value)
                  && multiset(r.value) == multiset(seq(|names|, i requires 0 <= i < |names| =>
                                                     EntryFor(names[i], rom, symbols))))
  {
    hide Patchable, Sort;
    FoundExactly(names, rom, symbols);
    if FindPairs(names, rom, symbols).Ok? {
      var found := FindPairs(names, rom, symbols).value;
      SortSorts(found, EntryKey);
      OrderAscends(Sort(found, EntryKey));
      forall i | 0 <= i < |names|
        ensures found[i] == EntryFor(names[i], rom, symbols)
      {
        PatchableFor(names[i], rom, symbols);
      }
      assert found == seq(|names|, i requires 0 <= i < |names| => EntryFor(names[i], rom, symbols));
    }
  }

  function EntryFor(name: string, rom: map<string, U32>, symbols: map<string, U32>): Entry {
    if name in rom && name + "_patch" in symbols then Entry(name, rom[name], symbols[name + "_patch"])
    else Entry(name, 0, 0)
  }

  lemma PatchableFor(name: string, rom: map<string, U32>, symbols: map<string, U32>)
    requires Patchable(name, rom, symbols)
    ensures EntryFor(name, rom, symbols) == Entry(name, rom[name], symbols[name + "_patch"])
  {
  }

  const ODD_NAMES: seq<string> := ["f"]
  const ODD_ROM: map<string, U32> := map["f" := 0x0010_9000]
  const ODD_SYMBOLS: map<string, U32> := map["f_patch" := 0x0020_0001]

  lemma OddPairs()
    ensures FindPairs(ODD_NAMES, ODD_ROM, ODD_SYMBOLS) == Ok([Entry("f", 0x0010_9000, 0x0020_0001)])
  {
    var pair := Entry("f", 0x0010_9000, 0x0020_0001);
    assert ODD_NAMES[0] == "f" && ODD_NAMES[1..] == [] && [pair] + [] == [pair];
    assert PatchName("f") == "f_patch";
    hide PatchName;
    assert Even(ODD_SYMBOLS["f_patch"]) == 0x0020_0000;
    assert FindPairs([], ODD_ROM, ODD_SYMBOLS) == Ok([]);
  }

  lemma SortOne(e: Entry)
    ensures Sort([e], EntryKey) == [e]
  {
    assert Sort([e][1..], EntryKey) == [];
    assert [e] + [] == [e];
  }

  /** An odd replacement is accepted by both lanes, and their images differ. */
  lemma OddReplacementExample()
    ensures var pairs := DiscoverPairs(ODD_NAMES, ODD_ROM, ODD_SYMBOLS);
            && pairs == Ok([Entry("f", 0x0010_9000, 0x0020_0001)])
            && BuildPatches(ODD_NAMES, ODD_ROM).Ok?
            && !SameImage(pairs.value, ODD_SYMBOLS)
  {
    hide SameImage, FindPairs, BuildPatches;
    OddPairs();
    SortOne(Entry("f", 0x0010_9000, 0x0020_0001));
    hide Sort;
    LanesAgree(ODD_NAMES, ODD_ROM, ODD_SYMBOLS);
    assert DiscoverPairs(ODD_NAMES, ODD_ROM, ODD_SYMBOLS).value[0].replacement % 2 == 1;
  }

  /** Every jump of the image, run at its ROM entry, lands on its replacement. The two words of jump `i` are
      behind those of two data patches; the compare block begins at word 388 with the table's address and the number of
      entries, and compares with each entry's address with bit 0 set. */
  lemma EveryJumpLands(entries: seq<Entry>, i: nat)
    requires |entries| <= 192 && i < |entries|
    ensures Execute(Jump(ImageWord(entries, 4 + 2 * i), ImageWord(entries, 5 + 2 * i)), Even(entries[i].original)) ==
            Some(Even(entries[i].replacement))
    ensures ImageWord(entries, 389) == 0x14_c000 && ImageWord(entries, 390) == |entries|
    ensures ImageWord(entries, 391 + i) == Even(entries[i].original) + 1
  {
    hide EncodeLongJump, Execute;
    JumpLands(entries[i].original, entries[i].replacement);
  }

  /** Every other word of the image is zero. */
  lemma OtherWordsZero(entries: seq<Entry>, w: nat)
    requires |entries| <= 192
    requires w < 4 || 4 + 2 * |entries| <= w < 389 || 391 + |entries| <= w
    ensures ImageWord(entries, w) == 0
  {
    hide EncodeLongJump;
  }
}
