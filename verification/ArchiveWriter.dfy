/** An archive written the way `ar` writes one, and read back: sizes in decimal, payloads padded to even, short names
    in their header, long names in a table. The walk finds every name and every payload where it was put. */
module ArchiveWriter {
  import opened Bytes
  import opened ElfObject
  import opened Archive

  const SPACE: Byte := 0x20
  const NEWLINE: Byte := 0x0a

  // ----- decimal fields -----

  /** Decimal digits, most significant first, without leading zeroes. */
  function Decimal(n: nat): (r: seq<Byte>)
    ensures r != [] && forall i :: 0 <= i < |r| ==> 0x30 <= r[i] <= 0x39
  {
    (if n < 10 then [] else Decimal(n / 10)) + [0x30 + n % 10]
  }

  function Tens(k: nat): nat { if k == 0 then 1 else 10 * Tens(k - 1) }

  lemma {:induction false} DecimalLength(n: nat, k: nat)
    requires 0 < k && n < Tens(k)
    ensures |Decimal(n)| <= k
  {
    if n >= 10 {
      assert Tens(k) == 10 * Tens(k - 1);
      DecimalLength(n / 10, k - 1);
    }
  }

  lemma {:induction false} DecimalDigits(n: nat)
    ensures Digits(Decimal(n)) == Some(n)
  {
    var front := if n < 10 then [] else Decimal(n / 10);
    assert Decimal(n) == front + [0x30 + n % 10] && Decimal(n)[..|Decimal(n)| - 1] == front;
    if n >= 10 {
      DecimalDigits(n / 10);
    }
  }

  function Spaces(n: nat): (r: seq<Byte>)
    ensures |r| == n && forall i :: 0 <= i < n ==> r[i] == SPACE
  {
    seq(n, _ => SPACE)
  }

  /** Left-justified in a field of `width` bytes. */
  function Field(text: seq<Byte>, width: nat): (r: seq<Byte>)
    requires |text| <= width
    ensures |r| == width
  {
    text + Spaces(width - |text|)
  }

  lemma {:induction false} SpacesTrimmed(text: seq<Byte>, n: nat)
    requires text == [] || !IsSpace(text[|text| - 1])
    ensures TrimEnd(text + Spaces(n)) == text
    decreases n
  {
    var all := text + Spaces(n);
    if n == 0 {
      assert all == text;
    } else {
      assert all[..|all| - 1] == text + Spaces(n - 1) && IsSpace(all[|all| - 1]);
      SpacesTrimmed(text, n - 1);
    }
  }

  /** A text that starts and ends with something else than white space is found again in its field. */
  lemma FieldTrimmed(text: seq<Byte>, width: nat)
    requires text != [] && |text| <= width && !IsSpace(text[0]) && !IsSpace(text[|text| - 1])
    ensures Trim(Field(text, width)) == text
  {
    assert Field(text, width)[0] == text[0];
    SpacesTrimmed(text, width - |text|);
  }

  lemma TensOfTen()
    ensures Tens(10) == 10_000_000_000 && Tens(15) == 1_000_000_000_000_000
  {
    assert Tens(5) == 100_000;
    assert Tens(10) == 100_000 * Tens(5);
    assert Tens(15) == 100_000 * Tens(10);
  }

  lemma FewDigits(n: nat)
    ensures n < 10_000_000_000 ==> |Decimal(n)| <= 10
    ensures n < 1_000_000_000_000_000 ==> |Decimal(n)| <= 15
  {
    TensOfTen();
    hide Tens, Decimal;
    if n < 10_000_000_000 {
      DecimalLength(n, 10);
    }
    if n < 1_000_000_000_000_000 {
      DecimalLength(n, 15);
    }
  }

  lemma DecimalParsed(n: nat)
    ensures ParseUsize(Decimal(n)) == Some(n)
  {
    DecimalDigits(n);
    hide Decimal, Digits;
  }

  /** A size is read back from its decimal field. */
  lemma SizeRead(n: nat)
    requires n < 10_000_000_000
    ensures |Decimal(n)| <= 10 && ParseDecimal(Field(Decimal(n), 10)) == Ok(n)
  {
    hide Decimal, Field, ParseUsize, Trim;
    FewDigits(n);
    FieldTrimmed(Decimal(n), 10);
    DecimalParsed(n);
  }

  // ----- names -----

  /** Fits the header with its slash, and is not mistaken for anything else there. */
  predicate IsShort(name: seq<Byte>) {
    && 0 < |name| <= 15 && !IsSpace(name[0]) && name[0] != 0x2f
    && !([0x23, 0x31, 0x2f] <= name + [0x2f])
  }

  /** The name ends where the table says it ends. */
  predicate IsNameable(name: seq<Byte>) {
    forall i :: 0 <= i < |name| - 1 ==> !(name[i] == 0x2f && name[i + 1] == 0x0a)
  }

  lemma ShortRead(name: seq<Byte>, names: seq<Byte>)
    requires IsShort(name)
    ensures |name + [0x2f]| <= 16 && MemberName(Field(name + [0x2f], 16), names) == Ok(name)
    ensures Trim(Field(name + [0x2f], 16)) != [0x2f, 0x2f]
  {
    var raw := name + [0x2f];
    FieldTrimmed(raw, 16);
    assert raw[0] == name[0] && raw[..|raw| - 1] == name && raw[|raw| - 1] == 0x2f;
  }

  lemma {:induction false} UntilFound(name: seq<Byte>, rest: seq<Byte>)
    requires IsNameable(name)
    ensures UntilSlashNewline(name + ([0x2f, 0x0a] + rest)) == name
  {
    var s := name + ([0x2f, 0x0a] + rest);
    if name == [] {
      assert s == [0x2f, 0x0a] + rest;
      assert s[0] == 0x2f && s[1] == 0x0a;
    } else {
      assert s[1..] == name[1..] + ([0x2f, 0x0a] + rest) && s[0] == name[0];
      assert s[1] == if |name| > 1 then name[1] else 0x2f;
      assert forall i :: 0 <= i < |name[1..]| ==> name[1..][i] == name[i + 1];
      UntilFound(name[1..], rest);
    }
  }

  lemma LongRead(name: seq<Byte>, before: seq<Byte>, rest: seq<Byte>)
    requires IsNameable(name) && |before| < 1_000_000_000_000_000
    ensures var field := [0x2f] + Decimal(|before|);
            && |field| <= 16 && Trim(Field(field, 16)) != [0x2f, 0x2f]
            && MemberName(Field(field, 16), before + (name + ([0x2f, 0x0a] + rest))) == Ok(name)
  {
    hide Decimal, Field, Trim, ParseUsize, UntilSlashNewline, MemberName;
    var digits, table := Decimal(|before|), before + (name + ([0x2f, 0x0a] + rest));
    var field := [0x2f] + digits;
    FewDigits(|before|);
    assert field[|field| - 1] == digits[|digits| - 1] && field[1] == digits[0];
    FieldTrimmed(field, 16);
    DecimalParsed(|before|);
    assert table[|before|..] == name + ([0x2f, 0x0a] + rest);
    UntilFound(name, rest);
    LongName(Field(field, 16), digits, |before|, table);
  }

  /** A slash and an offset name the text at that offset of the long names. */
  lemma LongName(field: seq<Byte>, digits: seq<Byte>, offset: nat, longNames: seq<Byte>)
    requires Trim(field) == [0x2f] + digits && digits != [] && 0x30 <= digits[0] <= 0x39
    requires ParseUsize(digits) == Some(offset) && offset < |longNames|
    ensures MemberName(field, longNames) == Ok(UntilSlashNewline(longNames[offset..]))
  {
    hide Trim, ParseUsize, UntilSlashNewline;
    var raw := [0x2f] + digits;
    assert raw[1..] == digits && raw[1] == digits[0];
  }

  // ----- one member -----

  /** Header and payload; `middle` is date, owner and mode, which the walk does not read. */
  function MemberBytes(field: seq<Byte>, middle: seq<Byte>, payload: seq<Byte>): (r: seq<Byte>)
    requires |field| == 16 && |middle| == 32 && |payload| < 10_000_000_000
    ensures |r| == 60 + |payload| + |payload| % 2
  {
    SizeRead(|payload|);
    HeaderBytes(field, middle, |payload|) + payload + (if |payload| % 2 == 0 then [] else [NEWLINE])
  }

  function HeaderBytes(field: seq<Byte>, middle: seq<Byte>, size: nat): (r: seq<Byte>)
    requires |field| == 16 && |middle| == 32 && |Decimal(size)| <= 10
    ensures |r| == 60
  {
    field + middle + Field(Decimal(size), 10) + [0x60, 0x0a]
  }

  lemma HeaderParts(field: seq<Byte>, middle: seq<Byte>, size: nat)
    requires |field| == 16 && |middle| == 32 && |Decimal(size)| <= 10
    ensures var h := HeaderBytes(field, middle, size);
            h[..16] == field && h[48..58] == Field(Decimal(size), 10) && h[58..60] == [0x60, 0x0a]
  {
    hide Field;
  }

  lemma Inside(before: seq<Byte>, part: seq<Byte>, after: seq<Byte>, a: nat, b: nat)
    requires a <= b <= |part|
    ensures (before + (part + after))[|before| + a..|before| + b] == part[a..b]
  {
    var all := before + (part + after);
    assert all[|before|..] == part + after;
    forall i | a <= i < b
      ensures all[|before| + i] == part[i]
    {
    }
  }

  /** The member is read back from where it lies. */
  lemma MemberRead(before: seq<Byte>, field: seq<Byte>, middle: seq<Byte>, payload: seq<Byte>, after: seq<Byte>)
    requires |field| == 16 && |middle| == 32 && |payload| < 10_000_000_000
    ensures var data, at := before + (MemberBytes(field, middle, payload) + after), |before|;
            && SizeAt(data, at) == Ok(|payload|) && at + 60 + |payload| <= |data|
            && NextOffset(at, |payload|) == at + |MemberBytes(field, middle, payload)|
            && data[at..at + 16] == field && data[at + 60..at + 60 + |payload|] == payload
  {
    SizeRead(|payload|);
    var header := HeaderBytes(field, middle, |payload|);
    var part := MemberBytes(field, middle, payload);
    HeaderParts(field, middle, |payload|);
    hide HeaderBytes, ParseDecimal, Field, Decimal;
    assert part[..16] == header[..16] && part[48..58] == header[48..58] && part[58..60] == header[58..60];
    assert part[60..60 + |payload|] == payload;
    Inside(before, part, after, 0, 16);
    Inside(before, part, after, 48, 58);
    Inside(before, part, after, 58, 60);
    Inside(before, part, after, 60, 60 + |payload|);
  }

  // ----- a whole archive -----

  datatype File = File(name: seq<Byte>, middle: seq<Byte>, payload: seq<Byte>)

  predicate Writable(f: File) { |f.middle| == 32 && |f.payload| < 10_000_000_000 && IsNameable(f.name) }

  /** The names that do not fit their header, each ended by a slash and a newline. */
  function NameTable(files: seq<File>): seq<Byte> {
    if files == [] then []
    else
      var last := files[|files| - 1];
      NameTable(files[..|files| - 1]) + if IsShort(last.name) then [] else last.name + [0x2f, 0x0a]
  }

  /** The name field of file `k`: the name and a slash, or a slash and the name's place in the table. */
  function NameText(files: seq<File>, k: nat): seq<Byte>
    requires k < |files|
  {
    if IsShort(files[k].name) then files[k].name + [0x2f] else [0x2f] + Decimal(|NameTable(files[..k])|)
  }

  ghost predicate AllWritable(files: seq<File>) {
    && (forall k :: 0 <= k < |files| ==> Writable(files[k]))
    && |NameTable(files)| < 10_000_000_000
  }

  lemma {:induction false} TableSplit(files: seq<File>, k: nat) returns (rest: seq<Byte>)
    requires k < |files| && !IsShort(files[k].name)
    ensures NameTable(files) == NameTable(files[..k]) + (files[k].name + ([0x2f, 0x0a] + rest))
  {
    var n := |files|;
    var last := if IsShort(files[n - 1].name) then [] else files[n - 1].name + [0x2f, 0x0a];
    hide IsShort;
    if k == n - 1 {
      rest := [];
      assert files[k].name + ([0x2f, 0x0a] + rest) == last;
    } else {
      var front := TableSplit(files[..n - 1], k);
      assert files[..n - 1][..k] == files[..k];
      rest := front + last;
      var name, start := files[k].name, NameTable(files[..k]);
      Regroup(start, name, front, last);
    }
  }

  lemma Regroup(start: seq<Byte>, name: seq<Byte>, front: seq<Byte>, last: seq<Byte>)
    ensures start + (name + ([0x2f, 0x0a] + front)) + last == start + (name + ([0x2f, 0x0a] + (front + last)))
  {
  }

  lemma {:induction false} TableGrows(files: seq<File>, k: nat)
    requires k <= |files|
    ensures |NameTable(files[..k])| <= |NameTable(files)|
  {
    if k < |files| {
      assert files[..|files| - 1][..k] == files[..k];
      TableGrows(files[..|files| - 1], k);
    } else {
      assert files[..k] == files;
    }
  }

  /** Every name is found: its field fits, is not the table's, and with the whole table in force says the name. */
  lemma NameRead(files: seq<File>, k: nat)
    requires AllWritable(files) && k < |files|
    ensures |NameText(files, k)| <= 16 && Trim(Field(NameText(files, k), 16)) != [0x2f, 0x2f]
    ensures MemberName(Field(NameText(files, k), 16), NameTable(files)) == Ok(files[k].name)
  {
    hide MemberName, Trim, Field, Decimal, NameTable;
    assert Writable(files[k]);
    if IsShort(files[k].name) {
      ShortRead(files[k].name, NameTable(files));
    } else {
      var rest := TableSplit(files, k);
      TableGrows(files, k);
      LongRead(files[k].name, NameTable(files[..k]), rest);
    }
  }

  /** The members of the files from `k` on. */
  ghost function Tail(files: seq<File>, k: nat): seq<Byte>
    requires AllWritable(files) && k <= |files|
    decreases |files| - k
  {
    if k == |files| then []
    else
      NameRead(files, k);
      assert Writable(files[k]);
      MemberBytes(Field(NameText(files, k), 16), files[k].middle, files[k].payload) + Tail(files, k + 1)
  }

  const TABLE_FIELD: seq<Byte> := Field([0x2f, 0x2f], 16)

  /** The archive: magic, the table of long names, and the files. */
  ghost function Written(files: seq<File>, middle: seq<Byte>): seq<Byte>
    requires AllWritable(files) && |middle| == 32
  {
    [0x21, 0x3c, 0x61, 0x72, 0x63, 0x68, 0x3e, 0x0a] +
    (MemberBytes(TABLE_FIELD, middle, NameTable(files)) + Tail(files, 0))
  }

  /** Where the payloads lie that start with a header at `offset`. */
  function Spans(files: seq<File>, k: nat, offset: nat): seq<Member>
    requires k <= |files|
    decreases |files| - k
  {
    if k == |files| then []
    else
      var start := offset + 60;
      var end := start + |files[k].payload|;
      [Member(files[k].name, start, end)] + Spans(files, k + 1, end + |files[k].payload| % 2)
  }

  lemma OneStep(data: seq<Byte>, offset: nat, longNames: seq<Byte>, size: nat, name: seq<Byte>)
    requires offset < |data| && SizeAt(data, offset) == Ok(size) && offset + 60 + size <= |data|
    requires MemberName(data[offset..offset + 16], NamesAfter(data, offset, size, longNames)) == Ok(name)
    ensures var rest := MembersFrom(data, NextOffset(offset, size), NamesAfter(data, offset, size, longNames));
            rest.Ok? ==>
              MembersFrom(data, offset, longNames) == Ok([Member(name, offset + 60, offset + 60 + size)] + rest.value)
  {
    hide SizeAt, MemberName, NamesAfter;
    SizeFits(data, offset);
  }

  /** The walk steps over one member. */
  lemma StepOver(before: seq<Byte>, field: seq<Byte>, middle: seq<Byte>, payload: seq<Byte>, after: seq<Byte>,
                 longNames: seq<Byte>, names: seq<Byte>, name: seq<Byte>, rest: seq<Member>)
    requires |field| == 16 && |middle| == 32 && |payload| < 10_000_000_000
    requires names == if Trim(field) == [0x2f, 0x2f] then payload else longNames
    requires MemberName(field, names) == Ok(name)
    requires var part := MemberBytes(field, middle, payload);
             MembersFrom(before + part + after, |before + part|, names) == Ok(rest)
    ensures MembersFrom(before + (MemberBytes(field, middle, payload) + after), |before|, longNames) ==
            Ok([Member(name, |before| + 60, |before| + 60 + |payload|)] + rest)
  {
    hide SizeAt, MemberName, Trim, MembersFrom;
    var part := MemberBytes(field, middle, payload);
    hide MemberBytes;
    var data := before + (part + after);
    assert data == before + part + after;
    MemberRead(before, field, middle, payload, after);
    assert NamesAfter(data, |before|, |payload|, longNames) == names;
    hide NamesAfter;
    OneStep(data, |before|, longNames, |payload|, name);
  }

  ghost function FieldFor(files: seq<File>, k: nat): (r: seq<Byte>)
    requires AllWritable(files) && k < |files|
    ensures |r| == 16
  {
    NameRead(files, k);
    Field(NameText(files, k), 16)
  }

  lemma TailParts(files: seq<File>, k: nat)
    requires AllWritable(files) && k < |files|
    ensures var f := files[k];
            && |f.middle| == 32 && |f.payload| < 10_000_000_000
            && Tail(files, k) == MemberBytes(FieldFor(files, k), f.middle, f.payload) + Tail(files, k + 1)
            && Trim(FieldFor(files, k)) != [0x2f, 0x2f]
               && MemberName(FieldFor(files, k), NameTable(files)) == Ok(f.name)
  {
    hide MemberName, Trim, Field, MemberBytes, NameTable, NameText;
    NameRead(files, k);
    assert Writable(files[k]);
  }

  lemma SpansStep(files: seq<File>, k: nat, offset: nat)
    requires k < |files|
    ensures var size := |files[k].payload|;
            Spans(files, k, offset) ==
            [Member(files[k].name, offset + 60, offset + 60 + size)] +
                Spans(files, k + 1, offset + 60 + size + size % 2)
  {
  }

  lemma TailStep(files: seq<File>, k: nat, before: seq<Byte>, part: seq<Byte>)
    requires AllWritable(files) && k < |files|
    requires |files[k].middle| == 32 && |files[k].payload| < 10_000_000_000
    requires part == MemberBytes(FieldFor(files, k), files[k].middle, files[k].payload)
    requires MembersFrom(before + part + Tail(files, k + 1), |before + part|, NameTable(files)) ==
             Ok(Spans(files, k + 1, |before + part|))
    ensures MembersFrom(before + Tail(files, k), |before|, NameTable(files)) == Ok(Spans(files, k, |before|))
  {
    hide *;
    var f := files[k];
    TailParts(files, k);
    SpansStep(files, k, |before|);
    assert |before + part| == |before| + 60 + |f.payload| + |f.payload| % 2;
    StepOver(before, FieldFor(files, k), f.middle, f.payload, Tail(files, k + 1), NameTable(files), NameTable(files),
             f.name,
             Spans(files, k + 1, |before + part|));
  }

  lemma {:induction false} TailRead(files: seq<File>, k: nat, before: seq<Byte>)
    requires AllWritable(files) && k <= |files|
    ensures MembersFrom(before + Tail(files, k), |before|, NameTable(files)) == Ok(Spans(files, k, |before|))
    decreases |files| - k
  {
    if k < |files| {
      hide *;
      TailParts(files, k);
      var part := MemberBytes(FieldFor(files, k), files[k].middle, files[k].payload);
      TailRead(files, k + 1, before + part);
      TailStep(files, k, before, part);
    }
  }

  lemma TableFieldRead(names: seq<Byte>)
    ensures Trim(TABLE_FIELD) == [0x2f, 0x2f] && MemberName(TABLE_FIELD, names) == Ok([0x2f, 0x2f])
  {
    FieldTrimmed([0x2f, 0x2f], 16);
  }

  lemma MagicRead(rest: seq<Byte>)
    ensures var data := AR_MAGIC + rest; MembersOf(data) == MembersFrom(data, 8, [])
    ensures AR_MAGIC == [0x21, 0x3c, 0x61, 0x72, 0x63, 0x68, 0x3e, 0x0a]
  {
    hide MembersFrom;
  }

  lemma WrittenParts(files: seq<File>, middle: seq<Byte>)
    requires AllWritable(files) && |middle| == 32
    ensures Written(files, middle) == AR_MAGIC + (MemberBytes(TABLE_FIELD, middle, NameTable(files)) + Tail(files, 0))
    ensures |NameTable(files)| < 10_000_000_000 && |TABLE_FIELD| == 16
  {
    hide MemberBytes, Tail, NameTable, Field;
  }

  /** Reading back what was written: the table of long names first, then every file under its own name, its payload
      exactly where it was put. */
  lemma ReadWritten(files: seq<File>, middle: seq<Byte>)
    requires AllWritable(files) && |middle| == 32
    ensures var table := NameTable(files);
            MembersOf(Written(files, middle)) ==
            Ok([Member([0x2f, 0x2f], 68, 68 + |table|)] + Spans(files, 0, 68 + |table| + |table| % 2))
  {
    hide *;
    var table := NameTable(files);
    WrittenParts(files, middle);
    var part := MemberBytes(TABLE_FIELD, middle, table);
    MagicRead(part + Tail(files, 0));
    TableFieldRead(table);
    TailRead(files, 0, AR_MAGIC + part);
    assert |AR_MAGIC| == 8 && |AR_MAGIC + part| == 68 + |table| + |table| % 2;
    StepOver(AR_MAGIC, TABLE_FIELD, middle, table, Tail(files, 0), [], table, [0x2f, 0x2f],
             Spans(files, 0, |AR_MAGIC + part|));
  }

  predicate Holds(data: seq<Byte>, m: Member, f: File) {
    m.name == f.name && m.start <= m.end <= |data| && data[m.start..m.end] == f.payload
  }

  lemma SpanHere(files: seq<File>, k: nat, before: seq<Byte>)
    requires AllWritable(files) && k < |files|
    ensures Holds(before + Tail(files, k), Spans(files, k, |before|)[0], files[k])
  {
    hide MemberName, Trim, FieldFor, NameTable, AllWritable, MembersFrom, Tail, MemberBytes, SizeAt;
    var f := files[k];
    TailParts(files, k);
    MemberRead(before, FieldFor(files, k), f.middle, f.payload, Tail(files, k + 1));
  }

  lemma SpanLater(files: seq<File>, k: nat, j: nat, before: seq<Byte>)
    requires AllWritable(files) && k < j < |files|
    ensures |files[k].middle| == 32 && |files[k].payload| < 10_000_000_000
    ensures var longer := before + MemberBytes(FieldFor(files, k), files[k].middle, files[k].payload);
            && before + Tail(files, k) == longer + Tail(files, k + 1)
            && |Spans(files, k, |before|)| == |files| - k && |Spans(files, k + 1, |longer|)| == |files| - k - 1
            && Spans(files, k, |before|)[j - k] == Spans(files, k + 1, |longer|)[j - k - 1]
  {
    hide MemberName, Trim, FieldFor, NameTable, AllWritable, MembersFrom, Tail, MemberBytes, SizeAt, Spans;
    TailParts(files, k);
    SpansStep(files, k, |before|);
    var part := MemberBytes(FieldFor(files, k), files[k].middle, files[k].payload);
    SpanCount(files, k, |before|);
    SpanCount(files, k + 1, |before + part|);
  }

  /** The span of each file holds its payload. */
  lemma {:induction false} SpansHold(files: seq<File>, k: nat, j: nat, before: seq<Byte>)
    requires AllWritable(files) && k <= j < |files|
    ensures |Spans(files, k, |before|)| == |files| - k
    ensures Holds(before + Tail(files, k), Spans(files, k, |before|)[j - k], files[j])
    decreases j - k
  {
    hide *;
    SpanCount(files, k, |before|);
    if j == k {
      SpanHere(files, k, before);
    } else {
      SpanLater(files, k, j, before);
      SpansHold(files, k + 1, j, before + MemberBytes(FieldFor(files, k), files[k].middle, files[k].payload));
    }
  }

  /** So each file's payload is found where the walk says it is. */
  lemma PayloadFound(files: seq<File>, middle: seq<Byte>, j: nat)
    requires AllWritable(files) && |middle| == 32 && j < |files|
    ensures var data := Written(files, middle);
            && MembersOf(data).Ok? && |MembersOf(data).value| == |files| + 1
            && Holds(data, MembersOf(data).value[j + 1], files[j])
  {
    hide *;
    var table := NameTable(files);
    ReadWritten(files, middle);
    WrittenParts(files, middle);
    var part := MemberBytes(TABLE_FIELD, middle, table);
    MagicRead(part + Tail(files, 0));
    assert |AR_MAGIC| == 8 && |AR_MAGIC + part| == 68 + |table| + |table| % 2;
    SpanCount(files, 0, |AR_MAGIC + part|);
    SpansHold(files, 0, j, AR_MAGIC + part);
    assert AR_MAGIC + (part + Tail(files, 0)) == AR_MAGIC + part + Tail(files, 0);
  }

  lemma {:induction false} SpanCount(files: seq<File>, k: nat, offset: nat)
    requires k <= |files|
    ensures |Spans(files, k, offset)| == |files| - k
    decreases |files| - k
  {
    if k < |files| {
      SpanCount(files, k + 1, offset + 60 + |files[k].payload| + |files[k].payload| % 2);
    }
  }
}
