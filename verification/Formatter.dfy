/** `hisi_wpa_vsnprintf`: directives are read from the format, arguments from a list, and the fields go
    to a `Printer.Output`. */
module Formatter {
  import opened Bytes
  import opened Printer

  datatype Arg = Number(value: int) | Text(text: string) | Null

  datatype Length = Plain | Long | LongLong | Size

  /** A directive read so far: `next` is the next format character, `args` what is left of the arguments.
      `defined` is false once C leaves the behaviour undefined: a missing or mistyped argument, or an
      `int` overflow in a width or precision. */
  datatype Parse = Parse(style: Style, next: nat, args: seq<Arg>, defined: bool)

  datatype Directive = Directive(style: Style, length: Length, specifier: char, next: nat, args: seq<Arg>,
                                 defined: bool)

  datatype Field = Field(text: string, args: seq<Arg>, defined: bool) | Unsupported

  datatype Printed = Printed(text: string, ok: bool)

  // ----- arguments -----

  function Rest(args: seq<Arg>): seq<Arg> { if args == [] then [] else args[1..] }

  predicate HasNumber(args: seq<Arg>) { args != [] && args[0].Number? }

  predicate HasText(args: seq<Arg>) { args != [] && !args[0].Number? }

  function NumberOf(args: seq<Arg>): int { if HasNumber(args) then args[0].value else 0 }

  function TextOf(args: seq<Arg>): string { if args != [] && args[0].Text? then args[0].text else "(null)" }

  /** `int`, `long` and `ptrdiff_t` have 32 bits, `long long` 64. */
  function SignedArg(args: seq<Arg>, length: Length): (r: int)
    ensures -0x8000_0000_0000_0000 <= r < 0x8000_0000_0000_0000
  {
    if length == LongLong then
      (NumberOf(args) + 0x8000_0000_0000_0000) % 0x1_0000_0000_0000_0000 - 0x8000_0000_0000_0000
    else
      Signed(Mod32(NumberOf(args)))
  }

  function UnsignedArg(args: seq<Arg>, length: Length): (r: nat)
    ensures r < 0x1_0000_0000_0000_0000
  {
    if length == LongLong then NumberOf(args) % 0x1_0000_0000_0000_0000 else Mod32(NumberOf(args))
  }

  // ----- directives -----

  const NO_STYLE := Style(false, false, false, false, false, 0, -1)

  function FlagsAt(format: string, i: nat, style: Style): (r: (Style, nat))
    ensures r.1 >= i
    decreases |format| - i
  {
    match At(format, i)
    case '-' => FlagsAt(format, i + 1, style.(left := true))
    case '0' => FlagsAt(format, i + 1, style.(zero := true))
    case '+' => FlagsAt(format, i + 1, style.(plus := true))
    case ' ' => FlagsAt(format, i + 1, style.(space := true))
    case '#' => FlagsAt(format, i + 1, style.(alternate := true))
    case _ => (style, i)
  }

  function NumberAt(format: string, i: nat, value: nat): (r: (nat, nat))
    ensures r.1 >= i
    decreases |format| - i
  {
    if '0' <= At(format, i) <= '9' then NumberAt(format, i + 1, value * 10 + (At(format, i) - '0') as nat)
    else (value, i)
  }

  function WidthAt(format: string, p: Parse): (r: Parse)
    ensures r.next >= p.next
  {
    if At(format, p.next) == '*' then
      var width := SignedArg(p.args, Plain);
      Parse(p.style.(left := p.style.left || width < 0, width := if width < 0 then -width else width),
            p.next + 1, Rest(p.args), p.defined && HasNumber(p.args) && width + INT_MAX >= 0)
    else
      var (width, next) := NumberAt(format, p.next, 0);
      Parse(p.style.(width := width), next, p.args, p.defined && width <= INT_MAX)
  }

  function PrecisionAt(format: string, p: Parse): (r: Parse)
    ensures r.next >= p.next
  {
    if At(format, p.next) != '.' then p
    else if At(format, p.next + 1) == '*' then
      var precision := SignedArg(p.args, Plain);
      Parse(p.style.(precision := if precision < 0 then -1 else precision), p.next + 2, Rest(p.args),
            p.defined && HasNumber(p.args))
    else
      var (precision, next) := NumberAt(format, p.next + 1, 0);
      Parse(p.style.(precision := precision), next, p.args, p.defined && precision <= INT_MAX)
  }

  function LengthAt(format: string, i: nat): (r: (Length, nat))
    ensures r.1 >= i
  {
    if At(format, i) == 'h' then (Plain, if At(format, i + 1) == 'h' then i + 2 else i + 1)
    else if At(format, i) == 'l' then if At(format, i + 1) == 'l' then (LongLong, i + 2) else (Long, i + 1)
    else if At(format, i) == 'z' then (Size, i + 1)
    else (Plain, i)
  }

  /** The directive whose first character after `%` is at `i`. */
  function DirectiveAt(format: string, i: nat, args: seq<Arg>): (r: Directive)
    ensures r.next > i
  {
    var (style, next) := FlagsAt(format, i, NO_STYLE);
    var p := PrecisionAt(format, WidthAt(format, Parse(style, next, args, true)));
    var (length, at) := LengthAt(format, p.next);
    Directive(p.style, length, At(format, at), at + 1, p.args, p.defined)
  }

  /** The length of a C string, looking at no more than `limit` characters. */
  function StringLength(s: string, limit: nat, length: nat): (r: nat)
    requires length <= |s|
    ensures length <= r <= |s|
    decreases |s| - length
  {
    if length < limit && At(s, length) != '\0' then StringLength(s, limit, length + 1) else length
  }

  const SIZE_MAX: nat := 0xffff_ffff

  function FieldOf(d: Directive): Field {
    match d.specifier
    case '%' => Field("%", d.args, true)
    case 'c' => Field(Justified([(NumberOf(d.args) % 0x100) as char], d.style.width, d.style.left), Rest(d.args),
                      HasNumber(d.args))
    case 's' =>
      var limit := if d.style.precision >= 0 then d.style.precision else SIZE_MAX;
      var text := TextOf(d.args);
      Field(Justified(text[..StringLength(text, limit, 0)], d.style.width, d.style.left), Rest(d.args), HasText(d.args))
    case 'd' => SignedField(d)
    case 'i' => SignedField(d)
    case 'u' => UnsignedField(d, 10)
    case 'x' => UnsignedField(d, 16)
    case 'X' => UnsignedField(d, 16)
    case 'p' =>
      Field(NumberText(Mod32(NumberOf(d.args)), false, 16, false,
                       d.style.(plus := false, space := false, alternate := true)),
            Rest(d.args), HasNumber(d.args))
    case _ => Unsupported
  }

  function Magnitude(value: int): nat { if value < 0 then -value else value }

  function SignedField(d: Directive): Field {
    var value := SignedArg(d.args, d.length);
    Field(NumberText(Magnitude(value), value < 0, 10, false, d.style.(alternate := false)), Rest(d.args),
          HasNumber(d.args))
  }

  function UnsignedField(d: Directive, base: nat): Field
    requires base in {10, 16}
  {
    Field(NumberText(UnsignedArg(d.args, d.length), false, base, d.specifier == 'X', d.style), Rest(d.args),
          HasNumber(d.args))
  }

  // ----- the whole format -----

  /** What the format prints from `i` on, and whether it ends without an unknown directive. */
  function Formatted(format: string, i: nat, args: seq<Arg>): Printed
    decreases |format| - i
  {
    if At(format, i) == '\0' then Printed("", true)
    else if At(format, i) != '%' then
      var rest := Formatted(format, i + 1, args);
      Printed([At(format, i)] + rest.text, rest.ok)
    else
      var d := DirectiveAt(format, i + 1, args);
      match FieldOf(d)
      case Unsupported => Printed("", false)
      case Field(text, left, _) =>
        var rest := Formatted(format, d.next, left);
        Printed(text + rest.text, rest.ok)
  }

  /** C defines the result: every directive reached is defined and finds its argument. */
  predicate Supported(format: string, i: nat, args: seq<Arg>)
    decreases |format| - i
  {
    if At(format, i) == '\0' then true
    else if At(format, i) != '%' then Supported(format, i + 1, args)
    else
      var d := DirectiveAt(format, i + 1, args);
      d.defined &&
      match FieldOf(d)
      case Unsupported => true
      case Field(_, left, defined) => defined && Supported(format, d.next, left)
  }

  // ----- the methods -----

  method ReadFlags(format: string, start: nat) returns (style: Style, i: nat)
    ensures (style, i) == FlagsAt(format, start, NO_STYLE)
  {
    style, i := NO_STYLE, start;
    while true
      invariant FlagsAt(format, i, style) == FlagsAt(format, start, NO_STYLE)
      decreases |format| - i
    {
      match At(format, i) {
        case '-' => style := style.(left := true);
        case '0' => style := style.(zero := true);
        case '+' => style := style.(plus := true);
        case ' ' => style := style.(space := true);
        case '#' => style := style.(alternate := true);
        case _ => break;
      }
      i := i + 1;
    }
  }

  method ReadNumber(format: string, start: nat) returns (value: nat, i: nat)
    ensures (value, i) == NumberAt(format, start, 0)
  {
    value, i := 0, start;
    while '0' <= At(format, i) <= '9'
      invariant NumberAt(format, i, value) == NumberAt(format, start, 0)
      decreases |format| - i
    {
      value := value * 10 + (At(format, i) - '0') as nat;
      i := i + 1;
    }
  }

  method ReadWidth(format: string, p: Parse) returns (r: Parse)
    ensures r == WidthAt(format, p)
  {
    var style, i, left, defined := p.style, p.next, p.args, p.defined;
    if At(format, i) == '*' {
      var width: int := SignedArg(left, Plain);
      defined := defined && HasNumber(left) && width + INT_MAX >= 0;
      left := Rest(left);
      if width < 0 {
        style := style.(left := true);
        width := -width;
      }
      style := style.(width := width);
      i := i + 1;
    } else {
      var width;
      width, i := ReadNumber(format, i);
      style := style.(width := width);
      defined := defined && width <= INT_MAX;
    }
    r := Parse(style, i, left, defined);
  }

  method ReadPrecision(format: string, p: Parse) returns (r: Parse)
    ensures r == PrecisionAt(format, p)
  {
    r := p;
    if At(format, r.next) == '.' {
      var i := r.next + 1;
      if At(format, i) == '*' {
        var precision: int := SignedArg(r.args, Plain);
        if precision < 0 { precision := -1; }
        r := Parse(r.style.(precision := precision), i + 1, Rest(r.args), r.defined && HasNumber(r.args));
      } else {
        var precision;
        precision, i := ReadNumber(format, i);
        r := Parse(r.style.(precision := precision), i, r.args, r.defined && precision <= INT_MAX);
      }
    }
  }

  method ReadLength(format: string, start: nat) returns (length: Length, i: nat)
    ensures (length, i) == LengthAt(format, start)
  {
    length, i := Plain, start;
    if At(format, i) == 'h' {
      i := i + 1;
      if At(format, i) == 'h' { i := i + 1; }
    } else if At(format, i) == 'l' {
      i := i + 1;
      length := Long;
      if At(format, i) == 'l' {
        i := i + 1;
        length := LongLong;
      }
    } else if At(format, i) == 'z' {
      i := i + 1;
      length := Size;
    }
  }

  method ReadDirective(format: string, start: nat, args: seq<Arg>) returns (d: Directive)
    ensures d == DirectiveAt(format, start, args)
  {
    hide FlagsAt, WidthAt, PrecisionAt, LengthAt;
    var style, i := ReadFlags(format, start);
    var p := ReadWidth(format, Parse(style, i, args, true));
    p := ReadPrecision(format, p);
    var length;
    length, i := ReadLength(format, p.next);
    d := Directive(p.style, length, At(format, i), i + 1, p.args, p.defined);
  }

  method StringLengthLimit(s: string, limit: nat) returns (length: nat)
    ensures length == StringLength(s, limit, 0)
  {
    length := 0;
    while length < limit && At(s, length) != '\0'
      invariant length <= |s| && StringLength(s, limit, length) == StringLength(s, limit, 0)
      decreases |s| - length
    {
      length := length + 1;
    }
  }

  /** The branches on the specifier. */
  method OutputDirective(output: Output, d: Directive) returns (ok: bool)
    requires output.Valid()
    modifies output, output.buffer
    ensures output.Valid()
    ensures ok == FieldOf(d).Field?
    ensures output.text == old(output.text) + if ok then FieldOf(d).text else ""
  {
    hide Output.Valid, NumberText, Justified;
    ok := true;
    match d.specifier {
      case '%' => output.OutputChar('%');
      case 'c' =>
        var value := [(NumberOf(d.args) % 0x100) as char];
        assert value[..1] == value;
        output.OutputString(value, 1, d.style.width, d.style.left);
      case 's' =>
        var limit := if d.style.precision >= 0 then d.style.precision else SIZE_MAX;
        var value := TextOf(d.args);
        var length := StringLengthLimit(value, limit);
        output.OutputString(value, length, d.style.width, d.style.left);
      case 'd' => OutputSigned(output, d);
      case 'i' => OutputSigned(output, d);
      case 'u' =>
        output.OutputNumber(UnsignedArg(d.args, d.length), false, 10, false, d.style);
      case 'x' =>
        output.OutputNumber(UnsignedArg(d.args, d.length), false, 16, false, d.style);
      case 'X' =>
        output.OutputNumber(UnsignedArg(d.args, d.length), false, 16, true, d.style);
      case 'p' =>
        output.OutputNumber(Mod32(NumberOf(d.args)), false, 16, false,
                            d.style.(plus := false, space := false, alternate := true));
      case _ => ok := false;
    }
  }

  method OutputSigned(output: Output, d: Directive)
    requires output.Valid()
    modifies output, output.buffer
    ensures output.Valid() && output.text == old(output.text) + SignedField(d).text
  {
    hide Output.Valid;
    var value: int := SignedArg(d.args, d.length);
    var negative := value < 0;
    var magnitude: nat := if negative then -(value + 1) + 1 else value;
    assert magnitude == Magnitude(value);
    output.OutputNumber(magnitude, negative, 10, false, d.style.(alternate := false));
  }

  /** What is returned for `n` characters. */
  function Returned(n: nat): int {
    if n % SIZE_MODULUS > INT_MAX then -1 else n % SIZE_MODULUS
  }

  method Vsnprintf(buffer: array?<char>, size: nat, format: Option<string>, arguments: seq<Arg>) returns (result: int)
    requires size < SIZE_MODULUS && (buffer != null ==> size <= buffer.Length)
    requires format.Some? ==> Supported(format.value, 0, arguments)
    modifies buffer
    ensures format.None? || (buffer == null && size != 0) ==>
              result == -1 && (buffer != null ==> buffer[..] == old(buffer[..]))
    ensures format.Some? && (buffer == null ==> size == 0) ==>
              var printed := Formatted(format.value, 0, arguments);
              && result == (if printed.ok then Returned(|printed.text|) else -1)
              && (buffer != null ==> buffer[..] == Finished(printed.text, size, old(buffer[..])))
  {
    if format.None? || (buffer == null && size != 0) { return -1; }
    var output := new Output(buffer, size);
    var text, cursor, left := format.value, 0, arguments;
    var ok := true;
    hide Formatted, FieldOf, DirectiveAt, At, Finished, Output.Valid;
    while At(text, cursor) != '\0'
      invariant output.Valid() && fresh(output) && output.buffer == buffer && output.size == size
      invariant Continues(text, arguments, output.text, cursor, left)
      decreases |text| - cursor
    {
      AtInside(text, cursor);
      if At(text, cursor) != '%' {
        ContinuesCharacter(text, arguments, output.text, cursor, left);
        output.OutputChar(At(text, cursor));
        cursor := cursor + 1;
      } else {
        var d := ReadDirective(text, cursor + 1, left);
        ContinuesDirective(text, arguments, output.text, cursor, left);
        ok := OutputDirective(output, d);
        if !ok {
          output.OutputFinish();
          return -1;
        }
        cursor, left := d.next, FieldOf(d).args;
      }
    }
    ContinuesEnd(text, arguments, output.text, cursor, left);
    CountOf(output);
    output.OutputFinish();
    result := if output.count > INT_MAX then -1 else output.count;
  }

  lemma AtInside(s: string, i: nat)
    ensures At(s, i) != '\0' ==> i < |s|
  {
  }

  lemma CountOf(output: Output)
    requires output.Valid()
    ensures output.count == |output.text| % SIZE_MODULUS
  {
  }

  /** After `done`, what is left to print is the format from `i` on. */
  ghost predicate Continues(format: string, arguments: seq<Arg>, done: string, i: nat, left: seq<Arg>) {
    var all, rest := Formatted(format, 0, arguments), Formatted(format, i, left);
    all.text == done + rest.text && all.ok == rest.ok
  }

  lemma ContinuesCharacter(format: string, arguments: seq<Arg>, done: string, i: nat, left: seq<Arg>)
    requires Continues(format, arguments, done, i, left) && At(format, i) != '\0' && At(format, i) != '%'
    ensures Continues(format, arguments, done + [At(format, i)], i + 1, left)
  {
    hide FieldOf, DirectiveAt;
    Regroup(done, [At(format, i)], Formatted(format, i + 1, left).text);
  }

  lemma ContinuesDirective(format: string, arguments: seq<Arg>, done: string, i: nat, left: seq<Arg>)
    requires Continues(format, arguments, done, i, left) && At(format, i) == '%'
    ensures var d := DirectiveAt(format, i + 1, left);
            match FieldOf(d)
            case Unsupported => Formatted(format, 0, arguments) == Printed(done, false)
            case Field(text, rest, _) => Continues(format, arguments, done + text, d.next, rest)
  {
    hide FieldOf, DirectiveAt;
    var d := DirectiveAt(format, i + 1, left);
    match FieldOf(d)
    case Unsupported =>
    case Field(text, rest, _) =>
      Regroup(done, text, Formatted(format, d.next, rest).text);
  }

  lemma ContinuesEnd(format: string, arguments: seq<Arg>, done: string, i: nat, left: seq<Arg>)
    requires Continues(format, arguments, done, i, left) && At(format, i) == '\0'
    ensures Formatted(format, 0, arguments) == Printed(done, true)
  {
    hide FieldOf, DirectiveAt;
  }
}
