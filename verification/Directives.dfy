/** Directives of a format, written out and read back, and what each specifier prints. */
module Directives {
  import opened Printer
  import opened Formatter
  import opened Parsers
  import opened PrintParse
  import opened NumeralWriter

  // ----- writing a directive -----

  function FlagIf(wanted: bool, c: char): (r: string)
    ensures |r| <= 1
  {
    if wanted then [c] else ""
  }

  function FlagsText(style: Style): string {
    FlagIf(style.left, '-') + (FlagIf(style.zero, '0') + (FlagIf(style.plus, '+') +
                                                          (FlagIf(style.space, ' ') + FlagIf(style.alternate, '#'))))
  }

  function WidthText(style: Style): string { if style.width == 0 then "" else InBase(style.width, 10, false) }

  function PrecisionText(style: Style): string {
    if style.precision < 0 then "" else "." + InBase(style.precision, 10, false)
  }

  function LengthText(length: Length): string {
    match length
    case Plain => ""
    case Long => "l"
    case LongLong => "ll"
    case Size => "z"
  }

  /** A directive behind its percent sign. */
  function DirectiveText(style: Style, length: Length, specifier: char): string {
    FlagsText(style) + WidthText(style) + PrecisionText(style) + LengthText(length) + [specifier]
  }

  /** The character cannot be taken for a flag, a width, a precision or a length. */
  predicate EndsDirective(c: char) {
    c !in {'-', '0', '+', ' ', '#', '*', '.', 'h', 'l', 'z'} && !('0' <= c <= '9')
  }

  /** `part` stands at `i`. */
  predicate StandsAt(format: string, i: nat, part: string) {
    forall k :: 0 <= k < |part| ==> At(format, i + k) == part[k]
  }

  lemma StandsSplit(format: string, i: nat, a: string, b: string)
    requires StandsAt(format, i, a + b)
    ensures StandsAt(format, i, a) && StandsAt(format, i + |a|, b)
  {
    forall k | 0 <= k < |a|
      ensures At(format, i + k) == a[k]
    {
      assert (a + b)[k] == a[k];
    }
    forall k | 0 <= k < |b|
      ensures At(format, i + |a| + k) == b[k]
    {
      assert At(format, i + (|a| + k)) == (a + b)[|a| + k];
    }
  }

  lemma FirstStands(format: string, i: nat, part: string)
    requires StandsAt(format, i, part) && part != ""
    ensures At(format, i) == part[0] && StandsAt(format, i + 1, part[1..])
  {
    assert At(format, i + 0) == part[0];
    forall k | 0 <= k < |part[1..]|
      ensures At(format, i + 1 + k) == part[1..][k]
    {
      assert At(format, i + (k + 1)) == part[k + 1];
    }
  }

  // ----- reading its parts -----

  predicate IsFlag(c: char) { c in {'-', '0', '+', ' ', '#'} }

  function WithFlag(style: Style, c: char): Style {
    Style(style.left || c == '-', style.zero || c == '0', style.plus || c == '+', style.space || c == ' ',
          style.alternate || c == '#', style.width, style.precision)
  }

  function WithFlags(style: Style, flags: string): Style
    decreases |flags|
  {
    if flags == "" then style else WithFlags(WithFlag(style, flags[0]), flags[1..])
  }

  lemma {:induction false} FlagsRead(format: string, i: nat, flags: string, style: Style)
    requires StandsAt(format, i, flags) && (forall k :: 0 <= k < |flags| ==> IsFlag(flags[k]))
    requires !IsFlag(At(format, i + |flags|))
    ensures FlagsAt(format, i, style) == (WithFlags(style, flags), i + |flags|)
    decreases |flags|
  {
    if flags != "" {
      FirstStands(format, i, flags);
      assert IsFlag(flags[0]) && At(format, i) != '\0';
      FlagsRead(format, i + 1, flags[1..], WithFlag(style, flags[0]));
    }
  }

  lemma WithFlagsAppend(style: Style, a: string, b: string)
    requires |a| <= 1
    ensures WithFlags(style, a + b) == WithFlags(if a == "" then style else WithFlag(style, a[0]), b)
  {
    if a == "" {
      assert a + b == b;
    } else {
      assert (a + b)[0] == a[0] && (a + b)[1..] == b;
    }
  }

  /** One flag, then more. */
  lemma FlagThen(style: Style, wanted: bool, c: char, rest: string)
    requires IsFlag(c)
    ensures WithFlags(style, FlagIf(wanted, c) + rest) == WithFlags(if wanted then WithFlag(style, c) else style, rest)
    ensures (forall k :: 0 <= k < |rest| ==> IsFlag(rest[k])) ==>
              forall k :: 0 <= k < |FlagIf(wanted, c) + rest| ==> IsFlag((FlagIf(wanted, c) + rest)[k])
  {
    hide WithFlag, IsFlag;
    WithFlagsAppend(style, FlagIf(wanted, c), rest);
  }

  lemma LastFlag(style: Style, wanted: bool, c: char)
    requires IsFlag(c)
    ensures WithFlags(style, FlagIf(wanted, c)) == if wanted then WithFlag(style, c) else style
    ensures forall k :: 0 <= k < |FlagIf(wanted, c)| ==> IsFlag(FlagIf(wanted, c)[k])
  {
    hide WithFlag, IsFlag;
    if wanted {
      assert [c][1..] == "";
      assert WithFlags(WithFlag(style, c), "") == WithFlag(style, c);
    }
  }

  lemma FlagsTextRead(style: Style)
    ensures WithFlags(NO_STYLE, FlagsText(style)) == style.(width := 0, precision := -1)
    ensures forall k :: 0 <= k < |FlagsText(style)| ==> IsFlag(FlagsText(style)[k])
  {
    var s1 := NO_STYLE.(left := style.left);
    var s2 := s1.(zero := style.zero);
    var s3 := s2.(plus := style.plus);
    var s4 := s3.(space := style.space);
    var e := FlagIf(style.alternate, '#');
    var d := FlagIf(style.space, ' ') + e;
    var c := FlagIf(style.plus, '+') + d;
    var b := FlagIf(style.zero, '0') + c;
    assert FlagsText(style) == FlagIf(style.left, '-') + b;
    assert s1 == if style.left then WithFlag(NO_STYLE, '-') else NO_STYLE;
    assert s2 == if style.zero then WithFlag(s1, '0') else s1;
    assert s3 == if style.plus then WithFlag(s2, '+') else s2;
    assert s4 == if style.space then WithFlag(s3, ' ') else s3;
    assert style.(width := 0, precision := -1) == if style.alternate then WithFlag(s4, '#') else s4;
    hide WithFlags, FlagIf, FlagsText, WithFlag;
    LastFlag(s4, style.alternate, '#');
    FlagThen(s3, style.space, ' ', e);
    FlagThen(s2, style.plus, '+', d);
    FlagThen(s1, style.zero, '0', c);
    FlagThen(NO_STYLE, style.left, '-', b);
  }

  function Accumulated(digits: string, value: nat): nat
    requires forall k :: 0 <= k < |digits| ==> '0' <= digits[k] <= '9'
  {
    if digits == "" then value else Accumulated(digits[1..], value * 10 + (digits[0] as int - 48))
  }

  lemma {:induction false} AccumulatedSnoc(digits: string, d: char, value: nat)
    requires (forall k :: 0 <= k < |digits| ==> '0' <= digits[k] <= '9') && '0' <= d <= '9'
    ensures Accumulated(digits + [d], value) == Accumulated(digits, value) * 10 + (d as int - 48)
    decreases |digits|
  {
    if digits == "" {
      assert digits + [d] == [d] && [d][1..] == "";
      assert Accumulated("", value * 10 + (d as int - 48)) == value * 10 + (d as int - 48);
    } else {
      assert (digits + [d])[0] == digits[0] && (digits + [d])[1..] == digits[1..] + [d];
      AccumulatedSnoc(digits[1..], d, value * 10 + (digits[0] as int - 48));
    }
  }

  lemma {:induction false} DecimalAccumulated(n: nat)
    ensures forall k :: 0 <= k < |InBase(n, 10, false)| ==> '0' <= InBase(n, 10, false)[k] <= '9'
    ensures Accumulated(InBase(n, 10, false), 0) == n
  {
    var d := DigitOf(n % 10, false);
    assert d as int == 48 + n % 10 && '0' <= d <= '9';
    if n < 10 {
      assert InBase(n, 10, false) == "" + [d];
      AccumulatedSnoc("", d, 0);
    } else {
      DecimalAccumulated(n / 10);
      AccumulatedSnoc(InBase(n / 10, 10, false), d, 0);
    }
  }

  lemma {:induction false} NumberRead(format: string, i: nat, digits: string, value: nat)
    requires StandsAt(format, i, digits) && (forall k :: 0 <= k < |digits| ==> '0' <= digits[k] <= '9')
    requires !('0' <= At(format, i + |digits|) <= '9')
    ensures NumberAt(format, i, value) == (Accumulated(digits, value), i + |digits|)
    decreases |digits|
  {
    if digits != "" {
      FirstStands(format, i, digits);
      assert At(format, i) != '\0' && ('0' as int == 48);
      assert (At(format, i) - '0') as nat == digits[0] as int - 48;
      NumberRead(format, i + 1, digits[1..], value * 10 + (digits[0] as int - 48));
    }
  }

  lemma WidthRead(format: string, i: nat, style: Style, p: Parse)
    requires StandsAt(format, i, WidthText(style)) && p.next == i
    requires var c := At(format, i + |WidthText(style)|); !('0' <= c <= '9') && c != '*'
    ensures WidthAt(format, p) == Parse(p.style.(width := style.width), i + |WidthText(style)|, p.args,
                                        p.defined && style.width <= 0x7fff_ffff)
  {
    DecimalAccumulated(style.width);
    hide InBase, NumberAt;
    if style.width == 0 {
      NumberRead(format, i, "", 0);
    } else {
      NumberRead(format, i, InBase(style.width, 10, false), 0);
      FirstStands(format, i, InBase(style.width, 10, false));
      assert At(format, i) != '*';
    }
  }

  lemma PrecisionRead(format: string, i: nat, style: Style, p: Parse)
    requires StandsAt(format, i, PrecisionText(style)) && p.next == i && style.precision >= -1
             && p.style.precision == -1
    requires var c := At(format, i + |PrecisionText(style)|); !('0' <= c <= '9') && c != '.'
    ensures PrecisionAt(format, p) == Parse(p.style.(precision := style.precision), i + |PrecisionText(style)|, p.args,
                                            p.defined && style.precision <= 0x7fff_ffff)
  {
    if style.precision >= 0 {
      var digits := InBase(style.precision, 10, false);
      DecimalAccumulated(style.precision);
      hide InBase, NumberAt;
      FirstStands(format, i, "." + digits);
      assert ("." + digits)[1..] == digits;
      FirstStands(format, i + 1, digits);
      assert At(format, i + 1) != '*';
      NumberRead(format, i + 1, digits, 0);
    }
  }

  lemma LengthRead(format: string, i: nat, length: Length)
    requires StandsAt(format, i, LengthText(length))
    requires At(format, i + |LengthText(length)|) !in {'h', 'l', 'z'}
    ensures LengthAt(format, i) == (length, i + |LengthText(length)|)
  {
    if length == Long || length == Size || length == LongLong {
      FirstStands(format, i, LengthText(length));
    }
    if length == LongLong {
      assert LengthText(length)[1..] == "l";
      FirstStands(format, i + 1, "l");
    }
  }

  /** `h` and `hh` are read over: the argument is an `int`. */
  lemma HalvesRead(format: string, i: nat)
    requires At(format, i) == 'h'
    ensures At(format, i + 1) != 'h' ==> LengthAt(format, i) == (Plain, i + 1)
    ensures At(format, i + 1) == 'h' ==> LengthAt(format, i) == (Plain, i + 2)
  {
  }

  /** What follows a part decides where it ends. */
  lemma Followers(format: string, i: nat, style: Style, length: Length, specifier: char)
    requires StandsAt(format, i, DirectiveText(style, length, specifier)) && EndsDirective(specifier)
    ensures var a := i + |FlagsText(style)|; var b := a + |WidthText(style)|; var c := b + |PrecisionText(style)|;
            var e := c + |LengthText(length)|;
            && StandsAt(format, i, FlagsText(style)) && StandsAt(format, a, WidthText(style))
            && StandsAt(format, b, PrecisionText(style)) && StandsAt(format, c, LengthText(length))
            && At(format, e) == specifier && e + 1 == i + |DirectiveText(style, length, specifier)|
  {
    var f, w, p, l := FlagsText(style), WidthText(style), PrecisionText(style), LengthText(length);
    hide StandsAt, FlagsText, WidthText, PrecisionText, LengthText;
    StandsSplit(format, i, f + w + p + l, [specifier]);
    StandsSplit(format, i, f + w + p, l);
    StandsSplit(format, i, f + w, p);
    StandsSplit(format, i, f, w);
    FirstStands(format, i + |f + w + p + l|, [specifier]);
  }

  /** No part can be taken for more than it is. */
  lemma PartsEnd(format: string, i: nat, style: Style, length: Length, specifier: char)
    requires StandsAt(format, i, DirectiveText(style, length, specifier)) && EndsDirective(specifier)
    ensures var a := i + |FlagsText(style)|; var b := a + |WidthText(style)|; var c := b + |PrecisionText(style)|;
            var e := c + |LengthText(length)|;
            && !IsFlag(At(format, a))
            && !('0' <= At(format, b) <= '9') && At(format, b) != '*'
            && !('0' <= At(format, c) <= '9') && At(format, c) != '.'
            && At(format, e) !in {'h', 'l', 'z'}
  {
    hide StandsAt, At, FlagsText, WidthText, PrecisionText, LengthText, DirectiveText;
    Followers(format, i, style, length, specifier);
    var a := i + |FlagsText(style)|;
    var b := a + |WidthText(style)|;
    var c := b + |PrecisionText(style)|;
    LengthFirst(format, c, length, specifier);
    PrecisionFirst(format, b, style);
    WidthFirst(format, a, style);
  }

  lemma LengthFirst(format: string, c: nat, length: Length, specifier: char)
    requires StandsAt(format, c, LengthText(length)) && At(format, c + |LengthText(length)|) == specifier
    ensures At(format, c) == if length == Plain then specifier else if length == Size then 'z' else 'l'
    ensures length == Plain ==> |LengthText(length)| == 0
  {
    if length != Plain {
      FirstStands(format, c, LengthText(length));
    }
  }

  lemma PrecisionFirst(format: string, b: nat, style: Style)
    requires StandsAt(format, b, PrecisionText(style))
    ensures if style.precision >= 0 then At(format, b) == '.' else |PrecisionText(style)| == 0
  {
    if style.precision >= 0 {
      FirstStands(format, b, PrecisionText(style));
    }
  }

  lemma WidthFirst(format: string, a: nat, style: Style)
    requires StandsAt(format, a, WidthText(style))
    ensures if style.width > 0 then '1' <= At(format, a) <= '9' else |WidthText(style)| == 0
  {
    if style.width > 0 {
      FirstStands(format, a, WidthText(style));
      DecimalAccumulated(style.width);
      LeadingFigure(style.width);
    }
  }

  lemma Assembled(format: string, i: nat, args: seq<Arg>, style: Style, a: nat, w: Parse, p: Parse, length: Length,
                  e: nat)
    requires FlagsAt(format, i, NO_STYLE) == (style, a) && WidthAt(format, Parse(style, a, args, true)) == w
    requires PrecisionAt(format, w) == p && LengthAt(format, p.next) == (length, e)
    ensures DirectiveAt(format, i, args) == Directive(p.style, length, At(format, e), e + 1, p.args, p.defined)
  {
    hide FlagsAt, WidthAt, PrecisionAt, LengthAt;
  }

  /** The flags and the width, when nothing behind them can be taken for them. */
  lemma FrontRead(format: string, i: nat, style: Style, args: seq<Arg>, a: nat, b: nat)
    requires a == i + |FlagsText(style)| && b == a + |WidthText(style)|
    requires StandsAt(format, i, FlagsText(style)) && !IsFlag(At(format, a))
    requires StandsAt(format, a, WidthText(style)) && !('0' <= At(format, b) <= '9') && At(format, b) != '*'
    ensures var flagged := style.(width := 0, precision := -1);
            && FlagsAt(format, i, NO_STYLE) == (flagged, a)
            && WidthAt(format, Parse(flagged, a, args, true))
               == Parse(style.(precision := -1), b, args, style.width <= 0x7fff_ffff)
  {
    FlagsTextRead(style);
    hide *;
    FlagsRead(format, i, FlagsText(style), NO_STYLE);
    WidthRead(format, a, style, Parse(style.(width := 0, precision := -1), a, args, true));
  }

  /** The precision and the length, likewise. */
  lemma BackRead(format: string, b: nat, style: Style, length: Length, args: seq<Arg>, c: nat, e: nat)
    requires c == b + |PrecisionText(style)| && e == c + |LengthText(length)| && style.precision >= -1
    requires StandsAt(format, b, PrecisionText(style)) && !('0' <= At(format, c) <= '9') && At(format, c) != '.'
    requires StandsAt(format, c, LengthText(length)) && At(format, e) !in {'h', 'l', 'z'}
    ensures PrecisionAt(format, Parse(style.(precision := -1), b, args, style.width <= 0x7fff_ffff))
         == Parse(style, c, args, style.width <= 0x7fff_ffff && style.precision <= 0x7fff_ffff)
    ensures LengthAt(format, c) == (length, e)
  {
    hide *;
    PrecisionRead(format, b, style, Parse(style.(precision := -1), b, args, style.width <= 0x7fff_ffff));
    assert style.(precision := -1).(precision := style.precision) == style;
    LengthRead(format, c, length);
  }

  /** Every directive is read as it was written: flags, width, precision, length and specifier, and where it ends. */
  lemma DirectiveRead(format: string, i: nat, style: Style, length: Length, specifier: char, args: seq<Arg>)
    requires StandsAt(format, i, DirectiveText(style, length, specifier)) && EndsDirective(specifier)
    requires style.precision >= -1
    ensures DirectiveAt(format, i, args) ==
            Directive(style, length, specifier, i + |DirectiveText(style, length, specifier)|, args,
                      style.width <= 0x7fff_ffff && style.precision <= 0x7fff_ffff)
  {
    hide *;
    Followers(format, i, style, length, specifier);
    PartsEnd(format, i, style, length, specifier);
    var a := i + |FlagsText(style)|;
    var b := a + |WidthText(style)|;
    var c := b + |PrecisionText(style)|;
    var e := c + |LengthText(length)|;
    FrontRead(format, i, style, args, a, b);
    BackRead(format, b, style, length, args, c, e);
    Assembled(format, i, args, style.(width := 0, precision := -1), a,
              Parse(style.(precision := -1), b, args, style.width <= 0x7fff_ffff),
              Parse(style, c, args, style.width <= 0x7fff_ffff && style.precision <= 0x7fff_ffff), length, e);
  }

  lemma FourStand(format: string, i: nat, specifier: char)
    requires StandsAt(format, i, "*.*" + [specifier])
    ensures At(format, i) == '*' && At(format, i + 1) == '.' && At(format, i + 2) == '*'
            && At(format, i + 3) == specifier
  {
    hide At;
    StandsSplit(format, i, "*.*", [specifier]);
    FirstStands(format, i, "*.*");
    assert "*.*"[1..] == ".*" && ".*"[1..] == "*";
    FirstStands(format, i + 1, ".*");
    FirstStands(format, i + 2, "*");
    FirstStands(format, i + 3, [specifier]);
  }

  /** Width and precision taken from arguments: a negative width means left-justified, a negative precision none. */
  lemma StarsRead(format: string, i: nat, specifier: char, width: int, precision: int, rest: seq<Arg>)
    requires StandsAt(format, i, "*.*" + [specifier]) && EndsDirective(specifier)
    requires -0x7fff_ffff <= width <= 0x7fff_ffff && -0x8000_0000 <= precision <= 0x7fff_ffff
    ensures DirectiveAt(format, i, [Number(width), Number(precision)] + rest) ==
            Directive(NO_STYLE.(left := width < 0, width := if width < 0 then 0 - width else width,
                                precision := if precision < 0 then -1 else precision),
                      Plain, specifier, i + 4, rest, true)
  {
    FourStand(format, i, specifier);
    var args := [Number(width), Number(precision)] + rest;
    assert args[1..] == [Number(precision)] + rest && args[1..][1..] == rest;
    ArgumentRead(width, args[1..], Plain);
    ArgumentRead(precision, rest, Plain);
    assert args == [Number(width)] + args[1..];
    hide SignedArg, StandsAt;
    assert FlagsAt(format, i, NO_STYLE) == (NO_STYLE, i);
    var w := WidthAt(format, Parse(NO_STYLE, i, args, true));
    assert w == Parse(NO_STYLE.(left := width < 0, width := if width < 0 then 0 - width else width), i + 1, args[1..],
                      true);
    var p := PrecisionAt(format, w);
    assert p == Parse(w.style.(precision := if precision < 0 then -1 else precision), i + 3, rest, true);
  }

  // ----- arguments -----

  /** The values of an integer argument: 32 bits, or 64 for `ll`. */
  predicate FitsSigned(n: int, length: Length) {
    if length == LongLong then -0x8000_0000_0000_0000 <= n <= 0x7fff_ffff_ffff_ffff
    else -0x8000_0000 <= n <= 0x7fff_ffff
  }

  /** A value that fits is taken as it is; unsigned, a negative one counts from the modulus. */
  lemma ArgumentRead(n: int, rest: seq<Arg>, length: Length)
    requires FitsSigned(n, length)
    ensures SignedArg([Number(n)] + rest, length) == n
    ensures UnsignedArg([Number(n)] + rest, length) ==
            if n >= 0 then n else if length == LongLong then n + 0x1_0000_0000_0000_0000 else n + 0x1_0000_0000
    ensures Formatter.Rest([Number(n)] + rest) == rest
  {
    assert NumberOf([Number(n)] + rest) == n;
    assert ([Number(n)] + rest)[1..] == rest;
    hide NumberOf;
  }

  // ----- what each specifier prints -----

  /** Padding of a number: zeroes up to the precision; then spaces behind if left-justified, zeroes between prefix and
      digits if asked for and no precision is given, or spaces in front. */
  lemma NumberPadded(value: nat, negative: bool, base: nat, uppercase: bool, style: Style)
    requires base in {10, 16}
    ensures var prefix := Prefix(value, negative, base, uppercase, style);
            var digits := DigitsShown(value, base, uppercase, style);
            var long := Repeat('0', Max(style.precision - |digits|, 0)) + digits;
            var fill := Max(style.width - |prefix + long|, 0);
            NumberText(value, negative, base, uppercase, style) ==
            if style.left then prefix + long + Repeat(' ', fill)
            else if style.zero && style.precision < 0 then prefix + Repeat('0', fill) + long
            else Repeat(' ', fill) + (prefix + long)
  {
    hide Prefix, DigitsShown;
    var prefix, digits := Prefix(value, negative, base, uppercase, style), DigitsShown(value, base, uppercase, style);
    var zeroes := Max(style.precision - |digits|, 0);
    var long := Repeat('0', zeroes) + digits;
    var fill := Max(style.width - |prefix + long|, 0);
    var layout := LayoutOf(|prefix|, |digits|, style);
    assert Repeat(' ', 0) == "" && Repeat('0', 0) == "";
    hide Repeat;
    Pieces(Repeat(' ', layout.lead), prefix, Repeat('0', layout.inner), Repeat('0', zeroes), digits,
           Repeat(' ', layout.tail));
  }

  lemma Pieces(a: string, b: string, c: string, d: string, e: string, f: string)
    ensures a + b + c + d + e + f == a + (b + (c + (d + e))) + f
    ensures c == "" ==> a + b + c + d + e + f == a + (b + (d + e)) + f
    ensures a == "" && f == "" ==> a + b + c + d + e + f == b + c + (d + e)
    ensures f == "" && c == "" ==> a + b + c + d + e + f == a + (b + (d + e))
    ensures a == "" && c == "" ==> a + b + c + d + e + f == b + (d + e) + f
  {
  }

  /** Sign and base mark: a minus, else a plus if asked for, else a space if asked for; `0x` or `0X` before a
      hexadecimal number other than zero. */
  lemma PrefixMeaning(value: nat, negative: bool, base: nat, uppercase: bool, style: Style)
    requires base in {10, 16}
    ensures var prefix := Prefix(value, negative, base, uppercase, style);
            var sign := if negative then "-" else if style.plus then "+" else if style.space then " " else "";
            var mark := if style.alternate && base == 16 && value != 0 then (if uppercase then "0X" else "0x") else "";
            prefix == sign + mark
  {
  }

  predicate IsFigure(c: char) { 48 <= c as int <= 57 }

  /** The letters of a hexadecimal number are of the case asked for. */
  lemma {:induction false} CaseOfDigits(value: nat, base: nat, uppercase: bool)
    requires base in {10, 16}
    ensures forall k :: 0 <= k < |Digits(value, base, uppercase)| ==>
              var c := Digits(value, base, uppercase)[k];
              IsFigure(c) || (if uppercase then 65 <= c as int <= 70 else 97 <= c as int <= 102)
  {
    DigitCase(Rem(value, base), uppercase);
    if Quot(value, base) != 0 {
      CaseOfDigits(Quot(value, base), base, uppercase);
    }
  }

  lemma DigitCase(d: nat, uppercase: bool)
    requires d < 16
    ensures var c := DigitChar(d, uppercase);
            c as int == if d < 10 then 48 + d else if uppercase then 55 + d else 87 + d
  {
    assert DigitValue(DigitChar(d, uppercase)) == d by { DigitCharValue(d, uppercase); }
    var lower, upper := "0123456789abcdef", "0123456789ABCDEF";
    assert uppercase ==> forall i :: 0 <= i < 16 ==> '0' <= upper[i] <= '9' || 'A' <= upper[i] <= 'F';
    assert !uppercase ==> forall i :: 0 <= i < 16 ==> '0' <= lower[i] <= '9' || 'a' <= lower[i] <= 'f';
    assert '0' as int == 48 && 'A' as int == 65 && 'a' as int == 97;
  }

  /** `d` and `i` print the argument with its sign in decimal, `u` in decimal, `x` and `X` in hexadecimal of either
      case, `p` as `0x` and lower-case hexadecimal without a sign. */
  lemma NumberFields(d: Directive, n: int)
    requires FitsSigned(n, d.length) && d.args != [] && d.args[0] == Number(n)
    ensures d.specifier in {'d', 'i'} ==>
              FieldOf(d) == Field(NumberText(if n < 0 then 0 - n else n, n < 0, 10, false,
                                             d.style.(alternate := false)),
                                  d.args[1..], true)
    ensures var value := if n >= 0 then n else if d.length == LongLong then n + 0x1_0000_0000_0000_0000
            else n + 0x1_0000_0000;
            && (d.specifier == 'u' ==>
                  FieldOf(d) == Field(NumberText(value, false, 10, false, d.style), d.args[1..], true))
            && (d.specifier == 'x' ==>
                  FieldOf(d) == Field(NumberText(value, false, 16, false, d.style), d.args[1..], true))
            && (d.specifier == 'X' ==>
                  FieldOf(d) == Field(NumberText(value, false, 16, true, d.style), d.args[1..], true))
    ensures d.specifier == 'p' && d.length != LongLong ==>
              FieldOf(d) == Field(NumberText(if n >= 0 then n else n + 0x1_0000_0000, false, 16, false,
                                             d.style.(plus := false, space := false, alternate := true)), d.args[1..],
                                                 true)
  {
    hide NumberText, SignedArg, UnsignedArg;
    assert d.args == [Number(n)] + d.args[1..];
    ArgumentRead(n, d.args[1..], d.length);
    if d.length != LongLong {
      PointerArgument(n);
    }
  }

  lemma PointerArgument(n: int)
    requires -0x8000_0000 <= n <= 0x7fff_ffff
    ensures n % 0x1_0000_0000 == if n >= 0 then n else n + 0x1_0000_0000
  {
  }

  /** `u` is undone by `strtol`, up to the clamp. */
  lemma UnsignedRoundTrip(d: Directive)
    requires d.specifier == 'u'
    ensures var value := UnsignedArg(d.args, d.length);
            ParsedLong(FieldOf(d).text, 10).value == if value <= 0x7fff_ffff then value else 0x7fff_ffff
  {
    hide NumberText, ValueOf, LaidOut, ParsedLong, Prefix, DigitsShown, ShownRun, LeadOf, AllDigits, UnsignedArg;
    var value := UnsignedArg(d.args, d.length);
    var prefix, digits := Prefix(value, false, 10, false, d.style), DigitsShown(value, 10, false, d.style);
    var run := ShownRun(prefix, digits, d.style);
    FieldLaidOut(value, false, 10, false, d.style);
    ShownValue(prefix, value, 10, false, d.style);
    if run != "" {
      ReadsDecimal(NumberText(value, false, 10, false, d.style), LeadOf(prefix, digits, false, d.style),
                   SignOf(false, d.style), run);
    } else {
      ReadsNothing(NumberText(value, false, 10, false, d.style), LeadOf(prefix, digits, false, d.style),
                   SignOf(false, d.style), 10);
    }
  }

  /** A text in its field: spaces behind if left-justified, in front if not, up to the width. */
  lemma TextPadded(s: string, width: nat, left: bool)
    ensures var fill := Repeat(' ', Max(width - |s|, 0));
            Justified(s, width, left) == if left then s + fill else fill + s
  {
  }

  lemma {:induction false} LengthExact(s: string, limit: nat, length: nat)
    requires length <= |s| && length <= limit && '\0' !in s[..length]
    ensures var n := StringLength(s, limit, length);
            n <= limit && '\0' !in s[..n] && (n == limit || n == |s| || s[n] == '\0')
    decreases |s| - length
  {
    if length < limit && At(s, length) != '\0' {
      assert s[..length + 1] == s[..length] + [s[length]];
      LengthExact(s, limit, length + 1);
    }
  }

  /** `s` prints the text up to its first null character, and no more than the precision; a null pointer prints as
      "(null)". */
  lemma StringField(d: Directive)
    requires d.specifier == 's' && d.args != [] && !d.args[0].Number?
    ensures var s := if d.args[0].Text? then d.args[0].text else "(null)";
            var limit := if d.style.precision >= 0 then d.style.precision else 0xffff_ffff;
            exists n :: 0 <= n <= |s| && n <= limit && '\0' !in s[..n] && (n == limit || n == |s| || s[n] == '\0')
                        && FieldOf(d) == Field(Justified(s[..n], d.style.width, d.style.left), d.args[1..], true)
  {
    hide Justified;
    var s := TextOf(d.args);
    var limit := if d.style.precision >= 0 then d.style.precision else SIZE_MAX;
    LengthExact(s, limit, 0);
    var n := StringLength(s, limit, 0);
    assert FieldOf(d) == Field(Justified(s[..n], d.style.width, d.style.left), d.args[1..], true);
  }

  /** `c` prints the character of that code, modulo 256; `%` itself. Every other specifier is refused. */
  lemma OtherFields(d: Directive)
    ensures d.specifier == '%' ==> FieldOf(d) == Field("%", d.args, true)
    ensures d.specifier == 'c' && d.args != [] && d.args[0].Number? ==>
              FieldOf(d) == Field(Justified([(d.args[0].value % 256) as char], d.style.width, d.style.left),
                                  d.args[1..], true)
    ensures FieldOf(d).Unsupported? <==> d.specifier !in {'%', 'c', 's', 'd', 'i', 'u', 'x', 'X', 'p'}
  {
    hide Justified, NumberText;
  }
}
