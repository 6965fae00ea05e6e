/** Printer and parser undo each other, and what the bounded formatter promises about whole formats. */
module PrintParse {
  import opened Printer
  import opened Formatter
  import opened Parsers

  // ----- values of printed digits -----

  lemma DigitCharValue(d: nat, uppercase: bool)
    requires d < 16
    ensures DigitValue(DigitChar(d, uppercase)) == d
  {
    var lower, upper := "0123456789abcdef", "0123456789ABCDEF";
    if uppercase {
      assert d < 10 ==> upper[d] == '0' + d as char;
      assert d >= 10 ==> upper[d] == 'A' + (d - 10) as char;
    } else {
      assert d < 10 ==> lower[d] == '0' + d as char;
      assert d >= 10 ==> lower[d] == 'a' + (d - 10) as char;
    }
  }

  lemma QuotRem(value: nat, base: nat)
    requires base in {10, 16}
    ensures Quot(value, base) * base + Rem(value, base) == value
  {
  }

  /** The printed digits of a number have its value. */
  lemma {:induction false} DigitsValue(value: nat, base: nat, uppercase: bool)
    requires base in {10, 16}
    ensures ValueOf(Digits(value, base, uppercase), base) == value
    ensures AllDigits(Digits(value, base, uppercase), base) && Digits(value, base, uppercase) != ""
  {
    hide ValueOf, Quot, Rem, DigitChar, DigitValue;
    var q, d := Quot(value, base), DigitChar(Rem(value, base), uppercase);
    DigitCharValue(Rem(value, base), uppercase);
    QuotRem(value, base);
    if q == 0 {
      assert Digits(value, base, uppercase) == "" + [d];
      ValueSnoc("", d, base);
    } else {
      DigitsValue(q, base, uppercase);
      ValueSnoc(Digits(q, base, uppercase), d, base);
    }
  }

  lemma ValueSnoc(front: string, d: char, base: nat)
    requires DigitValue(d) >= 0
    ensures ValueOf(front + [d], base) == ValueOf(front, base) * base + DigitValue(d)
    ensures ValueOf("", base) == 0
  {
    assert (front + [d])[..|front|] == front;
  }

  /** Leading zeroes do not change a value. */
  lemma {:induction false} LeadingZeroes(n: nat, digits: string, base: nat)
    ensures ValueOf(Repeat('0', n) + digits, base) == ValueOf(digits, base)
  {
    var all := Repeat('0', n) + digits;
    if digits != "" {
      var front := digits[..|digits| - 1];
      LeadingZeroes(n, front, base);
      assert all[..|all| - 1] == Repeat('0', n) + front;
      assert all[|all| - 1] == digits[|digits| - 1];
    } else if n > 0 {
      LeadingZeroes(n - 1, "", base);
      assert all == Repeat('0', n) && all[..n - 1] == Repeat('0', n - 1) + "";
    } else {
      assert all == "";
    }
  }

  // ----- reading a numeral back -----

  lemma {:induction false} SpacesSkipped(s: string, i: nat, k: nat)
    requires i <= k && (forall j :: i <= j < k ==> IsSpace(At(s, j))) && !IsSpace(At(s, k))
    ensures SpacesEnd(s, i) == k
    decreases k - i
  {
    if i < k {
      SpacesSkipped(s, i + 1, k);
    }
  }

  /** Text laid out as spaces, a sign, a base mark, digits and something that is no digit. */
  ghost predicate LaidOut(s: string, lead: nat, sign: string, mark: string, run: string) {
    && |s| >= lead + |sign| + |mark| + |run|
    && (forall j :: 0 <= j < lead ==> s[j] == ' ')
    && (forall j :: 0 <= j < |sign| ==> s[lead + j] == sign[j])
    && (forall j :: 0 <= j < |mark| ==> s[lead + |sign| + j] == mark[j])
    && (forall j :: 0 <= j < |run| ==> s[lead + |sign| + |mark| + j] == run[j])
    && (forall j :: lead + |sign| + |mark| + |run| <= j < |s| ==> s[j] == ' ')
  }

  lemma LaidOutSign(s: string, lead: nat, sign: string, mark: string, run: string)
    requires LaidOut(s, lead, sign, mark, run) && sign in {"", "-", "+"} && mark in {"", "0x", "0X"}
    requires AllDigits(run, 16) && run != ""
    ensures SpacesEnd(s, 0) == lead && SignEnd(s) == lead + |sign|
    ensures At(s, lead) == '-' <==> sign == "-"
  {
    assert mark == "" ==> s[lead + |sign| + |mark| + 0] == run[0];
    assert mark != "" ==> s[lead + |sign| + 0] == mark[0] == '0';
    assert sign != "" ==> s[lead + 0] == sign[0];
    assert IsDigit(run[0], 16);
    SpacesSkipped(s, 0, lead);
  }

  lemma LaidOutRun(s: string, lead: nat, sign: string, mark: string, run: string, base: int)
    requires LaidOut(s, lead, sign, mark, run) && AllDigits(run, base)
    ensures Run(s, lead + |sign| + |mark|, base) == run
  {
    var i := lead + |sign| + |mark|;
    forall k | 0 <= k < |run|
      ensures At(s, i + k) == run[k]
    {
      assert s[lead + |sign| + |mark| + k] == run[k];
    }
    RunIs(s, i, run, base);
  }

  lemma DecimalDigitsAreHex(run: string)
    requires AllDigits(run, 10)
    ensures AllDigits(run, 16)
  {
    forall k | 0 <= k < |run|
      ensures IsDigit(run[k], 16)
    {
      assert IsDigit(run[k], 10);
    }
  }

  lemma ReadsDecimal(s: string, lead: nat, sign: string, run: string)
    requires LaidOut(s, lead, sign, "", run) && sign in {"", "-", "+"} && AllDigits(run, 10) && run != ""
    ensures ParsedLong(s, 10) == Parsed(Clamp(sign == "-", ValueOf(run, 10)), lead + |sign| + |run|)
  {
    hide ValueOf, Run, SpacesEnd;
    DecimalDigitsAreHex(run);
    LaidOutSign(s, lead, sign, "", run);
    LaidOutRun(s, lead, sign, "", run, 10);
  }

  lemma ReadsHex(s: string, lead: nat, sign: string, mark: string, run: string, base: int)
    requires LaidOut(s, lead, sign, mark, run) && sign in {"", "+"} && mark in {"0x", "0X"} && AllDigits(run, 16)
             && run != ""
    requires base in {0, 16}
    ensures ParsedLong(s, base) == Parsed(Clamp(false, ValueOf(run, 16)), lead + |sign| + 2 + |run|)
  {
    hide ValueOf, Run, SpacesEnd;
    LaidOutSign(s, lead, sign, mark, run);
    LaidOutRun(s, lead, sign, mark, run, 16);
    var i := lead + |sign|;
    assert s[lead + |sign| + 0] == mark[0] && s[lead + |sign| + 1] == mark[1];
    assert s[lead + |sign| + |mark| + 0] == run[0] && IsDigit(run[0], 16);
  }

  // ----- the layout of a printed field -----

  /** The sign read from a printed field: a space in its place joins the spaces before. */
  function SignOf(negative: bool, style: Style): string {
    if negative then "-" else if style.plus then "+" else ""
  }

  function LeadOf(prefix: string, digits: string, negative: bool, style: Style): nat {
    LayoutOf(|prefix|, |digits|, style).lead + if !negative && !style.plus && style.space then 1 else 0
  }

  /** Zeroes and digits of a printed field. */
  function ShownRun(prefix: string, digits: string, style: Style): string {
    Repeat('0', LayoutOf(|prefix|, |digits|, style).inner + LayoutOf(|prefix|, |digits|, style).zeroes) + digits
  }

  function MarkOf(value: nat, base: nat, uppercase: bool, style: Style): string {
    if style.alternate && base == 16 && value != 0 then (if uppercase then "0X" else "0x") else ""
  }

  lemma FieldLaidOut(value: nat, negative: bool, base: nat, uppercase: bool, style: Style)
    requires base in {10, 16}
    ensures var prefix, digits := Prefix(value, negative, base, uppercase, style),
            DigitsShown(value, base, uppercase, style);
            LaidOut(NumberText(value, negative, base, uppercase, style), LeadOf(prefix, digits, negative, style),
                    SignOf(negative, style), MarkOf(value, base, uppercase, style), ShownRun(prefix, digits, style))
  {
    hide Digits, FieldText, LaidOut, DigitsShown, LayoutOf, Repeat;
    var space := if !negative && !style.plus && style.space then " " else "";
    PrefixParts(value, negative, base, uppercase, style);
    FieldTextLaidOut(space, SignOf(negative, style), MarkOf(value, base, uppercase, style),
                     DigitsShown(value, base, uppercase, style), style);
  }

  lemma PrefixParts(value: nat, negative: bool, base: nat, uppercase: bool, style: Style)
    requires base in {10, 16}
    ensures Prefix(value, negative, base, uppercase, style) ==
            (if !negative && !style.plus && style.space then " " else "") + SignOf(negative, style) +
                MarkOf(value, base, uppercase, style)
  {
  }

  lemma FieldTextLaidOut(space: string, sign: string, mark: string, digits: string, style: Style)
    requires space in {"", " "}
    ensures var layout := LayoutOf(|space + sign + mark|, |digits|, style);
            LaidOut(FieldText(space + sign + mark, digits, style), layout.lead + |space|, sign, mark,
                    Repeat('0', layout.inner + layout.zeroes) + digits)
  {
    hide LayoutOf, LaidOut;
    var layout := LayoutOf(|space + sign + mark|, |digits|, style);
    var run := Repeat('0', layout.inner + layout.zeroes) + digits;
    RegroupField(space, sign, mark, digits, layout.lead, layout.inner, layout.zeroes, Repeat(' ', layout.tail));
    PiecesLaidOut(layout.lead + |space|, sign, mark, run, layout.tail);
  }

  lemma RegroupField(space: string, sign: string, mark: string, digits: string, lead: nat, inner: nat, zeroes: nat,
                     tail: string)
    requires space in {"", " "}
    ensures Repeat(' ', lead) + (space + sign + mark) + Repeat('0', inner) + Repeat('0', zeroes) + digits + tail
         == Repeat(' ', lead + |space|) + sign + mark + (Repeat('0', inner + zeroes) + digits) + tail
  {
    assert Repeat(' ', lead + |space|) == Repeat(' ', lead) + space;
    assert Repeat('0', inner + zeroes) == Repeat('0', inner) + Repeat('0', zeroes);
    hide Repeat;
    RegroupSix(Repeat(' ', lead), space, sign, mark, Repeat('0', inner), Repeat('0', zeroes), digits);
  }

  lemma RegroupSix(a: string, b: string, c: string, d: string, e: string, f: string, g: string)
    ensures a + (b + c + d) + e + f + g == a + b + c + d + (e + f + g)
  {
  }

  lemma PiecesLaidOut(lead: nat, sign: string, mark: string, run: string, tail: nat)
    ensures LaidOut(Repeat(' ', lead) + sign + mark + run + Repeat(' ', tail), lead, sign, mark, run)
  {
    var s := Repeat(' ', lead) + sign + mark + run + Repeat(' ', tail);
    assert forall j :: 0 <= j < lead ==> s[j] == Repeat(' ', lead)[j];
  }

  // ----- round trips -----

  lemma ShownValue(prefix: string, value: nat, base: nat, uppercase: bool, style: Style)
    requires base in {10, 16}
    ensures ValueOf(ShownRun(prefix, DigitsShown(value, base, uppercase, style), style), base) == value
    ensures AllDigits(ShownRun(prefix, DigitsShown(value, base, uppercase, style), style), base)
    ensures !(value == 0 && style.precision == 0) ==>
              ShownRun(prefix, DigitsShown(value, base, uppercase, style), style) != ""
  {
    hide Digits, ValueOf, LayoutOf;
    var digits := DigitsShown(value, base, uppercase, style);
    DigitsValue(value, base, uppercase);
    ValueSnoc("", '0', base);
    var layout := LayoutOf(|prefix|, |digits|, style);
    LeadingZeroes(layout.inner + layout.zeroes, digits, base);
    assert IsDigit('0', base);
  }

  /** `strtol` in base 10 undoes `%ld` under every combination of flags, width and precision. */
  lemma SignedRoundTrip(d: Directive)
    requires d.specifier in {'d', 'i'} && d.length != LongLong
    ensures ParsedLong(FieldOf(d).text, 10).value == SignedArg(d.args, d.length)
  {
    hide NumberText, ValueOf, LaidOut, ParsedLong, Prefix, DigitsShown, ShownRun, LeadOf, AllDigits;
    var value: int := SignedArg(d.args, d.length);
    var style := d.style.(alternate := false);
    var magnitude := Magnitude(value);
    var prefix, digits := Prefix(magnitude, value < 0, 10, false, style), DigitsShown(magnitude, 10, false, style);
    var run := ShownRun(prefix, digits, style);
    FieldLaidOut(magnitude, value < 0, 10, false, style);
    ShownValue(prefix, magnitude, 10, false, style);
    if run != "" {
      ReadsDecimal(NumberText(magnitude, value < 0, 10, false, style), LeadOf(prefix, digits, value < 0, style),
                   SignOf(value < 0, style), run);
    } else {
      ReadsNothing(NumberText(magnitude, value < 0, 10, false, style), LeadOf(prefix, digits, value < 0, style),
                   SignOf(value < 0, style), 10);
    }
  }

  /** A field without digits reads as zero. */
  lemma ReadsNothing(s: string, lead: nat, sign: string, base: int)
    requires LaidOut(s, lead, sign, "", "") && sign in {"", "-", "+"} && base in {0, 10, 16}
    ensures ParsedLong(s, base).value == 0
  {
    var k := if sign == "" then |s| else lead;
    assert sign != "" ==> s[lead + 0] == sign[0];
    SpacesSkipped(s, 0, k);
    assert SignEnd(s) == if sign == "" then |s| else lead + 1;
    assert At(s, SignEnd(s)) in {' ', '\0'};
  }

  /** `strtol` undoes `%#lx` and `%#lX` in base 0 and in base 16, for every value a `long` can hold. */
  lemma HexRoundTrip(d: Directive, base: int)
    requires d.specifier in {'x', 'X'} && d.length != LongLong && d.style.alternate && base in {0, 16}
    requires UnsignedArg(d.args, d.length) <= LONG_MAX
    ensures ParsedLong(FieldOf(d).text, base).value == UnsignedArg(d.args, d.length)
  {
    hide NumberText, ValueOf, LaidOut, ParsedLong, Prefix, DigitsShown, ShownRun, LeadOf, AllDigits;
    var value := UnsignedArg(d.args, d.length);
    var uppercase := d.specifier == 'X';
    var prefix, digits := Prefix(value, false, 16, uppercase, d.style), DigitsShown(value, 16, uppercase, d.style);
    var run, lead, sign := ShownRun(prefix, digits, d.style), LeadOf(prefix, digits, false, d.style),
        SignOf(false, d.style);
    var s := NumberText(value, false, 16, uppercase, d.style);
    FieldLaidOut(value, false, 16, uppercase, d.style);
    ShownValue(prefix, value, 16, uppercase, d.style);
    if value != 0 {
      ReadsHex(s, lead, sign, MarkOf(value, 16, uppercase, d.style), run, base);
    } else if run == "" {
      ReadsNothing(s, lead, sign, base);
    } else {
      ZeroRun(prefix, uppercase, d.style);
      ReadsZeroes(s, lead, sign, run, base);
    }
  }

  lemma ZeroRun(prefix: string, uppercase: bool, style: Style)
    ensures forall k :: 0 <= k < |ShownRun(prefix, DigitsShown(0, 16, uppercase, style), style)| ==>
              ShownRun(prefix, DigitsShown(0, 16, uppercase, style), style)[k] == '0'
  {
    hide LayoutOf;
    assert Digits(0, 16, uppercase) == "0" by {
      assert DigitChar(0, uppercase) == '0';
    }
  }

  /** Zero is printed without a mark and read as an octal, decimal or hexadecimal zero. */
  lemma ReadsZeroes(s: string, lead: nat, sign: string, run: string, base: int)
    requires LaidOut(s, lead, sign, "", run) && sign in {"", "+"} && run != "" && base in {0, 16}
    requires forall k :: 0 <= k < |run| ==> run[k] == '0'
    ensures ParsedLong(s, base).value == 0
  {
    hide ValueOf, Run, SpacesEnd;
    LaidOutSign(s, lead, sign, "", run);
    var i := lead + |sign|;
    assert s[lead + |sign| + 0 + 0] == run[0];
    assert |run| > 1 ==> s[lead + |sign| + 0 + 1] == run[1];
    assert At(s, i + 1) in {'0', ' ', '\0'};
    assert NumeralOf(s, base) == Numeral(false, if base == 0 then 8 else 16, i);
    LaidOutRun(s, lead, sign, "", run, NumeralOf(s, base).base);
    ZeroesValue(run, NumeralOf(s, base).base);
  }

  lemma {:induction false} ZeroesValue(run: string, base: nat)
    requires forall k :: 0 <= k < |run| ==> run[k] == '0'
    ensures ValueOf(run, base) == 0
  {
    if run != "" {
      ZeroesValue(run[..|run| - 1], base);
    }
  }

  // ----- whole formats -----

  /** A bounded buffer holds the front of what an unbounded one holds, a terminator, and nothing beyond. */
  lemma BoundedIsTruncated(text: string, small: nat, large: nat, before: string, wide: string)
    requires 0 < small <= |before| && |text| < large <= |wide| && small < SIZE_MODULUS && large < SIZE_MODULUS
    ensures var n := if |text| < small - 1 then |text| else small - 1;
            var bounded, unbounded := Finished(text, small, before), Finished(text, large, wide);
            && unbounded[..|text| + 1] == text + ['\0']
            && |bounded| == |before| && bounded[..n] == unbounded[..n] && bounded[n] == '\0'
               && bounded[n + 1..] == before[n + 1..]
  {
    hide Finished;
    FinishedShort(text, small, before);
    FinishedShort(text, large, wide);
    assert Kept(|text|, large) == |text|;
  }

  /** The returned length is exact up to `INT_MAX`; it is neither exact nor an error exactly when the
      32-bit count has wrapped round to at most `INT_MAX`. */
  lemma ReturnedExactly(n: nat)
    ensures Returned(n) == n <==> n <= 0x7fff_ffff
    ensures Returned(n) == -1 || Returned(n) == n <==> n < 0x1_0000_0000 || n % 0x1_0000_0000 > 0x7fff_ffff
  {
    assert n % SIZE_MODULUS <= n;
  }

  lemma StarDirective(format: string, i: nat, width: nat, rest: seq<Arg>)
    requires At(format, i) == '*' && At(format, i + 1) == 'd' && width <= INT_MAX
    ensures DirectiveAt(format, i, [Number(width)] + rest) ==
            Directive(NO_STYLE.(width := width), Plain, 'd', i + 2, rest, true)
  {
    assert SignedArg([Number(width)] + rest, Plain) == width;
    assert Formatter.Rest([Number(width)] + rest) == rest;
  }

  lemma StarField(format: string, i: nat, width: nat, rest: seq<Arg>)
    requires At(format, i) == '%' && At(format, i + 1) == '*' && At(format, i + 2) == 'd' && 0 < width <= INT_MAX
    ensures var all, after := Formatted(format, i, [Number(width), Number(0)] + rest), Formatted(format, i + 3, rest);
            && |all.text| == width + |after.text| && all.ok == after.ok
            && (width > 1 ==> all.text[0] == ' ')
    ensures Supported(format, i, [Number(width), Number(0)] + rest) == Supported(format, i + 3, rest)
  {
    hide NumberText, DirectiveAt, FieldOf;
    assert [Number(width), Number(0)] + rest == [Number(width)] + ([Number(0)] + rest);
    StarDirective(format, i + 1, width, [Number(0)] + rest);
    StarText(i + 3, width, rest);
  }

  lemma StarText(next: nat, width: nat, rest: seq<Arg>)
    requires 0 < width <= INT_MAX
    ensures var field := FieldOf(Directive(NO_STYLE.(width := width), Plain, 'd', next, [Number(0)] + rest, true));
            && field.Field? && |field.text| == width && field.args == rest && field.defined
            && (width > 1 ==> field.text[0] == ' ')
  {
    hide NumberText;
    assert ([Number(0)] + rest)[1..] == rest;
    assert SignedArg([Number(0)] + rest, Plain) == 0;
    PaddedZero(width);
    var style := NO_STYLE.(width := width);
    assert style.(alternate := false) == style;
  }

  /** A zero fills its field, and starts with a space if the field has more than one character. */
  lemma PaddedZero(width: nat)
    requires 0 < width
    ensures var text := NumberText(0, false, 10, false, NO_STYLE.(width := width));
            |text| == width && (width > 1 ==> text[0] == ' ')
  {
    var style := NO_STYLE.(width := width);
    assert Digits(0, 10, false) == "0" && Prefix(0, false, 10, false, style) == "";
    FieldLength(0, false, 10, false, style);
    hide Digits, Prefix;
    var lead := Repeat(' ', if width > 1 then width - 1 else 0);
    assert NumberText(0, false, 10, false, style) == lead + "" + Repeat('0', 0) + Repeat('0', 0) + "0" + Repeat(' ', 0);
  }

  const WRAPPING: string := "%*d%*d%*d"

  const WRAPPING_ARGUMENTS: seq<Arg> := [Number(INT_MAX), Number(0), Number(INT_MAX), Number(0), Number(2), Number(0)]

  /** Three defined directives whose fields have 2^32 characters together: the returned length is 0. */
  lemma WrappedCount()
    ensures var printed := Formatted(WRAPPING, 0, WRAPPING_ARGUMENTS);
            && Supported(WRAPPING, 0, WRAPPING_ARGUMENTS) && printed.ok
            && |printed.text| == SIZE_MODULUS && printed.text[0] == ' ' && Returned(|printed.text|) == 0
  {
    hide DirectiveAt, FieldOf;
    var last := [Number(2), Number(0)] + [];
    var two := [Number(INT_MAX), Number(0)] + last;
    StarField(WRAPPING, 0, INT_MAX, two);
    StarField(WRAPPING, 3, INT_MAX, last);
    StarField(WRAPPING, 6, 2, []);
    assert Formatted(WRAPPING, 9, []) == Printed("", true);
    assert [Number(INT_MAX), Number(0)] + two == WRAPPING_ARGUMENTS;
  }

  /** In a buffer with room for a character, that text leaves the empty string instead of its front. */
  lemma WrappedBuffer(size: nat, before: string)
    requires 1 < size <= |before| && size < SIZE_MODULUS
    ensures var text := Formatted(WRAPPING, 0, WRAPPING_ARGUMENTS).text;
            && Finished(text, size, before)[0] == '\0' && Terminated(text, size, before)[0] == ' '
  {
    hide Formatted;
    WrappedCount();
  }

  /** The format that prints `s`: every `%` is doubled. */
  function Escape(s: string): string {
    if s == "" then "" else (if s[0] == '%' then "%%" else [s[0]]) + Escape(s[1..])
  }

  /** An escaped text is printed as it is, whatever the arguments. */
  lemma {:induction false} EscapedPrints(before: string, s: string, args: seq<Arg>)
    requires '\0' !in s
    ensures Formatted(before + Escape(s), |before|, args) == Printed(s, true)
    decreases |s|
  {
    hide DirectiveAt, FieldOf;
    var format := before + Escape(s);
    if s != "" {
      var head := if s[0] == '%' then "%%" else [s[0]];
      EscapedPrints(before + head, s[1..], args);
      assert before + head + Escape(s[1..]) == format;
      assert At(format, |before|) == s[0];
      if s[0] == '%' {
        PercentSign(format, |before|, args);
      }
      assert s == [s[0]] + s[1..];
    }
  }

  lemma PercentSign(format: string, i: nat, args: seq<Arg>)
    requires At(format, i + 1) == '%'
    ensures DirectiveAt(format, i + 1, args).next == i + 2
    ensures FieldOf(DirectiveAt(format, i + 1, args)) == Field("%", args, true)
  {
  }
}
