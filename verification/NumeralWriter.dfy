/** Numerals written digit by digit, in every base, and read back by `strtol`. */
module NumeralWriter {
  import opened Printer
  import opened Parsers
  import opened PrintParse

  /** The digit `d`: the ten figures, then the letters of the alphabet in either case. */
  function DigitOf(d: nat, upper: bool): char
    requires d < 36
  {
    if d < 10 then (48 + d) as char else if upper then (65 + d - 10) as char else (97 + d - 10) as char
  }

  /** `n` in base `base`, most significant digit first, without leading zeroes. */
  function InBase(n: nat, base: nat, upper: bool): (r: string)
    requires 2 <= base <= 36
    ensures r != ""
  {
    Smaller(n, base);
    (if n < base then "" else InBase(n / base, base, upper)) + [DigitOf(n % base, upper)]
  }

  lemma Smaller(n: nat, base: nat)
    requires base >= 2
    ensures 0 <= n % base < base && n / base * base + n % base == n && n / base >= 0
    ensures n >= base ==> 0 < n / base < n
  {
    var q := n / base;
    assert n == q * base + n % base;
    assert q >= 1 ==> q * base >= q * 2;
    assert q == 0 ==> q * base == 0;
  }

  lemma DigitValueOf(d: nat, upper: bool)
    requires d < 36
    ensures DigitValue(DigitOf(d, upper)) == d
  {
  }

  lemma {:induction false} InBaseValue(n: nat, base: nat, upper: bool)
    requires 2 <= base <= 36
    ensures ValueOf(InBase(n, base, upper), base) == n && AllDigits(InBase(n, base, upper), base)
    decreases n
  {
    hide ValueOf, DigitOf, DigitValue;
    Smaller(n, base);
    var d := DigitOf(n % base, upper);
    DigitValueOf(n % base, upper);
    if n < base {
      assert n / base == 0 && n % base == n by { SmallQuotient(n, base); }
      assert InBase(n, base, upper) == "" + [d];
      ValueSnoc("", d, base);
    } else {
      InBaseValue(n / base, base, upper);
      ValueSnoc(InBase(n / base, base, upper), d, base);
    }
  }

  lemma SmallQuotient(n: nat, base: nat)
    requires n < base
    ensures n / base == 0 && n % base == n
  {
  }

  /** The white space of C: space, and the codes 9 to 13. */
  predicate IsBlank(c: char) { c as int == 32 || 9 <= c as int <= 13 }

  lemma BlankIsSpace(c: char)
    ensures IsBlank(c) <==> IsSpace(c)
  {
    assert ' ' as int == 32 && '\t' as int == 9 && '\n' as int == 10 && '\r' as int == 13;
    assert (0x0c as char) as int == 12 && (0x0b as char) as int == 11;
    if c as int == 32 { assert c == ' '; }
    if c as int == 9 { assert c == '\t'; }
    if c as int == 10 { assert c == '\n'; }
    if c as int == 11 { assert c == 0x0b as char; }
    if c as int == 12 { assert c == 0x0c as char; }
    if c as int == 13 { assert c == '\r'; }
  }

  /** The largest and the smallest `long`. */
  function Bounded(negative: bool, n: nat): int {
    if negative then (if n <= 0x8000_0000 then 0 - n else -0x8000_0000)
    else if n <= 0x7fff_ffff then n
    else 0x7fff_ffff
  }

  lemma BoundedIsClamp(negative: bool, n: nat)
    ensures Bounded(negative, n) == Clamp(negative, n)
  {
  }

  /** Blanks, a sign, a mark, digits, and whatever follows. */
  function Text(blanks: string, sign: string, mark: string, digits: string, rest: string): string {
    blanks + sign + mark + digits + rest
  }

  lemma TextAt(blanks: string, sign: string, mark: string, digits: string, rest: string)
    ensures var s := Text(blanks, sign, mark, digits, rest); var i := |blanks| + |sign| + |mark|;
            && (forall k :: 0 <= k < |blanks| ==> At(s, k) == blanks[k])
            && (sign != "" ==> At(s, |blanks|) == sign[0])
            && (forall k :: 0 <= k < |mark| ==> At(s, |blanks| + |sign| + k) == mark[k])
            && (forall k :: 0 <= k < |digits| ==> At(s, i + k) == digits[k])
            && At(s, i + |digits|) == At(rest, 0)
  {
  }

  /** Where the sign ends, before a digit. */
  lemma SignFound(blanks: string, sign: string, mark: string, digits: string, rest: string, first: char)
    requires (forall k :: 0 <= k < |blanks| ==> IsBlank(blanks[k])) && sign in {"", "+", "-"}
    requires DigitValue(first) >= 0 && if mark != "" then mark[0] == first else digits != "" && digits[0] == first
    ensures var s := Text(blanks, sign, mark, digits, rest);
            && SpacesEnd(s, 0) == |blanks| && SignEnd(s) == |blanks| + |sign|
            && (At(s, |blanks|) == '-' <==> sign == "-")
  {
    var s := Text(blanks, sign, mark, digits, rest);
    TextAt(blanks, sign, mark, digits, rest);
    hide Text, SpacesEnd;
    assert At(s, |blanks| + |sign|) == first by {
      assert mark != "" ==> At(s, |blanks| + |sign| + 0) == mark[0];
      assert mark == "" ==> At(s, |blanks| + |sign| + |mark| + 0) == digits[0];
    }
    forall k | 0 <= k < |blanks|
      ensures IsSpace(At(s, k))
    {
      BlankIsSpace(blanks[k]);
    }
    SpacesSkipped(s, 0, |blanks|);
  }

  /** What is read once it is known where the digits start and in which base. */
  lemma NumeralRead(s: string, base: int, negative: bool, digitBase: nat, start: nat, run: string)
    requires NumeralOf(s, base) == Numeral(negative, digitBase, start) && 2 <= digitBase <= 36
    requires run != "" && AllDigits(run, digitBase) && !IsDigit(At(s, start + |run|), digitBase)
    requires forall k :: 0 <= k < |run| ==> At(s, start + k) == run[k]
    ensures ParsedLong(s, base) == Parsed(Bounded(negative, ValueOf(run, digitBase)), start + |run|)
  {
    hide NumeralOf, ValueOf, Run, IsDigit;
    RunIs(s, start, run, digitBase);
    BoundedIsClamp(negative, ValueOf(run, digitBase));
  }

  /** No mark: the digits start behind the sign. */
  lemma PlainNumeral(s: string, base: nat, i: nat, negative: bool)
    requires SignEnd(s) == i && (At(s, SpacesEnd(s, 0)) == '-' <==> negative)
    requires base in {0, 16} ==> At(s, i) != '0' || (At(s, i + 1) != 'x' && At(s, i + 1) != 'X')
    ensures NumeralOf(s, base) == Numeral(negative, if base != 0 then base else if At(s, i) == '0' then 8 else 10, i)
  {
    hide SignEnd, SpacesEnd, DigitValue;
  }

  /** A mark before a digit. */
  lemma MarkedNumeral(s: string, base: nat, i: nat, negative: bool)
    requires SignEnd(s) == i && (At(s, SpacesEnd(s, 0)) == '-' <==> negative) && base in {0, 16}
    requires At(s, i) == '0' && At(s, i + 1) in {'x', 'X'} && IsDigit(At(s, i + 2), 16)
    ensures NumeralOf(s, base) == Numeral(negative, 16, i + 2)
  {
    hide SignEnd, SpacesEnd;
  }

  /** In base 2 to 36: the value, clamped to `long`, and the end of the digits. */
  lemma ReadsBase(blanks: string, sign: string, n: nat, base: nat, upper: bool, rest: string)
    requires 2 <= base <= 36 && (forall k :: 0 <= k < |blanks| ==> IsBlank(blanks[k])) && sign in {"", "+", "-"}
    requires !IsDigit(At(rest, 0), base) && (base == 16 && n == 0 ==> At(rest, 0) != 'x' && At(rest, 0) != 'X')
    ensures var digits := InBase(n, base, upper);
            ParsedLong(Text(blanks, sign, "", digits, rest), base) ==
            Parsed(Bounded(sign == "-", n), |blanks| + |sign| + |digits|)
  {
    hide *;
    var digits, i := InBase(n, base, upper), |blanks| + |sign|;
    var s := Text(blanks, sign, "", digits, rest);
    InBaseValue(n, base, upper);
    NotMarked(n, base, upper);
    DigitsStart(digits, base);
    SignFound(blanks, sign, "", digits, rest, digits[0]);
    PlainAt(blanks, sign, digits, rest);
    if base == 16 {
      SecondIsNoMark(s, i, digits, rest);
    }
    PlainNumeral(s, base, i, sign == "-");
    NumeralRead(s, base, sign == "-", base, i, digits);
  }

  lemma DigitsStart(digits: string, base: nat)
    requires digits != "" && AllDigits(digits, base)
    ensures DigitValue(digits[0]) >= 0 && IsDigit(digits[0], base)
    ensures base == 16 ==> forall k :: 0 <= k < |digits| ==> digits[k] != 'x' && digits[k] != 'X'
  {
    hide DigitValue;
    assert IsDigit(digits[0], base);
    if base == 16 {
      XIsNoDigit();
      assert forall k :: 0 <= k < |digits| ==> IsDigit(digits[k], 16);
    }
  }

  lemma ZeroDigit()
    ensures DigitValue('0') == 0
  {
  }

  lemma XIsNoDigit()
    ensures !IsDigit('x', 16) && !IsDigit('X', 16)
  {
  }

  lemma SecondIsNoMark(s: string, i: nat, digits: string, rest: string)
    requires digits != "" && At(s, i + |digits|) == At(rest, 0) && forall k :: 0 <= k < |digits| ==>
               At(s, i + k) == digits[k]
    requires forall k :: 0 <= k < |digits| ==> digits[k] != 'x' && digits[k] != 'X'
    requires digits[0] == '0' ==> |digits| == 1 && At(rest, 0) != 'x' && At(rest, 0) != 'X'
    ensures At(s, i) != '0' || (At(s, i + 1) != 'x' && At(s, i + 1) != 'X')
  {
    assert At(s, i + 0) == digits[0];
  }

  lemma PlainAt(blanks: string, sign: string, digits: string, rest: string)
    ensures var s, i := Text(blanks, sign, "", digits, rest), |blanks| + |sign|;
            At(s, i + |digits|) == At(rest, 0) && forall k :: 0 <= k < |digits| ==> At(s, i + k) == digits[k]
  {
    TextAt(blanks, sign, "", digits, rest);
    hide Text;
    var s, i := Text(blanks, sign, "", digits, rest), |blanks| + |sign|;
    assert forall k :: 0 <= k < |digits| ==> At(s, i + |""| + k) == digits[k];
  }

  lemma MarkedAt(blanks: string, sign: string, mark: string, digits: string, rest: string)
    ensures var s, i := Text(blanks, sign, mark, digits, rest), |blanks| + |sign|;
            && At(s, i + |mark| + |digits|) == At(rest, 0)
            && (forall k :: 0 <= k < |mark + digits| ==> At(s, i + k) == (mark + digits)[k])
            && forall k :: 0 <= k < |digits| ==> At(s, i + |mark| + k) == digits[k]
  {
    TextAt(blanks, sign, mark, digits, rest);
    hide Text;
    var s, i, both := Text(blanks, sign, mark, digits, rest), |blanks| + |sign|, mark + digits;
    forall k | 0 <= k < |both|
      ensures At(s, i + k) == both[k]
    {
      if k >= |mark| {
        assert At(s, i + |mark| + (k - |mark|)) == digits[k - |mark|];
      }
    }
  }

  /** A numeral without leading zeroes is no hexadecimal mark. */
  lemma NotMarked(n: nat, base: nat, upper: bool)
    requires 2 <= base <= 36
    ensures base == 16 && InBase(n, base, upper)[0] == '0' ==> n == 0 && |InBase(n, base, upper)| == 1
  {
    if base == 16 {
      LeadingDigit(n, upper);
    }
  }

  lemma {:induction false} LeadingDigit(n: nat, upper: bool)
    ensures InBase(n, 16, upper)[0] == '0' ==> n == 0 && |InBase(n, 16, upper)| == 1
  {
    if n >= 16 {
      LeadingDigit(n / 16, upper);
      assert InBase(n, 16, upper)[0] == InBase(n / 16, 16, upper)[0];
    } else {
      assert InBase(n, 16, upper) == [DigitOf(n, upper)];
    }
  }

  /** In base 0 a numeral starting with a figure other than zero is decimal. */
  lemma ReadsDecimalInBaseZero(blanks: string, sign: string, n: nat, rest: string)
    requires 0 < n && (forall k :: 0 <= k < |blanks| ==> IsBlank(blanks[k])) && sign in {"", "+", "-"}
    requires !IsDigit(At(rest, 0), 10)
    ensures var digits := InBase(n, 10, false);
            ParsedLong(Text(blanks, sign, "", digits, rest), 0) ==
            Parsed(Bounded(sign == "-", n), |blanks| + |sign| + |digits|)
  {
    var digits, i := InBase(n, 10, false), |blanks| + |sign|;
    var s := Text(blanks, sign, "", digits, rest);
    InBaseValue(n, 10, false);
    DigitsStart(digits, 10);
    SignFound(blanks, sign, "", digits, rest, digits[0]);
    PlainAt(blanks, sign, digits, rest);
    LeadingFigure(n);
    hide *;
    assert At(s, i + 0) == digits[0];
    PlainNumeral(s, 0, i, sign == "-");
    NumeralRead(s, 0, sign == "-", 10, i, digits);
  }

  lemma {:induction false} LeadingFigure(n: nat)
    requires n > 0
    ensures InBase(n, 10, false)[0] != '0'
  {
    if n >= 10 {
      LeadingFigure(n / 10);
      assert InBase(n, 10, false)[0] == InBase(n / 10, 10, false)[0];
    } else {
      assert InBase(n, 10, false) == [DigitOf(n, false)];
    }
  }

  /** In base 0 and in base 16 a numeral marked `0x` or `0X` is hexadecimal. */
  lemma ReadsMarked(blanks: string, sign: string, mark: string, n: nat, base: nat, upper: bool, rest: string)
    requires base in {0, 16} && mark in {"0x", "0X"}
    requires (forall k :: 0 <= k < |blanks| ==> IsBlank(blanks[k])) && sign in {"", "+", "-"}
             && !IsDigit(At(rest, 0), 16)
    ensures var digits := InBase(n, 16, upper);
            ParsedLong(Text(blanks, sign, mark, digits, rest), base) ==
            Parsed(Bounded(sign == "-", n), |blanks| + |sign| + 2 + |digits|)
  {
    hide *;
    var digits, i := InBase(n, 16, upper), |blanks| + |sign|;
    var s := Text(blanks, sign, mark, digits, rest);
    InBaseValue(n, 16, upper);
    DigitsStart(digits, 16);
    ZeroDigit();
    assert mark[0] == '0' && |mark| == 2 && mark[1] in {'x', 'X'};
    SignFound(blanks, sign, mark, digits, rest, '0');
    MarkedAt(blanks, sign, mark, digits, rest);
    var both := mark + digits;
    assert both[0] == mark[0] && both[1] == mark[1] && both[2] == digits[0];
    assert At(s, i + 0) == both[0] && At(s, i + 1) == both[1] && At(s, i + 2) == both[2];
    MarkedNumeral(s, base, i, sign == "-");
    NumeralRead(s, base, sign == "-", 16, i + 2, digits);
  }

  /** In base 0 a numeral with a zero in front is octal. */
  lemma ReadsOctal(blanks: string, sign: string, n: nat, rest: string)
    requires (forall k :: 0 <= k < |blanks| ==> IsBlank(blanks[k])) && sign in {"", "+", "-"}
             && !IsDigit(At(rest, 0), 8)
    ensures var digits := InBase(n, 8, false);
            ParsedLong(Text(blanks, sign, "0", digits, rest), 0) ==
            Parsed(Bounded(sign == "-", n), |blanks| + |sign| + 1 + |digits|)
  {
    var digits, i := InBase(n, 8, false), |blanks| + |sign|;
    var s, run := Text(blanks, sign, "0", digits, rest), "0" + digits;
    InBaseValue(n, 8, false);
    assert DigitValue('0') == 0;
    SignFound(blanks, sign, "0", digits, rest, '0');
    MarkedAt(blanks, sign, "0", digits, rest);
    ZeroInFront(digits, 8);
    OctalIsNoMark(digits);
    hide *;
    assert |run| == 1 + |digits| && run[0] == '0' && run[1] == digits[0];
    assert At(s, i + 0) == run[0] && At(s, i + 1) == run[1];
    PlainNumeral(s, 0, i, sign == "-");
    NumeralRead(s, 0, sign == "-", 8, i, run);
  }

  lemma OctalIsNoMark(digits: string)
    requires digits != "" && AllDigits(digits, 8)
    ensures digits[0] != 'x' && digits[0] != 'X'
  {
    assert IsDigit(digits[0], 8);
    assert !IsDigit('x', 8) && !IsDigit('X', 8);
  }

  lemma ZeroInFront(digits: string, base: nat)
    requires AllDigits(digits, base) && base > 0
    ensures AllDigits("0" + digits, base) && ValueOf("0" + digits, base) == ValueOf(digits, base)
  {
    LeadingZeroes(1, digits, base);
    assert Repeat('0', 1) == "0";
    assert DigitValue('0') == 0;
  }
}
