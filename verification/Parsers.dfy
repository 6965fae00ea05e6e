/** The saturating parsers of `freestanding_hisi.c`. `long` and `unsigned int` have 32 bits. */
module Parsers {
  import opened Printer

  const LONG_MAX: nat := 0x7fff_ffff
  const UINT_MAX: nat := 0xffff_ffff

  function DigitValue(c: char): int {
    if '0' <= c <= '9' then (c - '0') as int
    else if 'a' <= c <= 'z' then (c - 'a') as int + 10
    else if 'A' <= c <= 'Z' then (c - 'A') as int + 10
    else -1
  }

  predicate IsSpace(c: char) { c in {' ', '\t', '\n', '\r', 0x0c as char, 0x0b as char} }

  predicate IsDigit(c: char, base: int) { 0 <= DigitValue(c) < base }

  // ----- what a numeral is -----

  function SpacesEnd(s: string, i: nat): (r: nat)
    ensures i <= r
    decreases |s| - i
  {
    if IsSpace(At(s, i)) then SpacesEnd(s, i + 1) else i
  }

  /** The maximal run of digits from `i` on. */
  function Run(s: string, i: nat, base: int): string
    decreases |s| - i
  {
    if IsDigit(At(s, i), base) then [At(s, i)] + Run(s, i + 1, base) else ""
  }

  ghost predicate AllDigits(run: string, base: int) {
    forall k :: 0 <= k < |run| ==> IsDigit(run[k], base)
  }

  /** The exact value of a digit run. */
  function ValueOf(run: string, base: nat): nat {
    if run == "" then 0
    else
      var digit := DigitValue(run[|run| - 1]);
      ValueOf(run[..|run| - 1], base) * base + if digit < 0 then 0 else digit
  }

  /** Sign, base and first digit of a numeral. */
  datatype Numeral = Numeral(negative: bool, base: int, start: nat)

  predicate HexMark(s: string, i: nat) {
    At(s, i) == '0' && At(s, i + 1) in {'x', 'X'}
  }

  function SignEnd(s: string): nat {
    var i := SpacesEnd(s, 0);
    if At(s, i) in {'-', '+'} then i + 1 else i
  }

  function NumeralOf(s: string, base: int): Numeral {
    var i := SignEnd(s);
    var negative := At(s, SpacesEnd(s, 0)) == '-';
    if base in {0, 16} && HexMark(s, i) && DigitValue(At(s, i + 2)) >= 0 then Numeral(negative, 16, i + 2)
    else if base == 0 then Numeral(negative, if At(s, i) == '0' then 8 else 10, i)
    else Numeral(negative, base, i)
  }

  function Least(a: nat, b: nat): nat { if a <= b then a else b }

  function Clamp(negative: bool, value: nat): int {
    if negative then 0 - Least(value, LONG_MAX + 1) else Least(value, LONG_MAX)
  }

  datatype Parsed = Parsed(value: int, end: nat)

  /** The numeral's exact value clamped to `long`, and where it ends; without a digit, zero and the start. */
  function ParsedNumeral(s: string, n: Numeral): Parsed {
    if n.base < 2 || n.base > 36 then Parsed(0, 0)
    else
      var run := Run(s, n.start, n.base);
      Parsed(Clamp(n.negative, ValueOf(run, n.base)), if run == "" then 0 else n.start + |run|)
  }

  function ParsedLong(s: string, base: int): Parsed { ParsedNumeral(s, NumeralOf(s, base)) }

  // ----- facts about runs -----

  lemma {:induction false} RunFacts(s: string, i: nat, base: int)
    ensures AllDigits(Run(s, i, base), base)
    ensures forall k :: 0 <= k < |Run(s, i, base)| ==> Run(s, i, base)[k] == At(s, i + k)
    ensures forall j :: i <= j < i + |Run(s, i, base)| ==> IsDigit(At(s, j), base)
    ensures !IsDigit(At(s, i + |Run(s, i, base)|), base)
    ensures i <= |s| ==> i + |Run(s, i, base)| <= |s|
    decreases |s| - i
  {
    if IsDigit(At(s, i), base) {
      RunFacts(s, i + 1, base);
    }
  }

  /** A run is found where its digits are followed by something else. */
  lemma {:induction false} RunIs(s: string, i: nat, run: string, base: int)
    requires AllDigits(run, base)
    requires forall k :: 0 <= k < |run| ==> At(s, i + k) == run[k]
    requires !IsDigit(At(s, i + |run|), base)
    ensures Run(s, i, base) == run
    decreases |run|
  {
    if run != "" {
      assert At(s, i + 0) == run[0];
      forall k | 0 <= k < |run[1..]|
        ensures At(s, i + 1 + k) == run[1..][k]
      {
        assert At(s, i + (k + 1)) == run[k + 1];
      }
      RunIs(s, i + 1, run[1..], base);
      assert run == [run[0]] + run[1..];
    }
  }

  lemma {:induction false} ValueGrows(run: string, k: nat, base: nat)
    requires k <= |run| && base > 0
    ensures ValueOf(run[..k], base) <= ValueOf(run, base)
  {
    if k < |run| {
      var front := run[..|run| - 1];
      ValueGrows(front, k, base);
      assert front[..k] == run[..k];
      Multiple(ValueOf(front, base), base);
    } else {
      assert run[..k] == run;
    }
  }

  lemma Multiple(a: nat, base: nat)
    requires base > 0
    ensures a <= a * base
  {
    assert a * base == a + a * (base - 1);
  }

  /** The overflow test of both parsers is exact. */
  lemma OverflowTest(result: nat, limit: nat, digit: nat, base: nat)
    requires digit <= limit && base > 0
    ensures result > (limit - digit) / base <==> result * base + digit > limit
  {
    var q := (limit - digit) / base;
    assert q * base <= limit - digit < (q + 1) * base;
    if result > q {
      Monotone(q + 1, result, base);
    } else {
      Monotone(result, q, base);
    }
  }

  lemma Monotone(a: nat, b: nat, base: nat)
    requires a <= b
    ensures a * base <= b * base
  {
    assert b * base == a * base + (b - a) * base;
  }

  lemma ValueMore(run: string, k: nat, base: nat)
    requires k < |run| && IsDigit(run[k], base)
    ensures ValueTo(run, k + 1, base) == ValueTo(run, k, base) * base + DigitValue(run[k])
  {
    assert run[..k + 1][..k] == run[..k];
  }

  // ----- strtol -----

  lemma SpaceInside(s: string, i: nat)
    requires IsSpace(At(s, i))
    ensures i < |s|
  {
  }

  method Strtol(value: string, wanted: int) returns (result: int, end: nat)
    ensures Parsed(result, end) == ParsedLong(value, wanted)
  {
    hide Run, ValueOf, DigitValue, At, IsSpace;
    var base := wanted;
    var cursor := 0;
    while IsSpace(At(value, cursor))
      invariant SpacesEnd(value, cursor) == SpacesEnd(value, 0)
      decreases |value| - cursor
    {
      SpaceInside(value, cursor);
      cursor := cursor + 1;
    }
    var negative := false;
    if At(value, cursor) == '-' || At(value, cursor) == '+' {
      negative := At(value, cursor) == '-';
      cursor := cursor + 1;
    }
    if base == 0 {
      if At(value, cursor) == '0' && (At(value, cursor + 1) == 'x' || At(value, cursor + 1) == 'X') &&
         DigitValue(At(value, cursor + 2)) >= 0 {
        base := 16;
        cursor := cursor + 2;
      } else if At(value, cursor) == '0' {
        base := 8;
      } else {
        base := 10;
      }
    } else if base == 16 && At(value, cursor) == '0'
        && (At(value, cursor + 1) == 'x' || At(value, cursor + 1) == 'X') &&
              DigitValue(At(value, cursor + 2)) >= 0 {
      cursor := cursor + 2;
    }
    assert Numeral(negative, base, cursor) == NumeralOf(value, wanted);
    if base < 2 || base > 36 { return 0, 0; }
    var magnitude: int, past := DigitLoop(value, cursor, base, if negative then LONG_MAX + 1 else LONG_MAX);
    end := if past > cursor then past else 0;
    if negative {
      if magnitude == LONG_MAX + 1 { return -(LONG_MAX as int) - 1, end; }
      return -magnitude, end;
    }
    return magnitude, end;
  }

  /** The digit loop of `strtol`, which stops adding at the limit but still consumes the run. */
  method DigitLoop(value: string, start: nat, base: nat, limit: nat) returns (result: nat, cursor: nat)
    requires 2 <= base <= 36 <= limit
    ensures result == Least(ValueOf(Run(value, start, base), base), limit)
    ensures cursor == start + |Run(value, start, base)|
  {
    ghost var run := Run(value, start, base);
    RunFacts(value, start, base);
    result, cursor := 0, start;
    ValueEnds(run, base);
    hide Run, ValueTo, TooBig, AllDigits, DigitValue, At;
    while true
      invariant start <= cursor <= start + |run|
      invariant result == ValueTo(run, cursor - start, base) <= limit
      decreases start + |run| - cursor
    {
      var digit := DigitValue(At(value, cursor));
      if digit < 0 || digit >= base { break; }
      assert cursor < start + |run|;
      DigitAdded(run, cursor - start, result, limit, base);
      if TooBig(result, limit, digit, base) {
        result := limit;
        cursor := SkipDigits(value, cursor + 1, base, start + |run|);
        break;
      }
      result := result * base + digit;
      cursor := cursor + 1;
    }
  }

  /** The overflow test: adding the digit would pass the limit. */
  predicate TooBig(result: nat, limit: nat, digit: nat, base: nat)
    requires digit <= limit && base > 0
  {
    result > (limit - digit) / base
  }

  lemma DigitAdded(run: string, k: nat, result: nat, limit: nat, base: nat)
    requires k < |run| && AllDigits(run, base) && 2 <= base <= 36 <= limit && result == ValueTo(run, k, base)
    ensures var digit := DigitValue(run[k]);
            if TooBig(result, limit, digit, base) then ValueOf(run, base) > limit
            else ValueTo(run, k + 1, base) == result * base + digit <= limit
  {
    hide ValueOf;
    assert IsDigit(run[k], base);
    OverflowTest(result, limit, DigitValue(run[k]), base);
    ValueMore(run, k, base);
    ValueGrows(run, k + 1, base);
  }

  method SkipDigits(value: string, start: nat, base: nat, ghost end: nat) returns (cursor: nat)
    requires start <= end && !IsDigit(At(value, end), base)
    requires forall i :: start <= i < end ==> IsDigit(At(value, i), base)
    ensures cursor == end
  {
    cursor := start;
    var digit := DigitValue(At(value, cursor));
    while digit >= 0 && digit < base
      invariant start <= cursor <= end && digit == DigitValue(At(value, cursor))
      decreases end - cursor
    {
      cursor := cursor + 1;
      digit := DigitValue(At(value, cursor));
    }
  }

  /** The value of the first `k` digits. */
  function ValueTo(run: string, k: nat, base: nat): nat
    requires k <= |run|
  {
    ValueOf(run[..k], base)
  }

  lemma ValueEnds(run: string, base: nat)
    ensures ValueTo(run, 0, base) == 0 && ValueTo(run, |run|, base) == ValueOf(run, base)
  {
    assert run[..|run|] == run;
  }

  // ----- parse_unsigned -----

  /** Decimal digits from `start` on, clamped to `unsigned int`; fails without a digit. */
  method ParseUnsigned(input: string, start: nat) returns (ok: bool, value: nat, next: nat)
    ensures ok == (Run(input, start, 10) != "")
    ensures ok ==>
              && value == Least(ValueOf(Run(input, start, 10), 10), 0xffff_ffff)
              && next == start + |Run(input, start, 10)|
  {
    ghost var run := Run(input, start, 10);
    RunFacts(input, start, 10);
    var cursor, result := start, 0;
    ok := false;
    ValueEnds(run, 10);
    hide Run, ValueTo;
    while '0' <= At(input, cursor) <= '9'
      invariant start <= cursor <= start + |run| && ok == (cursor > start)
      invariant result == Least(ValueTo(run, cursor - start, 10), UINT_MAX)
      decreases start + |run| - cursor
    {
      var digit := (At(input, cursor) - '0') as int;
      assert cursor < start + |run|;
      ValueMore(run, cursor - start, 10);
      if result > (UINT_MAX - digit) / 10 {
        result := UINT_MAX;
      } else {
        result := result * 10 + digit;
      }
      ok := true;
      cursor := cursor + 1;
    }
    return ok, result, cursor;
  }

  // ----- the C standard -----

  /** Section 7.22.1.4 of ISO C11: the mark `0x` belongs to the numeral only before a hexadecimal digit. */
  function IsoNumeral(s: string, base: int): Numeral {
    var i := SignEnd(s);
    var negative := At(s, SpacesEnd(s, 0)) == '-';
    if base in {0, 16} && HexMark(s, i) && IsDigit(At(s, i + 2), 16) then Numeral(negative, 16, i + 2)
    else if base == 0 then Numeral(negative, if At(s, i) == '0' then 8 else 10, i)
    else Numeral(negative, base, i)
  }

  /** `0x` or `0X` before a letter past `f`, where base 16 is possible. */
  predicate MarkBeforeLetter(s: string, base: int) {
    base in {0, 16} && HexMark(s, SignEnd(s)) && DigitValue(At(s, SignEnd(s) + 2)) >= 16
  }

  /** The parser agrees with the standard exactly when no hexadecimal mark stands before a letter past `f`;
      even then only the end differs. */
  lemma AgreesWithStandard(s: string, base: int)
    requires base == 0 || 2 <= base <= 36
    ensures ParsedLong(s, base) == ParsedNumeral(s, IsoNumeral(s, base)) <==> !MarkBeforeLetter(s, base)
    ensures ParsedLong(s, base).value == ParsedNumeral(s, IsoNumeral(s, base)).value
  {
    if MarkBeforeLetter(s, base) {
      var i := SignEnd(s);
      var n := IsoNumeral(s, base);
      assert Run(s, i + 2, 16) == "";
      assert !IsDigit(At(s, i + 1), n.base);
      RunIs(s, i, "0", n.base);
      assert "0"[..0] == "";
      assert ValueOf("0", n.base) == ValueOf("", n.base) * n.base + 0;
    }
  }

  /** The input on which they differ: the standard ends the numeral after its zero. */
  lemma MarkBeforeLetterExample()
    ensures ParsedLong("0xg", 16) == Parsed(0, 0) && ParsedNumeral("0xg", IsoNumeral("0xg", 16)).end == 1
  {
    var s := "0xg";
    assert At(s, 0) == '0' && At(s, 1) == 'x' && At(s, 2) == 'g';
    assert SpacesEnd(s, 0) == 0;
    assert Run(s, 2, 16) == "";
    RunIs(s, 0, "0", 16);
  }
}
