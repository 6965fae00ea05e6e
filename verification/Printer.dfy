/** The bounded formatter of `freestanding_hisi.c`: text is pushed character by character into an
    output that stores what fits and counts everything. `size_t`, `int`, `long` and pointers have 32 bits. */
module Printer {
  import opened Bytes

  const INT_MAX: nat := 0x7fff_ffff
  const SIZE_MODULUS: nat := 0x1_0000_0000

  function Repeat(c: char, n: nat): (r: string)
    ensures |r| == n && forall i :: 0 <= i < n ==> r[i] == c
  {
    seq(n, _ => c)
  }

  /** A C string read at `i`: past its end there is the terminator. */
  function At(s: string, i: nat): char { if i < |s| then s[i] else '\0' }

  // ----- the output -----

  /** How many of `n` characters fit in `size` bytes beside the terminator. */
  function Kept(n: nat, size: nat): nat {
    if size == 0 then 0 else if n < size - 1 then n else size - 1
  }

  /** A buffer that held `before`, once the front of `text` is stored in its first `size` bytes, terminated. */
  function Terminated(text: string, size: nat, before: string): string
    requires size <= |before|
  {
    if size == 0 then before
    else text[..Kept(|text|, size)] + ['\0'] + before[Kept(|text|, size) + 1..]
  }

  /** The last of `n` characters that met the count `i`, which wraps round. */
  function LastPut(n: nat, i: nat): (r: Option<nat>)
    requires i < SIZE_MODULUS
    ensures r.Some? ==> r.value < n
    ensures n >= SIZE_MODULUS ==> r.Some?
    ensures n < SIZE_MODULUS ==> r == if i < n then Some(i) else None
  {
    var start := n - n % SIZE_MODULUS;
    if i < n % SIZE_MODULUS then Some(start + i)
    else if start == 0 then None
    else
      WrapStart(n);
      Some(start - SIZE_MODULUS + i)
  }

  lemma WrapStart(n: nat)
    ensures var start := n - n % SIZE_MODULUS; start == 0 || start >= SIZE_MODULUS
  {
  }

  function HeldAt(text: string, before: string, i: nat): char
    requires i < SIZE_MODULUS && i < |before|
  {
    match LastPut(|text|, i)
    case None => before[i]
    case Some(k) => text[k]
  }

  /** The buffer once `text` is put out: each place that can be stored to holds the last character that
      met it, and past a wrap of the count earlier ones are overwritten. */
  function Held(text: string, size: nat, before: string): string
    requires size <= |before| && size < SIZE_MODULUS
  {
    seq(|before|, i requires 0 <= i < |before| => if i + 1 < size then HeldAt(text, before, i) else before[i])
  }

  /** The same, terminated where the count stands. */
  function Finished(text: string, size: nat, before: string): string
    requires size <= |before| && size < SIZE_MODULUS
  {
    if size == 0 then before else Held(text, size, before)[Kept(|text| % SIZE_MODULUS, size) := '\0']
  }

  lemma HeldMore(text: string, value: char, size: nat, before: string)
    requires size <= |before| && size < SIZE_MODULUS
    ensures var count := |text| % SIZE_MODULUS;
            Held(text + [value], size, before) ==
            if count + 1 < size then Held(text, size, before)[count := value] else Held(text, size, before)
  {
    var count, more := |text| % SIZE_MODULUS, text + [value];
    WrapStep(|text|);
    WrapStart(|text|);
    forall i: nat | i < |before| && i + 1 < size
      ensures HeldAt(more, before, i) == if i == count then value else HeldAt(text, before, i)
    {
      LastPutMore(|text|, i);
    }
  }

  lemma LastPutMore(n: nat, i: nat)
    requires i + 1 < SIZE_MODULUS
    ensures LastPut(n + 1, i) == if i == n % SIZE_MODULUS then Some(n) else LastPut(n, i)
  {
    WrapStep(n);
    WrapStart(n);
  }

  lemma WrapStep(n: nat)
    ensures (n + 1) % SIZE_MODULUS == if n % SIZE_MODULUS + 1 == SIZE_MODULUS then 0 else n % SIZE_MODULUS + 1
    ensures n < SIZE_MODULUS ==> n % SIZE_MODULUS == n
  {
  }

  lemma HeldNothing(size: nat, before: string)
    requires size <= |before| && size < SIZE_MODULUS
    ensures Held("", size, before) == before
    ensures forall text :: Held(text, 0, before) == before
  {
  }

  lemma FinishedAt(text: string, size: nat, before: string, i: nat)
    requires i < |before| && 0 < size <= |before| && size < SIZE_MODULUS
    ensures |Finished(text, size, before)| == |before|
    ensures Finished(text, size, before)[i] ==
            if i == Kept(|text| % SIZE_MODULUS, size) then '\0' else if i + 1 < size then HeldAt(text, before, i)
            else before[i]
  {
    hide HeldAt;
  }

  lemma TerminatedAt(text: string, size: nat, before: string, i: nat)
    requires i < |before| && 0 < size <= |before|
    ensures |Terminated(text, size, before)| == |before|
    ensures Terminated(text, size, before)[i] ==
            if i == Kept(|text|, size) then '\0' else if i < Kept(|text|, size) then text[i] else before[i]
  {
    var k := Kept(|text|, size);
    var front, back := text[..k] + ['\0'], before[k + 1..];
    assert Terminated(text, size, before) == front + back;
    assert i > k ==> (front + back)[i] == back[i - |front|];
  }

  /** Until the count wraps, the buffer holds the terminated front of the text. */
  lemma FinishedShort(text: string, size: nat, before: string)
    requires size <= |before| && size < SIZE_MODULUS && |text| < SIZE_MODULUS
    ensures Finished(text, size, before) == Terminated(text, size, before)
  {
    WrapStep(|text|);
    if size != 0 {
      FinishedAt(text, size, before, 0);
      TerminatedAt(text, size, before, 0);
      hide Finished, Terminated, LastPut;
      forall i: nat | i < |before|
        ensures Finished(text, size, before)[i] == Terminated(text, size, before)[i]
      {
        FinishedAt(text, size, before, i);
        TerminatedAt(text, size, before, i);
      }
    }
  }

  /** Past a wrap, each place that can be stored to has been met by some character. */
  lemma HeldLater(text: string, before: string, i: nat)
    requires i < |before| && i < SIZE_MODULUS <= |text|
    ensures HeldAt(text, before, i) == text[LastPut(|text|, i).value]
  {
  }

  /** After a wrap, the place `i` holds what it should: it was last met by that character; and a terminator
      inside the buffer is one that was there. */
  predicate RightAt(text: string, size: nat, before: string, i: nat)
    requires i < size <= |before| && size < SIZE_MODULUS <= |text|
  {
    var count := |text| % SIZE_MODULUS;
    if i + 1 == size then count + 1 >= size || before[i] == '\0'
    else if i == count then text[i] == '\0'
    else text[LastPut(|text|, i).value] == text[i]
  }

  lemma TruncatedAt(text: string, size: nat, before: string, i: nat)
    requires i < |before| && 1 < size <= |before| && size < SIZE_MODULUS <= |text|
    ensures |Finished(text, size, before)| == |Terminated(text, size, before)| == |before|
    ensures Finished(text, size, before)[i] == Terminated(text, size, before)[i] <==>
              (i < size ==> RightAt(text, size, before, i))
  {
    FinishedAt(text, size, before, i);
    TerminatedAt(text, size, before, i);
    hide Finished, Terminated, HeldAt, LastPut;
    if i + 1 < size {
      HeldLater(text, before, i);
    }
  }

  /** Exactly when the buffer holds the terminated front of the text: the count has not wrapped, or there
      is room for the terminator only, or each place was last met by the character it should hold; for a
      count that ends inside the buffer, that takes two null characters where the text and the buffer had
      them already. */
  lemma TruncatedExactly(text: string, size: nat, before: string)
    requires size <= |before| && size < SIZE_MODULUS
    ensures Finished(text, size, before) == Terminated(text, size, before) <==>
            |text| < SIZE_MODULUS || size <= 1 || forall i: nat :: i < size ==> RightAt(text, size, before, i)
  {
    hide Finished, Terminated, LastPut;
    if |text| < SIZE_MODULUS {
      FinishedShort(text, size, before);
    } else if size <= 1 {
      OnlyTerminated(text, size, before);
    } else {
      TruncatedAt(text, size, before, 0);
      hide RightAt;
      var now, wanted := Finished(text, size, before), Terminated(text, size, before);
      forall i: nat | i < size
        ensures RightAt(text, size, before, i) <==> now[i] == wanted[i]
      {
        TruncatedAt(text, size, before, i);
      }
      forall i: nat | size <= i < |before|
        ensures now[i] == wanted[i]
      {
        TruncatedAt(text, size, before, i);
      }
    }
  }

  lemma OnlyTerminated(text: string, size: nat, before: string)
    requires size <= |before| && size <= 1
    ensures Finished(text, size, before) == Terminated(text, size, before)
  {
    hide HeldAt;
    if size == 1 {
      assert Held(text, 1, before) == before;
    }
  }

  class Output {
    const buffer: array?<char>
    const size: nat
    var count: nat
    /** Everything put out so far, and what the buffer held at the start. */
    ghost var text: string
    ghost const before: string

    ghost predicate Valid()
      reads this, buffer
    {
      && size < SIZE_MODULUS
      && count == |text| % SIZE_MODULUS
      && (buffer != null ==>
            && size <= buffer.Length == |before|
            && buffer[..] == Held(text, size, before))
    }

    constructor (buffer: array?<char>, size: nat)
      requires size < SIZE_MODULUS && (buffer != null ==> size <= buffer.Length)
      ensures Valid() && text == "" && this.buffer == buffer && this.size == size
      ensures buffer != null ==> before == buffer[..]
    {
      this.buffer, this.size, count, text := buffer, size, 0, "";
      before := if buffer != null then buffer[..] else "";
      new;
      if buffer != null {
        HeldNothing(size, before);
      }
    }

    method OutputChar(value: char)
      requires Valid()
      modifies this, buffer
      ensures Valid() && text == old(text) + [value]
    {
      if buffer != null && size != 0 && count < size - 1 {
        buffer[count] := value;
        assert buffer[..] == old(buffer[..])[count := value];
      }
      if buffer != null {
        HeldMore(text, value, size, before);
      }
      hide Held;
      WrapStep(|text|);
      count := if count + 1 == SIZE_MODULUS then 0 else count + 1;
      text := text + [value];
    }

    method OutputRepeat(value: char, count: nat)
      requires Valid()
      modifies this, buffer
      ensures Valid() && text == old(text) + Repeat(value, count)
    {
      for done := 0 to count
        invariant Valid() && text == old(text) + Repeat(value, done)
      {
        OutputChar(value);
      }
    }

    method OutputRepeatIf(wanted: bool, value: char, count: nat)
      requires Valid()
      modifies this, buffer
      ensures Valid() && text == old(text) + Repeat(value, if wanted then count else 0)
    {
      if wanted { OutputRepeat(value, count); }
    }

    method OutputAll(s: string, length: nat)
      requires Valid() && length <= |s|
      modifies this, buffer
      ensures Valid() && text == old(text) + s[..length]
    {
      for i := 0 to length
        invariant Valid() && text == old(text) + s[..i]
      {
        OutputChar(s[i]);
      }
    }

    /** `output_finish`: the terminator goes after the kept characters. */
    method OutputFinish()
      requires Valid()
      modifies buffer
      ensures buffer != null ==> buffer[..] == Finished(text, size, before)
    {
      hide Held;
      if buffer != null {
        HeldNothing(size, before);
      }
      if buffer == null || size == 0 { return; }
      var index := if count < size - 1 then count else size - 1;
      buffer[index] := '\0';
      assert buffer[..] == old(buffer[..])[index := '\0'];
    }

    method OutputString(s: string, length: nat, width: nat, left: bool)
      requires Valid() && length <= |s|
      modifies this, buffer
      ensures Valid() && text == old(text) + Justified(s[..length], width, left)
    {
      var padding := if width > length then width - length else 0;
      OutputRepeatIf(!left, ' ', padding);
      OutputAll(s, length);
      OutputRepeatIf(left, ' ', padding);
    }

    /** `output_number`, with its scratch arrays of 32 digits and 3 prefix characters. */
    method OutputNumber(value: nat, negative: bool, base: nat, uppercase: bool, style: Style)
      requires Valid() && value < 0x1_0000_0000_0000_0000 && base in {10, 16}
      modifies this, buffer
      ensures Valid() && text == old(text) + NumberText(value, negative, base, uppercase, style)
    {
      hide Valid, Digits, Repeat;
      var reversed := new char[32];
      var prefix := new char[3];
      var digitCount := 0;
      if !(value == 0 && style.precision == 0) {
        digitCount := UnsignedDigits(reversed, value, base, uppercase);
      }
      assert Backwards(reversed[..digitCount]) == DigitsShown(value, base, uppercase, style);
      var prefixCount := PutPrefix(prefix, value, negative, base, uppercase, style);
      OutputField(prefix, prefixCount, reversed, digitCount, style);
    }

    /** The second half of `output_number`: padding, prefix, zeroes and digits in their order. */
    method OutputField(prefix: array<char>, prefixCount: nat, reversed: array<char>, digitCount: nat, style: Style)
      requires Valid() && prefixCount <= prefix.Length && digitCount <= reversed.Length
      requires prefix != buffer && reversed != buffer
      modifies this, buffer
      ensures Valid() && text == old(text) + FieldText(prefix[..prefixCount], Backwards(reversed[..digitCount]), style)
    {
      hide Valid, Backwards, Repeat;
      var precisionZeroes := if style.precision > digitCount then style.precision - digitCount else 0;
      var total := prefixCount + precisionZeroes + digitCount;
      var padding := if style.width > total then style.width - total else 0;
      BackwardsLength(reversed[..digitCount]);
      ghost var layout := LayoutOf(prefixCount, digitCount, style);
      OutputRepeatIf(!style.left && !(style.zero && style.precision < 0), ' ', padding);
      OutputArray(prefix, prefixCount);
      OutputRepeatIf(!style.left && style.zero && style.precision < 0, '0', padding);
      OutputRepeat('0', precisionZeroes);
      OutputReversed(reversed, digitCount);
      OutputRepeatIf(style.left, ' ', padding);
      Assemble(old(text), Repeat(' ', layout.lead), prefix[..prefixCount], Repeat('0', layout.inner),
               Repeat('0', layout.zeroes), Backwards(reversed[..digitCount]), Repeat(' ', layout.tail));
    }

    method OutputArray(characters: array<char>, count: nat)
      requires Valid() && count <= characters.Length && characters != buffer
      modifies this, buffer
      ensures Valid() && text == old(text) + characters[..count]
    {
      for i := 0 to count
        invariant Valid() && text == old(text) + characters[..i] && characters[..] == old(characters[..])
      {
        OutputChar(characters[i]);
      }
    }

    method OutputReversed(reversed: array<char>, digitCount: nat)
      requires Valid() && digitCount <= reversed.Length && reversed != buffer
      modifies this, buffer
      ensures Valid() && text == old(text) + Backwards(reversed[..digitCount])
    {
      var left := digitCount;
      while left != 0
        invariant 0 <= left <= digitCount && Valid() && reversed[..] == old(reversed[..])
        invariant text + Backwards(reversed[..left]) == old(text) + Backwards(old(reversed[..digitCount]))
      {
        left := left - 1;
        assert reversed[..left + 1] == reversed[..left] + [reversed[left]];
        OutputChar(reversed[left]);
      }
    }
  }

  // ----- numbers -----

  function DigitChar(d: nat, uppercase: bool): char
    requires d < 16
  {
    if uppercase then "0123456789ABCDEF"[d] else "0123456789abcdef"[d]
  }

  /** Division by the two bases numbers are printed in. */
  function Quot(value: nat, base: nat): (r: nat)
    requires base in {10, 16}
    ensures r <= value && (value != 0 ==> r < value)
  {
    if base == 10 then value / 10 else value / 16
  }

  function Rem(value: nat, base: nat): (r: nat)
    requires base in {10, 16}
    ensures r < base
  {
    if base == 10 then value % 10 else value % 16
  }

  /** The digits of `value`, most significant first. */
  function Digits(value: nat, base: nat, uppercase: bool): string
    requires base in {10, 16}
  {
    (if Quot(value, base) == 0 then "" else Digits(Quot(value, base), base, uppercase)) +
        [DigitChar(Rem(value, base), uppercase)]
  }

  /** `precision` is -1 when none is given. */
  datatype Style = Style(left: bool, zero: bool, plus: bool, space: bool, alternate: bool, width: nat, precision: int)

  function DigitsShown(value: nat, base: nat, uppercase: bool, style: Style): string
    requires base in {10, 16}
  {
    if value == 0 && style.precision == 0 then "" else Digits(value, base, uppercase)
  }

  function Prefix(value: nat, negative: bool, base: nat, uppercase: bool, style: Style): (r: string)
    ensures |r| <= 3
  {
    (if negative then "-" else if style.plus then "+" else if style.space then " " else "") +
    (if style.alternate && base == 16 && value != 0 then (if uppercase then "0X" else "0x") else "")
  }

  /** How a field of `prefix` and `digits` characters is filled up: spaces before, zeroes that fill the
      width, zeroes that fill the precision, spaces after. */
  datatype Layout = Layout(lead: nat, inner: nat, zeroes: nat, tail: nat)

  function LayoutOf(prefix: nat, digits: nat, style: Style): Layout {
    var zeroes := if style.precision > digits then style.precision - digits else 0;
    var total := prefix + zeroes + digits;
    var padding := if style.width > total then style.width - total else 0;
    if style.left then Layout(0, 0, zeroes, padding)
    else if style.zero && style.precision < 0 then Layout(0, padding, zeroes, 0)
    else Layout(padding, 0, zeroes, 0)
  }

  function NumberText(value: nat, negative: bool, base: nat, uppercase: bool, style: Style): string
    requires base in {10, 16}
  {
    var prefix := Prefix(value, negative, base, uppercase, style);
    var digits := DigitsShown(value, base, uppercase, style);
    FieldText(prefix, digits, style)
  }

  function FieldText(prefix: string, digits: string, style: Style): string {
    var layout := LayoutOf(|prefix|, |digits|, style);
    Repeat(' ', layout.lead) + prefix + Repeat('0', layout.inner) + Repeat('0', layout.zeroes) + digits +
        Repeat(' ', layout.tail)
  }

  function Max(a: int, b: int): int { if a < b then b else a }

  /** The length of a number's field. */
  lemma FieldLength(value: nat, negative: bool, base: nat, uppercase: bool, style: Style)
    requires base in {10, 16}
    ensures |NumberText(value, negative, base, uppercase, style)| ==
            Max(style.width, |Prefix(value, negative, base, uppercase, style)| +
                             Max(style.precision, |DigitsShown(value, base, uppercase, style)|))
  {
    hide Digits, Prefix;
  }

  function Justified(s: string, width: nat, left: bool): string {
    var padding := Repeat(' ', if width > |s| then width - |s| else 0);
    if left then s + padding else padding + s
  }

  function Backwards(s: string): string {
    if s == "" then "" else [s[|s| - 1]] + Backwards(s[..|s| - 1])
  }

  lemma {:induction false} BackwardsLength(s: string)
    ensures |Backwards(s)| == |s|
  {
    if s != "" {
      BackwardsLength(s[..|s| - 1]);
    }
  }

  lemma Assemble(start: string, a: string, b: string, c: string, d: string, e: string, f: string)
    ensures start + a + b + c + d + e + f == start + (a + b + c + d + e + f)
  {
  }

  function TenTo(n: nat): nat { if n == 0 then 1 else 10 * TenTo(n - 1) }

  /** `unsigned_digits`: digits are found from the last; a 64-bit value has at most 20. */
  method UnsignedDigits(reversed: array<char>, value: nat, base: nat, uppercase: bool) returns (count: nat)
    requires reversed.Length == 32 && value < 0x1_0000_0000_0000_0000 && base in {10, 16}
    modifies reversed
    ensures count <= 20 && Backwards(reversed[..count]) == Digits(value, base, uppercase)
  {
    hide *;
    TenToTwenty();
    PendingEnds(value, base, uppercase);
    assert reversed[..0] == "";
    var rest: nat := value;
    count := 0;
    var more := true;
    while more
      invariant count <= 20 && rest < TenTo(20 - count) && (more ==> count < 20)
      invariant Digits(value, base, uppercase) == Pending(rest, base, uppercase, more) + Backwards(reversed[..count])
      decreases more, rest
    {
      label Before:
      DigitStep(rest, base, uppercase, reversed[..count]);
      reversed[count] := DigitChar(Rem(rest, base), uppercase);
      assert reversed[..count + 1] == old@Before(reversed[..count]) + [DigitChar(Rem(rest, base), uppercase)];
      count := count + 1;
      Shrinks(rest, base, 20 - count);
      rest := Quot(rest, base);
      more := rest != 0;
    }
  }

  lemma TenToTwenty()
    ensures TenTo(20) == 100_000_000_000_000_000_000 && TenTo(0) == 1
  {
    assert TenTo(10) == 10_000_000_000;
    TenToAdds(10, 10);
  }

  /** The digits not yet written down while there are `more`. */
  function Pending(rest: nat, base: nat, uppercase: bool, more: bool): string
    requires base in {10, 16}
  {
    if more then Digits(rest, base, uppercase) else ""
  }

  lemma PendingEnds(value: nat, base: nat, uppercase: bool)
    requires base in {10, 16}
    ensures Pending(value, base, uppercase, true) + Backwards("") == Digits(value, base, uppercase)
    ensures forall rest: nat, s :: Pending(rest, base, uppercase, false) + Backwards(s) == Backwards(s)
  {
  }

  lemma BackwardsMore(s: string, d: char)
    ensures Backwards(s + [d]) == [d] + Backwards(s)
  {
    assert (s + [d])[..|s|] == s;
  }

  lemma Regroup(a: string, b: string, c: string)
    ensures a + b + c == a + (b + c)
  {
  }

  lemma DigitsSplit(rest: nat, base: nat, uppercase: bool)
    requires base in {10, 16}
    ensures Pending(rest, base, uppercase, true) ==
            Pending(Quot(rest, base), base, uppercase, Quot(rest, base) != 0) + [DigitChar(Rem(rest, base), uppercase)]
  {
  }

  /** One digit moved from the front part to the reversed part. */
  lemma DigitStep(rest: nat, base: nat, uppercase: bool, reversed: string)
    requires base in {10, 16}
    ensures Pending(rest, base, uppercase, true) + Backwards(reversed) ==
            Pending(Quot(rest, base), base, uppercase, Quot(rest, base) != 0) +
                Backwards(reversed + [DigitChar(Rem(rest, base), uppercase)])
  {
    hide *;
    var d := DigitChar(Rem(rest, base), uppercase);
    var front := Pending(Quot(rest, base), base, uppercase, Quot(rest, base) != 0);
    DigitsSplit(rest, base, uppercase);
    BackwardsMore(reversed, d);
    Regroup(front, [d], Backwards(reversed));
  }

  lemma {:induction false} TenToAdds(a: nat, b: nat)
    ensures TenTo(a + b) == TenTo(a) * TenTo(b)
  {
    if a > 0 {
      TenToAdds(a - 1, b);
      assert TenTo(a) * TenTo(b) == 10 * (TenTo(a - 1) * TenTo(b));
    }
  }

  lemma Shrinks(rest: nat, base: nat, left: nat)
    requires base in {10, 16} && rest < TenTo(left + 1)
    ensures Quot(rest, base) < TenTo(left)
    ensures left == 0 ==> Quot(rest, base) == 0
    ensures rest != 0 ==> Quot(rest, base) < rest
  {
  }

  method PutPrefix(prefix: array<char>, value: nat, negative: bool, base: nat, uppercase: bool, style: Style)
    returns (count: nat)
    requires prefix.Length == 3
    modifies prefix
    ensures count <= 3 && prefix[..count] == Prefix(value, negative, base, uppercase, style)
  {
    count := 0;
    if negative {
      prefix[count] := '-';
      count := count + 1;
    } else if style.plus {
      prefix[count] := '+';
      count := count + 1;
    } else if style.space {
      prefix[count] := ' ';
      count := count + 1;
    }
    if style.alternate && base == 16 && value != 0 {
      prefix[count] := '0';
      count := count + 1;
      prefix[count] := if uppercase then 'X' else 'x';
      count := count + 1;
    }
  }
}
