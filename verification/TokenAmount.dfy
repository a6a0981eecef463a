/** Token amounts as text: parsing unsigned plain decimals to base units, and printing them back. */
module TokenAmount {
  import opened Arithmetic
  import opened Wrappers

  const U128_LIMIT: nat := 0x1_0000_0000_0000_0000_0000_0000_0000_0000
  const MAX_INPUT_LENGTH: nat := 512
  const MAX_DECIMALS: nat := 255

  datatype AmountError = BadDecimals | NotPlainDecimal | TooManyPlaces | NotPositive | TooLarge | Negative

  // ---------- decimal digits ----------

  predicate IsDigit(c: char) {
    '0' <= c <= '9'
  }

  predicate AllDigits(s: string) {
    forall i :: 0 <= i < |s| ==> IsDigit(s[i])
  }

  function Pow10(n: nat): (p: nat)
    ensures p > 0
  {
    if n == 0 then 1 else 10 * Pow10(n - 1)
  }

  function DigitChar(n: nat): (c: char)
    requires n < 10
    ensures IsDigit(c)
  {
    '0' + n as char
  }

  function DigitValue(c: char): nat
    requires IsDigit(c)
  {
    c as int - '0' as int
  }

  /** The number a digit string spells. */
  function Value(s: string): nat
    requires AllDigits(s)
  {
    if s == "" then 0 else Value(s[..|s| - 1]) * 10 + DigitValue(s[|s| - 1])
  }

  function ToDecimal(n: nat): (s: string)
    ensures AllDigits(s) && s != ""
  {
    if n < 10 then [DigitChar(n)] else ToDecimal(n / 10) + [DigitChar(n % 10)]
  }

  function Zeros(n: nat): (s: string)
    ensures |s| == n && AllDigits(s)
  {
    seq(n, i => '0')
  }

  function PadEnd(s: string, n: nat): string {
    if |s| < n then s + Zeros(n - |s|) else s
  }

  function PadStart(s: string, n: nat): string {
    if |s| < n then Zeros(n - |s|) + s else s
  }

  function StripLeadingZeros(s: string): string {
    if s != "" && s[0] == '0' then StripLeadingZeros(s[1..]) else s
  }

  function StripTrailingZeros(s: string): string {
    if s != "" && s[|s| - 1] == '0' then StripTrailingZeros(s[..|s| - 1]) else s
  }

  function OrZero(s: string): string {
    if s == "" then "0" else s
  }

  // ---------- text ----------

  /** The white space that trimming removes. */
  predicate IsSpace(c: char) {
    var n := c as int;
    9 <= n <= 13 || n == 0x20 || n == 0xA0 || n == 0x1680 || 0x2000 <= n <= 0x200A
    || n == 0x2028 || n == 0x2029 || n == 0x202F || n == 0x205F || n == 0x3000 || n == 0xFEFF
  }

  function TrimStart(s: string): string {
    if s != "" && IsSpace(s[0]) then TrimStart(s[1..]) else s
  }

  function TrimEnd(s: string): string {
    if s != "" && IsSpace(s[|s| - 1]) then TrimEnd(s[..|s| - 1]) else s
  }

  function Trim(s: string): string {
    TrimEnd(TrimStart(s))
  }

  function LeadingDigits(s: string): (n: nat)
    ensures n <= |s| && AllDigits(s[..n]) && (n < |s| ==> !IsDigit(s[n]))
  {
    if s == "" || !IsDigit(s[0]) then 0
    else
      var rest := LeadingDigits(s[1..]);
      assert s[..1 + rest] == [s[0]] + s[1..][..rest];
      1 + rest
  }

  datatype Plain = Plain(whole: string, fraction: string)

  /** Digits, optionally a point and digits; or a point and at least one digit. */
  function MatchDecimal(s: string): (m: Option<Plain>)
    ensures m.Some? ==> AllDigits(m.value.whole) && AllDigits(m.value.fraction) && m.value.whole != ""
  {
    var n := LeadingDigits(s);
    if n > 0 && n == |s| then Some(Plain(s, ""))
    else if n > 0 && s[n] == '.' && AllDigits(s[n + 1..]) then Some(Plain(s[..n], s[n + 1..]))
    else if n == 0 && |s| > 1 && s[0] == '.' && AllDigits(s[1..]) then Some(Plain("0", s[1..]))
    else None
  }

  // ---------- parse and format ----------

  function AtomicText(m: Plain, decimals: nat): (s: string)
    requires AllDigits(m.whole) && AllDigits(m.fraction)
    ensures AllDigits(s)
  {
    StripKeepsDigits(m.whole);
    var all := OrZero(StripLeadingZeros(m.whole)) + PadEnd(m.fraction, decimals);
    StripKeepsDigits(all);
    OrZero(StripLeadingZeros(all))
  }

  lemma {:induction false} StripKeepsDigits(s: string)
    requires AllDigits(s)
    ensures AllDigits(StripLeadingZeros(s)) && Value(StripLeadingZeros(s)) == Value(s)
  {
    if s != "" && s[0] == '0' {
      StripKeepsDigits(s[1..]);
      ValueConcat([s[0]], s[1..]);
      assert s == [s[0]] + s[1..];
      assert [s[0]][..0] == "";
    }
  }

  lemma {:induction false} ValueConcat(a: string, b: string)
    requires AllDigits(a) && AllDigits(b)
    ensures AllDigits(a + b) && Value(a + b) == Value(a) * Pow10(|b|) + Value(b)
  {
    if b == "" {
      assert a + b == a;
    } else {
      var front, last := b[..|b| - 1], b[|b| - 1];
      ValueConcat(a, front);
      assert (a + b)[..|a + b| - 1] == a + front;
      ShiftOne(Value(a), Pow10(|front|), Value(front));
    }
  }

  lemma ShiftOne(v: nat, p: nat, f: nat)
    ensures (v * p + f) * 10 == v * (10 * p) + f * 10
  {
    assert (v * p) * 10 == v * (10 * p);
  }

  function Quotient(value: nat, scale: nat): nat
    requires scale > 0
  {
    value / scale
  }

  function Remainder(value: nat, scale: nat): (r: nat)
    requires scale > 0
    ensures r < scale
  {
    value % scale
  }

  function ParseTokenAmount(s: string, decimals: int): Result<nat, AmountError> {
    if !(0 <= decimals <= MAX_DECIMALS) then Failure(BadDecimals)
    else if |s| > MAX_INPUT_LENGTH then Failure(NotPlainDecimal)
    else
      var m := MatchDecimal(Trim(s));
      if m.None? then Failure(NotPlainDecimal)
      else if |m.value.fraction| > decimals then Failure(TooManyPlaces)
      else
        var atomic := Value(AtomicText(m.value, decimals));
        if atomic == 0 then Failure(NotPositive)
        else if atomic >= U128_LIMIT then Failure(TooLarge) else Success(atomic)
  }

  function FormatTokenAmount(value: int, decimals: int): Result<string, AmountError> {
    if value < 0 then Failure(Negative)
    else if !(0 <= decimals <= MAX_DECIMALS) then Failure(BadDecimals)
    else Success(Printed(value, decimals))
  }

  function Printed(value: nat, decimals: nat): string {
    if decimals == 0 then ToDecimal(value)
    else
      var scale := Pow10(decimals);
      var fraction := StripTrailingZeros(PadStart(ToDecimal(Remainder(value, scale)), decimals));
      if fraction != "" then ToDecimal(Quotient(value, scale)) + "." + fraction else ToDecimal(Quotient(value, scale))
  }

  // ---------- numbers and their spellings ----------

  lemma {:induction false} ValueOfDecimal(n: nat)
    ensures Value(ToDecimal(n)) == n
    ensures ToDecimal(n)[0] == '0' ==> n == 0
    ensures n == 0 ==> ToDecimal(n) == "0"
  {
    if n < 10 {
      assert ToDecimal(n)[..0] == "";
    } else {
      ValueOfDecimal(n / 10);
      assert ToDecimal(n)[..|ToDecimal(n)| - 1] == ToDecimal(n / 10);
    }
  }

  lemma {:induction false} ValueOfZeros(n: nat)
    ensures Value(Zeros(n)) == 0
  {
    if n == 0 {
    } else {
      assert Zeros(n)[..n - 1] == Zeros(n - 1);
      ValueOfZeros(n - 1);
    }
  }

  lemma {:induction false} ValueBound(s: string)
    requires AllDigits(s)
    ensures Value(s) < Pow10(|s|)
  {
    if s == "" {
    } else {
      ValueBound(s[..|s| - 1]);
    }
  }

  lemma {:induction false} SameLengthSameValue(a: string, b: string)
    requires AllDigits(a) && AllDigits(b) && |a| == |b| && Value(a) == Value(b)
    ensures a == b
  {
    if a == "" {
    } else {
      var x, y := a[..|a| - 1], b[..|b| - 1];
      SameLengthSameValue(x, y);
      assert a == x + [a[|a| - 1]] && b == y + [b[|b| - 1]];
    }
  }

  /** Without a leading zero, or as "0" itself, a digit string is the spelling of its value. */
  lemma {:induction false} DecimalOfValue(s: string)
    requires AllDigits(s) && s != "" && (s[0] == '0' ==> s == "0")
    ensures ToDecimal(Value(s)) == s
  {
    var front := s[..|s| - 1];
    if front == "" {
      assert s == [s[0]];
    } else {
      DecimalOfValue(front);
      assert front[0] != '0';
      PositiveLead(front);
      assert s == front + [s[|s| - 1]];
    }
  }

  lemma {:induction false} PositiveLead(s: string)
    requires AllDigits(s) && s != "" && s[0] != '0'
    ensures Value(s) > 0
  {
    if |s| > 1 {
      PositiveLead(s[..|s| - 1]);
    } else {
      assert s[..0] == "";
    }
  }

  lemma {:induction false} DecimalLength(n: nat, k: nat)
    requires n < Pow10(k) && k > 0
    ensures |ToDecimal(n)| <= k
  {
    if n < 10 {
    } else {
      DecimalLength(n / 10, k - 1);
    }
  }

  lemma {:induction false} StripTrailingSplits(s: string)
    ensures |StripTrailingZeros(s)| <= |s|
    ensures s == StripTrailingZeros(s) + Zeros(|s| - |StripTrailingZeros(s)|)
    ensures StripTrailingZeros(s) != "" ==> StripTrailingZeros(s)[|StripTrailingZeros(s)| - 1] != '0'
  {
    if s != "" && s[|s| - 1] == '0' {
      var front := s[..|s| - 1];
      StripTrailingSplits(front);
      var kept := StripTrailingZeros(front);
      assert Zeros(|front| - |kept|) + "0" == Zeros(|s| - |kept|);
      assert s == front + "0" == kept + (Zeros(|front| - |kept|) + "0");
    }
  }

  // ---------- round trips ----------

  lemma {:induction false} DigitsLead(a: string, b: string)
    requires AllDigits(a) && (b == "" || !IsDigit(b[0]))
    ensures LeadingDigits(a + b) == |a|
  {
    if a == "" {
      assert a + b == b;
    } else {
      assert (a + b)[1..] == a[1..] + b && (a + b)[0] == a[0];
      DigitsLead(a[1..], b);
    }
  }

  lemma MatchPlain(whole: string, fraction: string)
    requires AllDigits(whole) && whole != "" && AllDigits(fraction)
    ensures MatchDecimal(whole) == Some(Plain(whole, ""))
    ensures MatchDecimal(whole + "." + fraction) == Some(Plain(whole, fraction))
  {
    DigitsLead(whole, "");
    assert whole + "" == whole;
    var text := whole + "." + fraction;
    assert text == whole + ("." + fraction);
    DigitsLead(whole, "." + fraction);
    assert text[..|whole|] == whole && text[|whole|] == '.' && text[|whole| + 1..] == fraction;
  }

  lemma TrimNothing(s: string)
    requires s != "" && !IsSpace(s[0]) && !IsSpace(s[|s| - 1])
    ensures Trim(s) == s
  {
  }

  /** What the digits of a match are worth in base units. */
  lemma {:induction false} AtomicValue(m: Plain, decimals: nat)
    requires AllDigits(m.whole) && AllDigits(m.fraction) && |m.fraction| <= decimals
    ensures AllDigits(PadEnd(m.fraction, decimals))
    ensures Value(AtomicText(m, decimals)) == Value(m.whole) * Pow10(decimals) + Value(PadEnd(m.fraction, decimals))
  {
    StripKeepsDigits(m.whole);
    var whole, fraction := OrZero(StripLeadingZeros(m.whole)), PadEnd(m.fraction, decimals);
    assert |fraction| == decimals;
    OrZeroKeepsValue(StripLeadingZeros(m.whole));
    ValueConcat(whole, fraction);
    StripKeepsDigits(whole + fraction);
    OrZeroKeepsValue(StripLeadingZeros(whole + fraction));
  }

  lemma OrZeroKeepsValue(s: string)
    requires AllDigits(s)
    ensures AllDigits(OrZero(s)) && Value(OrZero(s)) == Value(s)
  {
    assert "0"[..0] == "";
  }

  lemma {:induction false} PaddedDecimal(n: nat, width: nat)
    requires n < Pow10(width) && width > 0
    ensures AllDigits(PadStart(ToDecimal(n), width)) && |PadStart(ToDecimal(n), width)| == width
    ensures Value(PadStart(ToDecimal(n), width)) == n
  {
    DecimalLength(n, width);
    ValueOfDecimal(n);
    var text := ToDecimal(n);
    if |text| < width {
      ValueConcat(Zeros(width - |text|), text);
      ValueOfZeros(width - |text|);
    }
  }

  function FractionOf(value: nat, decimals: nat): string {
    if decimals == 0 then "" else StripTrailingZeros(PadStart(ToDecimal(Remainder(value, Pow10(decimals))), decimals))
  }

  lemma {:induction false} FractionMeans(value: nat, decimals: nat)
    ensures var f := FractionOf(value, decimals);
      && AllDigits(f) && |f| <= decimals && (f != "" ==> f[|f| - 1] != '0')
      && AllDigits(PadEnd(f, decimals)) && Value(PadEnd(f, decimals)) == Remainder(value, Pow10(decimals))
      && |PadEnd(f, decimals)| == decimals
  {
    if decimals == 0 {
      assert Remainder(value, Pow10(0)) == 0;
    } else {
      var r := Remainder(value, Pow10(decimals));
      var padded := PadStart(ToDecimal(r), decimals);
      PaddedDecimal(r, decimals);
      StripTrailingSplits(padded);
      var f := StripTrailingZeros(padded);
      assert PadEnd(f, decimals) == padded by {
        if |f| == decimals { assert f + Zeros(0) == f; }
      }
      assert f == padded[..|f|];
    }
  }

  lemma {:induction false} PrintedIs(value: nat, decimals: nat)
    ensures var whole, f := ToDecimal(Quotient(value, Pow10(decimals))), FractionOf(value, decimals);
      Printed(value, decimals) == if f == "" then whole else whole + "." + f
  {
    if decimals == 0 {
      assert Quotient(value, Pow10(0)) == value;
    }
  }

  lemma QuotientSmall(value: nat, scale: nat)
    requires scale > 0
    ensures Quotient(value, scale) <= value
  {
    DivisionExpands(value, scale);
    BelowMultiple(1, scale, Quotient(value, scale));
  }

  lemma U128Digits(value: nat)
    requires value < U128_LIMIT
    ensures |ToDecimal(value)| <= 39
  {
    assert Pow10(13) == 10_000_000_000_000;
    PowSum(13, 13);
    PowSum(26, 13);
    DecimalLength(value, 39);
  }

  /** Printing is short enough to read back, begins and ends with a digit, and matches as printed. */
  lemma PrintedMatches(value: nat, decimals: nat)
    requires value < U128_LIMIT && decimals <= MAX_DECIMALS
    ensures var whole, f := ToDecimal(Quotient(value, Pow10(decimals))), FractionOf(value, decimals);
      var text := Printed(value, decimals);
      && |text| <= MAX_INPUT_LENGTH && Trim(text) == text && AllDigits(f)
      && MatchDecimal(text) == Some(Plain(whole, f))
  {
    hide Pow10, ToDecimal, FractionOf, MatchDecimal, Trim, Printed, Quotient;
    var whole, f := ToDecimal(Quotient(value, Pow10(decimals))), FractionOf(value, decimals);
    PrintedIs(value, decimals);
    FractionMeans(value, decimals);
    QuotientSmall(value, Pow10(decimals));
    U128Digits(Quotient(value, Pow10(decimals)));
    MatchPlain(whole, f);
    TrimNothing(Printed(value, decimals));
  }

  /** Every amount reads back from its printed form, at every number of decimals. */
  lemma ParseInvertsFormat(value: nat, decimals: nat)
    requires 0 < value < U128_LIMIT && decimals <= MAX_DECIMALS
    ensures FormatTokenAmount(value, decimals).Success?
    ensures ParseTokenAmount(FormatTokenAmount(value, decimals).value, decimals) == Success(value)
  {
    hide Pow10, ToDecimal, FractionOf, MatchDecimal, Trim, Printed, AtomicText, Quotient, Remainder, PadEnd;
    var scale := Pow10(decimals);
    PrintedMatches(value, decimals);
    FractionMeans(value, decimals);
    ValueOfDecimal(Quotient(value, scale));
    AtomicValue(Plain(ToDecimal(Quotient(value, scale)), FractionOf(value, decimals)), decimals);
    SplitValue(value, scale);
  }

  lemma SplitValue(value: nat, scale: nat)
    requires scale > 0
    ensures value == Quotient(value, scale) * scale + Remainder(value, scale)
  {
    DivisionExpands(value, scale);
  }

  /** An accepted text is worth exactly what its digits say: no rounding and no lost place. */
  lemma ParseIsExact(s: string, decimals: nat)
    requires ParseTokenAmount(s, decimals).Success?
    ensures MatchDecimal(Trim(s)).Some?
    ensures var m, v := MatchDecimal(Trim(s)).value, ParseTokenAmount(s, decimals).value;
      v * Pow10(|m.fraction|) == Value(m.whole + m.fraction) * Pow10(decimals) && 0 < v < U128_LIMIT
  {
    hide AtomicText, MatchDecimal, Trim, Pow10, Value, PadEnd;
    var m := MatchDecimal(Trim(s)).value;
    var k := |m.fraction|;
    AtomicValue(m, decimals);
    PadEndValue(m.fraction, decimals);
    ValueConcat(m.whole, m.fraction);
    PowSum(k, decimals - k);
    Rescale(Value(m.whole), Value(m.fraction), Pow10(k), Pow10(decimals - k));
  }

  lemma {:induction false} PowSum(a: nat, b: nat)
    ensures Pow10(a + b) == Pow10(a) * Pow10(b)
  {
    if b == 0 {
    } else {
      PowSum(a, b - 1);
      assert Pow10(a) * (10 * Pow10(b - 1)) == 10 * (Pow10(a) * Pow10(b - 1));
    }
  }

  lemma PadEndValue(s: string, width: nat)
    requires AllDigits(s) && |s| <= width
    ensures AllDigits(PadEnd(s, width)) && Value(PadEnd(s, width)) == Value(s) * Pow10(width - |s|)
  {
    ValueConcat(s, Zeros(width - |s|));
    ValueOfZeros(width - |s|);
    if |s| == width {
      assert s + Zeros(0) == s;
    }
  }

  lemma Rescale(w: nat, f: nat, p: nat, q: nat)
    ensures (w * (p * q) + f * q) * p == (w * p + f) * (p * q)
  {
    Distribute(w * (p * q), f * q, p);
    Distribute(w * p, f, p * q);
    assert (w * (p * q)) * p == (w * p) * (p * q);
    assert (f * q) * p == f * (p * q);
  }

  // ---------- one canonical spelling ----------

  /** No leading zero but a lone one, a point only before a fraction, no trailing zero after it. */
  predicate Canonical(s: string) {
    var m := MatchDecimal(s);
    && m.Some?
    && (m.value.whole[0] == '0' ==> m.value.whole == "0")
    && s == (if m.value.fraction == "" then m.value.whole else m.value.whole + "." + m.value.fraction)
    && (m.value.fraction != "" ==> m.value.fraction[|m.value.fraction| - 1] != '0')
  }

  lemma PrintedIsCanonical(value: nat, decimals: nat)
    requires value < U128_LIMIT && decimals <= MAX_DECIMALS
    ensures Canonical(Printed(value, decimals))
  {
    hide Pow10, ToDecimal, FractionOf, MatchDecimal, Trim, Printed, Quotient;
    PrintedIs(value, decimals);
    PrintedMatches(value, decimals);
    FractionMeans(value, decimals);
    ValueOfDecimal(Quotient(value, Pow10(decimals)));
  }

  lemma StrippedFraction(f: string, decimals: nat)
    requires AllDigits(f) && |f| <= decimals && (f != "" ==> f[|f| - 1] != '0')
    ensures StripTrailingZeros(PadEnd(f, decimals)) == f
  {
    StripZeros(f, decimals - |f|);
    if |f| == decimals { assert f + Zeros(0) == f; }
  }

  lemma {:induction false} StripZeros(f: string, n: nat)
    requires f != "" ==> f[|f| - 1] != '0'
    ensures StripTrailingZeros(f + Zeros(n)) == f
  {
    if n == 0 {
      assert f + Zeros(0) == f;
    } else {
      StripZeros(f, n - 1);
      assert (f + Zeros(n))[..|f| + n - 1] == f + Zeros(n - 1);
    }
  }

  /** A canonical text is what its value prints as. */
  lemma CanonicalIsPrinted(s: string, decimals: nat)
    requires decimals <= MAX_DECIMALS && Canonical(s) && |MatchDecimal(s).value.fraction| <= decimals
    ensures Printed(Value(AtomicText(MatchDecimal(s).value, decimals)), decimals) == s
  {
    hide Pow10, ToDecimal, MatchDecimal, Trim, Printed, AtomicText, Quotient, Remainder, PadEnd;
    var m, scale := MatchDecimal(s).value, Pow10(decimals);
    var v := Value(AtomicText(m, decimals));
    var padded := PadEnd(m.fraction, decimals);
    AtomicValue(m, decimals);
    PaddedLength(m.fraction, decimals);
    ValueBound(padded);
    SplitIs(v, scale, Value(m.whole), Value(padded));
    DecimalOfValue(m.whole);
    FractionMeans(v, decimals);
    SameLengthSameValue(PadEnd(FractionOf(v, decimals), decimals), padded);
    StrippedFraction(FractionOf(v, decimals), decimals);
    StrippedFraction(m.fraction, decimals);
    PrintedIs(v, decimals);
  }

  lemma PaddedLength(s: string, width: nat)
    requires |s| <= width
    ensures |PadEnd(s, width)| == width
  {
  }

  lemma SplitIs(value: nat, scale: nat, q: nat, r: nat)
    requires scale > 0 && r < scale && value == q * scale + r
    ensures Quotient(value, scale) == q && Remainder(value, scale) == r
  {
    RemainderIsUnique(value, scale, q, r);
    DivisionExpands(value, scale);
    SameFactor(value / scale, q, scale);
  }

  /**
   Printing what was parsed gives back the text exactly when it was canonical, and printing always
   gives the canonical text, so parse and print settle after one round.
   */
  lemma FormatGivesTheCanonicalSpelling(s: string, decimals: nat)
    requires ParseTokenAmount(s, decimals).Success?
    ensures var printed := FormatTokenAmount(ParseTokenAmount(s, decimals).value, decimals);
      && printed.Success? && Canonical(printed.value)
      && (printed.value == s <==> Canonical(s))
      && ParseTokenAmount(printed.value, decimals) == ParseTokenAmount(s, decimals)
  {
    hide MatchDecimal, Trim, Printed, AtomicText, Canonical;
    var v := ParseTokenAmount(s, decimals).value;
    PrintedIsCanonical(v, decimals);
    ParseInvertsFormat(v, decimals);
    if Canonical(s) {
      CanonicalIsTrimmed(s);
      CanonicalIsPrinted(s, decimals);
    }
  }

  lemma CanonicalIsTrimmed(s: string)
    requires Canonical(s)
    ensures Trim(s) == s && MatchDecimal(s).Some?
  {
    hide MatchDecimal;
    TrimNothing(s);
  }
}
