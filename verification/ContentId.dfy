/**
 Content identifiers: lower-case unpadded base32 (section 6 of RFC 4648) by bit accumulation,
 proved against the encoded number, and the 59-character identifier built from it.
 */
module ContentId {
  import opened Arithmetic
  import opened FeltPacking

  const ALPHABET := "abcdefghijklmnopqrstuvwxyz234567"
  const CID_PREFIX: Bytes := [0x01, 0x55, 0x12, 0x20]
  const SHA2_256_BYTES: nat := 32

  type digit = n: int | 0 <= n < 32

  // ---------- the specification: one number in two bases ----------

  function Value32(digits: seq<digit>): nat {
    if digits == [] then 0 else Value32(digits[..|digits| - 1]) * 32 + digits[|digits| - 1]
  }

  function Digits32(value: nat, count: nat): (digits: seq<digit>)
    ensures |digits| == count
  {
    if count == 0 then [] else Digits32(value / 32, count - 1) + [value % 32]
  }

  function DigitCount(n: nat): nat {
    (8 * n + 4) / 5
  }

  /** The zero bits after the last byte, to reach a multiple of five. */
  function PaddingBits(n: nat): nat {
    5 * DigitCount(n) - 8 * n
  }

  function Text(digits: seq<digit>): (s: string)
    ensures |s| == |digits|
  {
    seq(|digits|, i requires 0 <= i < |digits| => ALPHABET[digits[i]])
  }

  /** The bits of the input as one number, zeros appended to a multiple of five, five bits a letter. */
  function Base32(bytes: Bytes): string {
    Text(Digits32(ValueOf(bytes) * Pow2(PaddingBits(|bytes|)), DigitCount(|bytes|)))
  }

  // ---------- the accumulator loop ----------

  lemma {:induction false} DigitsOfValue(digits: seq<digit>)
    ensures Digits32(Value32(digits), |digits|) == digits
  {
    if digits == [] {
    } else {
      DigitsOfValue(digits[..|digits| - 1]);
    }
  }

  lemma AppendDigit(digits: seq<digit>, d: digit)
    ensures Value32(digits + [d]) == Value32(digits) * 32 + d
  {
    assert (digits + [d])[..|digits|] == digits;
  }

  lemma AppendByte(bytes: Bytes, i: nat)
    requires i < |bytes|
    ensures ValueOf(bytes[..i + 1]) == ValueOf(bytes[..i]) * 256 + bytes[i]
  {
    assert bytes[..i + 1][..i] == bytes[..i];
  }

  /** Five bits leave the accumulator as one digit; the number they stand for does not change. */
  lemma EmitKeepsValue(value: nat, accumulator: nat, bits: nat)
    requires 5 <= bits <= 12
    ensures value * Pow2(bits) + accumulator % Pow2(bits)
         == (value * 32 + accumulator / Pow2(bits - 5) % 32) * Pow2(bits - 5) + accumulator % Pow2(bits - 5)
  {
    hide Pow2;
    var p := Pow2(bits - 5);
    PowerStep(bits);
    SplitModulus(accumulator, p);
    var d := accumulator / p % 32;
    calc {
      value * (32 * p) + (d * p + accumulator % p);
      (value * 32) * p + d * p + accumulator % p;
      (value * 32 + d) * p + accumulator % p;
    }
  }

  lemma SplitModulus(a: nat, p: nat)
    requires p > 0
    ensures a % (32 * p) == (a / p % 32) * p + a % p
  {
    var q := a / p;
    var u, v, r := q / 32, q % 32, a % p;
    DivisionExpands(a, p);
    assert q * p == (u * 32 + v) * p;
    Distribute(u * 32, v, p);
    assert (u * 32) * p == u * (32 * p);
    BelowMultiple(v, 31, p);
    RemainderIsUnique(a, 32 * p, u, v * p + r);
  }

  lemma AppendLetter(digits: seq<digit>, d: digit)
    ensures Text(digits + [d]) == Text(digits) + [ALPHABET[d]]
  {
  }

  /** The inner loop: emit a letter while five bits are waiting. The accumulator is read, not yet masked. */
  method EmitLetters(text: string, ghost digits: seq<digit>, accumulator: nat, bits: nat)
    returns (encoded: string, ghost all: seq<digit>, left: nat)
    requires bits < 13 && text == Text(digits)
    ensures left < 5 && encoded == Text(all)
    ensures 5 * |all| + left == 5 * |digits| + bits
    ensures Value32(all) * Pow2(left) + accumulator % Pow2(left)
        == Value32(digits) * Pow2(bits) + accumulator % Pow2(bits)
  {
    hide Value32, Pow2, Text;
    encoded, all, left := text, digits, bits;
    while left >= 5
      invariant left < 13 && encoded == Text(all)
      invariant 5 * |all| + left == 5 * |digits| + bits
      invariant Value32(all) * Pow2(left) + accumulator % Pow2(left)
             == Value32(digits) * Pow2(bits) + accumulator % Pow2(bits)
    {
      EmitKeepsValue(Value32(all), accumulator, left);
      left := left - 5;
      var d: digit := accumulator / Pow2(left) % 32;
      AppendDigit(all, d);
      AppendLetter(all, d);
      encoded := encoded + [ALPHABET[d]];
      all := all + [d];
    }
  }

  /** Taking in a byte shifts the number by eight bits, and the accumulator still fits below it. */
  lemma TakeByte(value: nat, accumulator: nat, bits: nat, b: byte)
    requires accumulator < Pow2(bits)
    ensures value * Pow2(bits + 8) + (accumulator * 256 + b) % Pow2(bits + 8)
         == (value * Pow2(bits) + accumulator) * 256 + b
  {
    hide Pow2;
    EightMore(bits);
    var p := Pow2(bits);
    RemainderIsUnique(accumulator * 256 + b, 256 * p, 0, accumulator * 256 + b);
    calc {
      (value * p + accumulator) * 256 + b;
      (value * p) * 256 + accumulator * 256 + b;
      value * (256 * p) + accumulator * 256 + b;
    }
  }

  /** The last letter holds the waiting bits, moved up to the top of its five. */
  lemma LastDigit(value: nat, accumulator: nat, bits: nat)
    requires 0 < bits < 5 && accumulator < Pow2(bits)
    ensures accumulator * Pow2(5 - bits) < 32
    ensures value * 32 + accumulator * Pow2(5 - bits) == (value * Pow2(bits) + accumulator) * Pow2(5 - bits)
  {
    hide Pow2;
    SmallPowers();
    match bits {
      case 1 => assert Pow2(bits) == 2 && Pow2(5 - bits) == 16;
      case 2 => assert Pow2(bits) == 4 && Pow2(5 - bits) == 8;
      case 3 => assert Pow2(bits) == 8 && Pow2(5 - bits) == 4;
      case _ => assert Pow2(bits) == 16 && Pow2(5 - bits) == 2;
    }
  }

  method Base32Lower(bytes: Bytes) returns (encoded: string)
    ensures encoded == Base32(bytes)
  {
    hide Value32, Pow2, Text, ValueOf, Digits32, Base32, DigitCount, PaddingBits;
    SmallPowers();
    EmptyValues();
    var bits: nat, accumulator: nat := 0, 0;
    ghost var digits: seq<digit> := [];
    encoded := "";
    for i := 0 to |bytes|
      invariant bits < 5 && accumulator < Pow2(bits) && 5 * |digits| + bits == 8 * i
      invariant Value32(digits) * Pow2(bits) + accumulator == ValueOf(bytes[..i])
      invariant encoded == Text(digits)
    {
      TakeByte(Value32(digits), accumulator, bits, bytes[i]);
      AppendByte(bytes, i);
      accumulator := accumulator * 256 + bytes[i];
      encoded, digits, bits := EmitLetters(encoded, digits, accumulator, bits + 8);
      accumulator := accumulator % Pow2(bits);
    }
    assert bytes[..|bytes|] == bytes;
    encoded := LastLetter(bytes, encoded, digits, accumulator, bits);
  }

  lemma LastDigitSpells(digits: seq<digit>, d: digit, accumulator: nat, bits: nat)
    requires 0 < bits < 5 && accumulator < Pow2(bits) && d == accumulator * Pow2(5 - bits) % 32
    ensures Value32(digits + [d]) == (Value32(digits) * Pow2(bits) + accumulator) * Pow2(5 - bits)
  {
    hide Value32, Pow2;
    LastDigit(Value32(digits), accumulator, bits);
    AppendDigit(digits, d);
  }

  method LastLetter(ghost bytes: Bytes, text: string, ghost digits: seq<digit>, accumulator: nat, bits: nat)
    returns (encoded: string)
    requires bits < 5 && accumulator < Pow2(bits) && 5 * |digits| + bits == 8 * |bytes| && text == Text(digits)
    requires Value32(digits) * Pow2(bits) + accumulator == ValueOf(bytes)
    ensures encoded == Base32(bytes)
  {
    hide Value32, Pow2, Text, ValueOf, Digits32, Base32, DigitCount, PaddingBits;
    SmallPowers();
    DigitsNeeded(|bytes|, |digits|, bits);
    encoded := text;
    if bits > 0 {
      var d: digit := accumulator * Pow2(5 - bits) % 32;
      LastDigitSpells(digits, d, accumulator, bits);
      AppendLetter(digits, d);
      encoded := encoded + [ALPHABET[d]];
      SpelledOut(bytes, digits + [d]);
    } else {
      SpelledOut(bytes, digits);
    }
  }

  lemma DigitsNeeded(n: nat, count: nat, bits: nat)
    requires bits < 5 && 5 * count + bits == 8 * n
    ensures DigitCount(n) == if bits > 0 then count + 1 else count
    ensures PaddingBits(n) == if bits > 0 then 5 - bits else 0
  {
  }

  lemma SpelledOut(bytes: Bytes, digits: seq<digit>)
    requires |digits| == DigitCount(|bytes|)
    requires Value32(digits) == ValueOf(bytes) * Pow2(PaddingBits(|bytes|))
    ensures Text(digits) == Base32(bytes)
  {
    hide Value32, ValueOf, Pow2, Text, Digits32;
    DigitsOfValue(digits);
  }

  lemma EmptyValues()
    ensures Value32([]) == 0 && Text([]) == "" && ValueOf([]) == 0
  {
  }

  // ---------- no two byte strings share a spelling ----------

  lemma LettersAreDistinct(d: digit, e: digit)
    ensures ALPHABET[d] == ALPHABET[e] <==> d == e
  {
    LetterAt(d);
    LetterAt(e);
  }

  lemma LetterAt(d: digit)
    ensures ALPHABET[d] as int == if d < 26 then 'a' as int + d else '2' as int + d - 26
  {
  }

  lemma {:induction false} ValueOfDigits(value: nat, count: nat)
    requires value < Pow2(5 * count)
    ensures Value32(Digits32(value, count)) == value
  {
    if count == 0 {
    } else {
      PowerStep(5 * count);
      ValueOfDigits(value / 32, count - 1);
      assert Digits32(value, count)[..count - 1] == Digits32(value / 32, count - 1);
    }
  }

  lemma {:induction false} BytesArePowers(n: nat)
    ensures Pow256(n) == Pow2(8 * n)
  {
    if n == 0 {
    } else {
      BytesArePowers(n - 1);
      EightMore(8 * (n - 1));
    }
  }

  /** The padded number has no more digits than are written, so no bit is lost. */
  lemma PaddedValueFits(bytes: Bytes)
    ensures ValueOf(bytes) * Pow2(PaddingBits(|bytes|)) < Pow2(5 * DigitCount(|bytes|))
  {
    hide Pow2;
    var n := |bytes|;
    ValueBound(bytes);
    BytesArePowers(n);
    PowerSum(8 * n, PaddingBits(n));
    var p := Pow2(PaddingBits(n));
    BelowMultiple(ValueOf(bytes) + 1, Pow2(8 * n), p);
    Distribute(ValueOf(bytes), 1, p);
  }

  /** Distinct byte strings have distinct spellings, whatever their lengths. */
  lemma Base32IsInjective(a: Bytes, b: Bytes)
    ensures Base32(a) == Base32(b) <==> a == b
  {
    hide ValueOf, Pow2, Digits32, Value32;
    if Base32(a) == Base32(b) {
      assert |a| == |b| by {
        assert DigitCount(|a|) == |Base32(a)| == |Base32(b)| == DigitCount(|b|);
      }
      var p := Pow2(PaddingBits(|a|));
      var x, y := Digits32(ValueOf(a) * p, DigitCount(|a|)), Digits32(ValueOf(b) * p, DigitCount(|b|));
      forall i | 0 <= i < |x|
        ensures x[i] == y[i]
      {
        assert Text(x)[i] == Text(y)[i];
        LettersAreDistinct(x[i], y[i]);
      }
      assert x == y;
      PaddedValueFits(a);
      PaddedValueFits(b);
      ValueOfDigits(ValueOf(a) * p, DigitCount(|a|));
      ValueOfDigits(ValueOf(b) * p, DigitCount(|b|));
      SameFactor(ValueOf(a), ValueOf(b), p);
      FixedBytesOfValue(a);
      FixedBytesOfValue(b);
    }
  }

  // ---------- identifiers ----------

  function Joined(values: seq<Bytes>): Bytes {
    if values == [] then [] else Joined(values[..|values| - 1]) + values[|values| - 1]
  }

  function TotalLength(values: seq<Bytes>): (total: nat)
    ensures total == |Joined(values)|
  {
    if values == [] then 0 else TotalLength(values[..|values| - 1]) + |values[|values| - 1]|
  }

  lemma {:induction false} PrefixIsShorter(values: seq<Bytes>, k: nat)
    requires k <= |values|
    ensures |Joined(values[..k])| <= |Joined(values)|
    decreases |values| - k
  {
    if k < |values| {
      PrefixIsShorter(values, k + 1);
      assert values[..k + 1][..k] == values[..k];
    } else {
      assert values[..k] == values;
    }
  }

  method ConcatBytes(values: seq<Bytes>) returns (r: Bytes)
    ensures r == Joined(values)
  {
    hide Joined;
    var bytes := new byte[TotalLength(values)];
    var offset: nat := 0;
    NothingJoined(values);
    for i := 0 to |values|
      invariant offset <= bytes.Length && bytes[..offset] == Joined(values[..i])
    {
      PrefixIsShorter(values, i + 1);
      JoinOne(values, i);
      CopyInto(bytes, offset, values[i]);
      offset := offset + |values[i]|;
    }
    assert values[..|values|] == values;
    assert bytes[..offset] == bytes[..];
    r := bytes[..];
  }

  lemma NothingJoined(values: seq<Bytes>)
    ensures Joined(values[..0]) == []
  {
  }

  lemma JoinOne(values: seq<Bytes>, i: nat)
    requires i < |values|
    ensures Joined(values[..i + 1]) == Joined(values[..i]) + values[i]
  {
    assert values[..i + 1][..i] == values[..i];
  }

  function CidOfDigest(digest: Bytes): string {
    "b" + Base32(CID_PREFIX + digest)
  }

  lemma JoinedPair(a: Bytes, b: Bytes)
    ensures Joined([a, b]) == a + b
  {
    assert [a, b][..1] == [a] && [a][..0] == [];
    assert Joined([a]) == [] + a == a;
  }

  method ComputeCidV1Raw(sha256: Bytes -> Bytes, bytes: Bytes) returns (cid: string)
    ensures cid == CidOfDigest(sha256(bytes))
  {
    var input := ConcatBytes([CID_PREFIX, sha256(bytes)]);
    JoinedPair(CID_PREFIX, sha256(bytes));
    var text := Base32Lower(input);
    return "b" + text;
  }

  predicate CidLetter(c: char) {
    'a' <= c <= 'z' || '2' <= c <= '7'
  }

  predicate MatchesCidPattern(s: string) {
    |s| == 59 && s[0] == 'b' && forall i :: 1 <= i < |s| ==> CidLetter(s[i])
  }

  /** Every identifier of a 32-byte digest has the 59-character form the store insists on. */
  lemma CidsMatchTheirPattern(digest: Bytes)
    requires |digest| == SHA2_256_BYTES
    ensures MatchesCidPattern(CidOfDigest(digest))
  {
    hide Base32;
    assert |CID_PREFIX + digest| == 36;
    LettersOnly(CID_PREFIX + digest);
  }

  lemma LettersOnly(bytes: Bytes)
    ensures |Base32(bytes)| == DigitCount(|bytes|)
    ensures forall i :: 0 <= i < |Base32(bytes)| ==> CidLetter(Base32(bytes)[i])
  {
    hide Digits32, ValueOf, Pow2;
    var digits := Digits32(ValueOf(bytes) * Pow2(PaddingBits(|bytes|)), DigitCount(|bytes|));
    forall i | 0 <= i < |digits|
      ensures CidLetter(ALPHABET[digits[i]])
    {
      LetterAt(digits[i]);
    }
  }

  /** An identifier stands for one digest: equal identifiers mean equal content or a digest collision. */
  lemma CidsIdentifyContent(sha256: Bytes -> Bytes, a: Bytes, b: Bytes)
    ensures CidOfDigest(sha256(a)) == CidOfDigest(sha256(b)) <==> sha256(a) == sha256(b)
  {
    hide Base32;
    if CidOfDigest(sha256(a)) == CidOfDigest(sha256(b)) {
      assert CidOfDigest(sha256(a))[1..] == Base32(CID_PREFIX + sha256(a));
      assert CidOfDigest(sha256(b))[1..] == Base32(CID_PREFIX + sha256(b));
      Base32IsInjective(CID_PREFIX + sha256(a), CID_PREFIX + sha256(b));
      assert (CID_PREFIX + sha256(a))[4..] == sha256(a) && (CID_PREFIX + sha256(b))[4..] == sha256(b);
    }
  }
}
