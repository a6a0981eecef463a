/**
 The body of a chat record for several recipients: the byte layout with its parser, the order of
 the slots, and the nonces derived for them.
 */
module MailWire {
  import opened Arithmetic
  import opened Wrappers
  import opened FeltPacking

  const MARKER: Bytes := [65, 50, 48]
  const VERSION: byte := 1

  datatype Slot = Slot(tag: Bytes, wrappedDek: Bytes)

  datatype MultiBody = MultiBody(slots: seq<Slot>, bodyNonce: Bytes, bodyCiphertext: Bytes)

  datatype ParseError = MarkerMissing | HeaderTruncated | UnsupportedVersion | BadSlotCount | Truncated

  ghost predicate WellFormedSlots(slots: seq<Slot>) {
    forall i :: 0 <= i < |slots| ==>
      |slots[i].tag| == MULTI_SLOT_TAG_BYTES && |slots[i].wrappedDek| == WRAPPED_DEK_BYTES
  }

  ghost predicate WellFormed(m: MultiBody) {
    && 2 <= |m.slots| <= MAX_MULTI_RECIPIENTS && WellFormedSlots(m.slots)
    && |m.bodyNonce| == NONCE_BYTES && |m.bodyCiphertext| >= AES_TAG_BYTES
  }

  // ---------- layout and parser ----------

  function Flatten(slots: seq<Slot>): Bytes {
    if slots == [] then []
    else Flatten(slots[..|slots| - 1]) + (slots[|slots| - 1].tag + slots[|slots| - 1].wrappedDek)
  }

  function Layout(m: MultiBody): Bytes
    requires |m.slots| < 256
  {
    MARKER + [VERSION, |m.slots|] + Flatten(m.slots) + m.bodyNonce + m.bodyCiphertext
  }

  predicate HasMarker(bytes: Bytes) {
    |bytes| >= 3 && bytes[0] == MARKER[0] && bytes[1] == MARKER[1] && bytes[2] == MARKER[2]
  }

  /** Where the slot with this index begins. */
  function Offset(index: nat): nat {
    MULTI_HEADER_BYTES + index * MULTI_RECIPIENT_SLOT_BYTES
  }

  function SlotAt(bytes: Bytes, index: nat): Slot
    requires |bytes| >= Offset(index + 1)
  {
    var offset := Offset(index);
    Slot(bytes[offset..offset + MULTI_SLOT_TAG_BYTES],
         bytes[offset + MULTI_SLOT_TAG_BYTES..offset + MULTI_RECIPIENT_SLOT_BYTES])
  }

  function SlotsOf(bytes: Bytes, count: nat): seq<Slot>
    requires |bytes| >= Offset(count)
  {
    if count == 0 then [] else SlotsOf(bytes, count - 1) + [SlotAt(bytes, count - 1)]
  }

  /** Where a parser reading from the front must stop, or what it must return. */
  function Parse(bytes: Bytes): Result<MultiBody, ParseError> {
    if !HasMarker(bytes) then Failure(MarkerMissing)
    else if |bytes| < MULTI_HEADER_BYTES then Failure(HeaderTruncated)
    else if bytes[3] != VERSION then Failure(UnsupportedVersion)
    else if !(2 <= bytes[4] <= MAX_MULTI_RECIPIENTS) then Failure(BadSlotCount)
    else
      var bodyNonceOffset := MULTI_HEADER_BYTES + bytes[4] * MULTI_RECIPIENT_SLOT_BYTES;
      if |bytes| < bodyNonceOffset + NONCE_BYTES + AES_TAG_BYTES then Failure(Truncated)
      else Success(MultiBody(SlotsOf(bytes, bytes[4]),
                             bytes[bodyNonceOffset..bodyNonceOffset + NONCE_BYTES],
                             bytes[bodyNonceOffset + NONCE_BYTES..]))
  }

  method ParseMultiRecipientCiphertext(bytes: Bytes) returns (r: Result<MultiBody, ParseError>)
    ensures r == Parse(bytes)
  {
    hide SlotAt;
    if !HasMarker(bytes) { return Failure(MarkerMissing); }
    if |bytes| < MULTI_HEADER_BYTES { return Failure(HeaderTruncated); }
    if bytes[3] != VERSION { return Failure(UnsupportedVersion); }
    var slotCount := bytes[4];
    if slotCount < 2 || slotCount > MAX_MULTI_RECIPIENTS { return Failure(BadSlotCount); }
    var bodyNonceOffset := MULTI_HEADER_BYTES + slotCount * MULTI_RECIPIENT_SLOT_BYTES;
    if |bytes| < bodyNonceOffset + NONCE_BYTES + AES_TAG_BYTES { return Failure(Truncated); }
    var slots: seq<Slot> := [];
    for index := 0 to slotCount
      invariant slots == SlotsOf(bytes, index)
    {
      slots := slots + [SlotAt(bytes, index)];
    }
    return Success(MultiBody(slots, bytes[bodyNonceOffset..bodyNonceOffset + NONCE_BYTES],
                             bytes[bodyNonceOffset + NONCE_BYTES..]));
  }

  lemma {:induction false} FlattenLength(slots: seq<Slot>)
    requires WellFormedSlots(slots)
    ensures |Flatten(slots)| == |slots| * MULTI_RECIPIENT_SLOT_BYTES
  {
    if slots == [] {
    } else {
      var front, last := slots[..|slots| - 1], slots[|slots| - 1];
      FlattenLength(front);
      assert |Flatten(slots)| == |Flatten(front)| + |last.tag| + |last.wrappedDek|;
    }
  }

  lemma {:induction false} FlattenInvertsSlots(bytes: Bytes, count: nat)
    requires |bytes| >= Offset(count)
    ensures |SlotsOf(bytes, count)| == count && WellFormedSlots(SlotsOf(bytes, count))
    ensures Flatten(SlotsOf(bytes, count))
         == bytes[MULTI_HEADER_BYTES..Offset(count)]
  {
    if count > 0 {
      hide SlotAt, Flatten, Offset, WellFormedSlots;
      OffsetStep(count - 1);
      FlattenInvertsSlots(bytes, count - 1);
      FlattenAppend(SlotsOf(bytes, count - 1), SlotAt(bytes, count - 1));
      SlotSpans(bytes, count - 1);
      var offset := Offset(count - 1);
      Splice(bytes, MULTI_HEADER_BYTES, offset, offset + MULTI_RECIPIENT_SLOT_BYTES);
      AppendWellFormed(SlotsOf(bytes, count - 1), SlotAt(bytes, count - 1));
    } else {
      assert bytes[MULTI_HEADER_BYTES..MULTI_HEADER_BYTES] == [];
    }
  }

  lemma OffsetStep(index: nat)
    ensures Offset(index + 1) == Offset(index) + MULTI_RECIPIENT_SLOT_BYTES && Offset(index) >= MULTI_HEADER_BYTES
  {
  }

  lemma AppendWellFormed(slots: seq<Slot>, slot: Slot)
    requires WellFormedSlots(slots) && |slot.tag| == MULTI_SLOT_TAG_BYTES && |slot.wrappedDek| == WRAPPED_DEK_BYTES
    ensures WellFormedSlots(slots + [slot])
  {
  }

  lemma FlattenAppend(slots: seq<Slot>, slot: Slot)
    ensures Flatten(slots + [slot]) == Flatten(slots) + (slot.tag + slot.wrappedDek)
  {
    assert (slots + [slot])[..|slots|] == slots;
  }

  lemma Splice(bytes: Bytes, a: nat, b: nat, c: nat)
    requires a <= b <= c <= |bytes|
    ensures bytes[a..b] + bytes[b..c] == bytes[a..c]
  {
  }

  lemma SlotSpans(bytes: Bytes, index: nat)
    requires |bytes| >= Offset(index + 1)
    ensures var slot, offset := SlotAt(bytes, index), Offset(index);
      && slot.tag + slot.wrappedDek == bytes[offset..offset + MULTI_RECIPIENT_SLOT_BYTES]
      && |slot.tag| == MULTI_SLOT_TAG_BYTES && |slot.wrappedDek| == WRAPPED_DEK_BYTES
  {
  }

  lemma {:induction false} SlotsInvertFlatten(slots: seq<Slot>, header: Bytes, rest: Bytes)
    requires WellFormedSlots(slots) && |header| == MULTI_HEADER_BYTES
    ensures |Flatten(slots)| == |slots| * MULTI_RECIPIENT_SLOT_BYTES
    ensures SlotsOf(header + Flatten(slots) + rest, |slots|) == slots
  {
    FlattenLength(slots);
    if slots == [] {
    } else {
      var front, last := slots[..|slots| - 1], slots[|slots| - 1];
      FlattenLength(front);
      SlotsInvertFlatten(front, header, last.tag + last.wrappedDek + rest);
      var bytes := header + Flatten(slots) + rest;
      assert bytes == header + Flatten(front) + (last.tag + last.wrappedDek + rest);
      LastSlot(header + Flatten(front), last, rest, |front|);
      assert bytes == header + Flatten(front) + last.tag + last.wrappedDek + rest;
    }
  }

  lemma LastSlot(before: Bytes, slot: Slot, rest: Bytes, index: nat)
    requires |before| == Offset(index)
    requires |slot.tag| == MULTI_SLOT_TAG_BYTES && |slot.wrappedDek| == WRAPPED_DEK_BYTES
    ensures |before + slot.tag + slot.wrappedDek + rest| >= Offset(index + 1)
    ensures SlotAt(before + slot.tag + slot.wrappedDek + rest, index) == slot
  {
  }

  lemma ParseInvertsLayout(m: MultiBody)
    requires WellFormed(m)
    ensures Parse(Layout(m)) == Success(m) && HasMarker(Layout(m))
    ensures |Layout(m)| == FixedOverhead(|m.slots|) + (|m.bodyCiphertext| - AES_TAG_BYTES)
  {
    var n := |m.slots|;
    var header := MARKER + [VERSION, n];
    SlotsInvertFlatten(m.slots, header, m.bodyNonce + m.bodyCiphertext);
    var bytes := Layout(m);
    assert bytes == header + Flatten(m.slots) + (m.bodyNonce + m.bodyCiphertext);
    assert bytes[..5] == header && bytes[4] == n && bytes[3] == VERSION;
    var at := MULTI_HEADER_BYTES + n * MULTI_RECIPIENT_SLOT_BYTES;
    assert bytes[at..at + NONCE_BYTES] == m.bodyNonce;
    assert bytes[at + NONCE_BYTES..] == m.bodyCiphertext;
  }

  lemma LayoutInvertsParse(bytes: Bytes)
    requires Parse(bytes).Success?
    ensures WellFormed(Parse(bytes).value) && Layout(Parse(bytes).value) == bytes
  {
    var n := bytes[4];
    FlattenInvertsSlots(bytes, n);
    var at := MULTI_HEADER_BYTES + n * MULTI_RECIPIENT_SLOT_BYTES;
    assert bytes[..5] == MARKER + [VERSION, n];
    assert bytes == bytes[..5] + bytes[5..at] + bytes[at..at + NONCE_BYTES] + bytes[at + NONCE_BYTES..];
  }

  /** The parser accepts exactly the laid-out bodies: no byte string has a second reading. */
  lemma ParseAcceptsLayouts(bytes: Bytes)
    ensures Parse(bytes).Success? <==> exists m :: WellFormed(m) && Layout(m) == bytes
    ensures Parse(bytes).Success? ==> WellFormed(Parse(bytes).value) && Layout(Parse(bytes).value) == bytes
  {
    hide Parse, Layout;
    if Parse(bytes).Success? {
      LayoutInvertsParse(bytes);
    }
    if m :| WellFormed(m) && Layout(m) == bytes {
      ParseInvertsLayout(m);
    }
  }

  // ---------- byte order ----------

  /** Negative, zero or positive as `left` comes before, equals or comes after `right`. */
  function Compare(left: Bytes, right: Bytes): int {
    if left == [] || right == [] then |left| - |right|
    else if left[0] != right[0] then left[0] - right[0]
    else Compare(left[1..], right[1..])
  }

  method CompareBytes(left: Bytes, right: Bytes) returns (order: int)
    ensures order == Compare(left, right)
  {
    for index := 0 to if |left| < |right| then |left| else |right|
      invariant Compare(left[index..], right[index..]) == Compare(left, right)
    {
      assert left[index..][1..] == left[index + 1..] && right[index..][1..] == right[index + 1..];
      var l: int, r: int := left[index], right[index];
      if l != r { return l - r; }
    }
    return |left| - |right|;
  }

  lemma {:induction false} CompareEqual(left: Bytes, right: Bytes)
    ensures Compare(left, right) == 0 <==> left == right
    ensures Compare(left, right) == -Compare(right, left)
  {
    if left != [] && right != [] {
      CompareEqual(left[1..], right[1..]);
      assert left == [left[0]] + left[1..] && right == [right[0]] + right[1..];
    }
  }

  lemma {:induction false} CompareTransitive(a: Bytes, b: Bytes, c: Bytes)
    requires Compare(a, b) <= 0 && Compare(b, c) <= 0
    ensures Compare(a, c) <= 0
  {
    if a != [] && b != [] && c != [] {
      if a[0] == b[0] == c[0] {
        CompareTransitive(a[1..], b[1..], c[1..]);
      }
    }
  }

  // ---------- slot nonces ----------

  function Xor(a: nat, b: nat, bits: nat): (r: nat)
    ensures r < Pow2(bits)
  {
    if bits == 0 then 0 else (if a % 2 == b % 2 then 0 else 1) + 2 * Xor(a / 2, b / 2, bits - 1)
  }

  function XorByte(a: byte, b: byte): byte {
    assert Pow2(8) == 256;
    Xor(a, b, 8)
  }

  lemma {:induction false} XorCancels(a: nat, b: nat, c: nat, bits: nat)
    requires b < Pow2(bits) && c < Pow2(bits)
    requires Xor(a, b, bits) == Xor(a, c, bits)
    ensures b == c
  {
    if bits == 0 {
    } else {
      XorCancels(a / 2, b / 2, c / 2, bits - 1);
    }
  }

  lemma {:induction false} XorZero(a: nat, bits: nat)
    requires a < Pow2(bits)
    ensures Xor(a, 0, bits) == a
  {
    if bits == 0 {
    } else {
      XorZero(a / 2, bits - 1);
    }
  }

  /** The base-256 digit of a counter, digit 0 the least significant. */
  function Digit(counter: nat, place: nat): byte {
    if place == 0 then counter % 256 else Digit(counter / 256, place - 1)
  }

  lemma {:induction false} DigitsDetermine(c: nat, d: nat, places: nat)
    requires c < Pow256(places) && d < Pow256(places)
    requires forall k :: 0 <= k < places ==> Digit(c, k) == Digit(d, k)
    ensures c == d
  {
    if places == 0 {
    } else {
      forall k | 0 <= k < places - 1
        ensures Digit(c / 256, k) == Digit(d / 256, k)
      {
        assert Digit(c, k + 1) == Digit(d, k + 1);
      }
      DigitsDetermine(c / 256, d / 256, places - 1);
      assert Digit(c, 0) == Digit(d, 0);
    }
  }

  /** The record nonce with the slot number, counted from one, folded into its last four bytes. */
  function SlotNonce(nonce: Bytes, slotIndex: nat): (derived: Bytes)
    requires |nonce| == NONCE_BYTES
    ensures |derived| == NONCE_BYTES
  {
    seq(NONCE_BYTES, k requires 0 <= k < NONCE_BYTES =>
      if k < 8 then nonce[k] else XorByte(nonce[k], Digit(slotIndex + 1, 11 - k)))
  }

  method MultiSlotNonce(nonce: Bytes, slotIndex: nat) returns (derived: Bytes)
    requires |nonce| == NONCE_BYTES
    ensures derived == SlotNonce(nonce, slotIndex)
  {
    var bytes := new byte[NONCE_BYTES](k requires 0 <= k < NONCE_BYTES => nonce[k]);
    var counter := slotIndex + 1;
    for place := 0 to 4
      invariant forall k :: 0 <= k < 12 - place ==> bytes[k] == nonce[k]
      invariant forall k :: 12 - place <= k < 12 ==> bytes[k] == XorByte(nonce[k], Digit(counter, 11 - k))
    {
      bytes[11 - place] := XorByte(bytes[11 - place], Digit(counter, place));
    }
    derived := bytes[..];
  }

  const COUNTER_LIMIT: nat := 0x1_0000_0000

  lemma SameDerivedDigits(nonce: Bytes, c: nat, d: nat)
    requires |nonce| == NONCE_BYTES && c > 0 && d > 0 && SlotNonce(nonce, c - 1) == SlotNonce(nonce, d - 1)
    ensures forall k :: 0 <= k < 4 ==> Digit(c, k) == Digit(d, k)
  {
    hide Digit;
    forall k | 0 <= k < 4
      ensures Digit(c, k) == Digit(d, k)
    {
      assert SlotNonce(nonce, c - 1)[11 - k] == SlotNonce(nonce, d - 1)[11 - k];
      assert Pow2(8) == 256;
      XorCancels(nonce[11 - k], Digit(c, k), Digit(d, k), 8);
    }
  }

  lemma NonceKeptMeansZeroDigits(nonce: Bytes, c: nat)
    requires |nonce| == NONCE_BYTES && c > 0 && SlotNonce(nonce, c - 1) == nonce
    ensures forall k :: 0 <= k < 4 ==> Digit(c, k) == 0
  {
    hide Digit;
    forall k | 0 <= k < 4
      ensures Digit(c, k) == 0
    {
      assert SlotNonce(nonce, c - 1)[11 - k] == nonce[11 - k];
      assert Pow2(8) == 256;
      XorZero(nonce[11 - k], 8);
      XorCancels(nonce[11 - k], Digit(c, k), 0, 8);
    }
  }

  /** No two slots share a nonce, and none has the record's own, for every 32-bit slot counter. */
  lemma SlotNoncesAreDistinct(nonce: Bytes, i: nat, j: nat)
    requires |nonce| == NONCE_BYTES && i + 1 < COUNTER_LIMIT && j + 1 < COUNTER_LIMIT
    ensures SlotNonce(nonce, i) == SlotNonce(nonce, j) <==> i == j
    ensures SlotNonce(nonce, i) != nonce
  {
    hide SlotNonce, Digit;
    assert Pow256(4) == COUNTER_LIMIT;
    if SlotNonce(nonce, i) == SlotNonce(nonce, j) {
      SameDerivedDigits(nonce, i + 1, j + 1);
      DigitsDetermine(i + 1, j + 1, 4);
    }
    if SlotNonce(nonce, i) == nonce {
      NonceKeptMeansZeroDigits(nonce, i + 1);
      ZeroDigits();
      DigitsDetermine(i + 1, 0, 4);
    }
  }

  lemma ZeroDigits()
    ensures forall k :: 0 <= k < 4 ==> Digit(0, k) == 0
  {
    forall k | 0 <= k < 4
      ensures Digit(0, k) == 0
    {
      assert Digit(0, 0) == Digit(0, 1) == Digit(0, 2) == Digit(0, 3) == 0;
    }
  }
}
