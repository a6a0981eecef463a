/**
 Byte strings as lists of field elements: a length, then 31 big-endian bytes an element.
 Packing and unpacking are inverse bijections, and the size projection is exact.
 */
module FeltPacking {
  import opened Wrappers

  type byte = n: int | 0 <= n < 256

  type Bytes = seq<byte>

  const FELT_PAYLOAD_BYTES: nat := 31
  const MAX_CT_FELTS: nat := 140
  const MAX_PACKED_BYTES: nat := (MAX_CT_FELTS - 1) * FELT_PAYLOAD_BYTES
  const AES_KEY_BYTES: nat := 32
  const AES_TAG_BYTES: nat := 16
  const NONCE_BYTES: nat := 12
  const MULTI_HEADER_BYTES: nat := 5
  const MULTI_SLOT_TAG_BYTES: nat := 16
  const WRAPPED_DEK_BYTES: nat := AES_KEY_BYTES + AES_TAG_BYTES
  const MULTI_RECIPIENT_SLOT_BYTES: nat := MULTI_SLOT_TAG_BYTES + WRAPPED_DEK_BYTES
  const MULTI_FIXED_BYTES: nat := MULTI_HEADER_BYTES + NONCE_BYTES + AES_TAG_BYTES
  const MAX_MULTI_RECIPIENTS: nat := (MAX_PACKED_BYTES - MULTI_FIXED_BYTES) / MULTI_RECIPIENT_SLOT_BYTES
  const SAFE_INTEGER_LIMIT: nat := 0x20_0000_0000_0000

  datatype PackError = MissingLength | TooManyFelts | NegativeFelt | LengthTooLarge | CountMismatch | DoesNotFit

  // ---------- big-endian integers ----------

  function Pow256(n: nat): (p: nat)
    ensures p > 0
  {
    if n == 0 then 1 else 256 * Pow256(n - 1)
  }

  function ValueOf(bytes: Bytes): nat {
    if bytes == [] then 0 else ValueOf(bytes[..|bytes| - 1]) * 256 + bytes[|bytes| - 1]
  }

  /** The `length` low-order base-256 digits of a value, most significant first. */
  function FixedBytes(value: nat, length: nat): (bytes: Bytes)
    ensures |bytes| == length
  {
    if length == 0 then [] else FixedBytes(value / 256, length - 1) + [value % 256]
  }

  lemma {:induction false} ValueBound(bytes: Bytes)
    ensures ValueOf(bytes) < Pow256(|bytes|)
  {
    if bytes == [] {
    } else {
      ValueBound(bytes[..|bytes| - 1]);
    }
  }

  lemma {:induction false} FixedBytesOfValue(bytes: Bytes)
    ensures FixedBytes(ValueOf(bytes), |bytes|) == bytes
  {
    if bytes == [] {
    } else {
      FixedBytesOfValue(bytes[..|bytes| - 1]);
    }
  }

  lemma {:induction false} ValueOfFixedBytes(value: nat, length: nat)
    requires value < Pow256(length)
    ensures ValueOf(FixedBytes(value, length)) == value
  {
    if length == 0 {
    } else {
      ValueOfFixedBytes(value / 256, length - 1);
      var b := FixedBytes(value, length);
      assert b[..length - 1] == FixedBytes(value / 256, length - 1);
    }
  }

  method BytesToBigInt(bytes: Bytes) returns (value: nat)
    ensures value == ValueOf(bytes)
  {
    value := 0;
    for i := 0 to |bytes|
      invariant value == ValueOf(bytes[..i])
    {
      assert bytes[..i + 1][..i] == bytes[..i];
      value := value * 256 + bytes[i];
    }
    assert bytes[..|bytes|] == bytes;
  }

  method BigIntToFixedBytes(value: int, length: nat) returns (r: Result<Bytes, PackError>)
    ensures r == if value < 0 then Failure(NegativeFelt)
                 else if value >= Pow256(length) then Failure(DoesNotFit)
                 else Success(FixedBytes(value, length))
  {
    if value < 0 { return Failure(NegativeFelt); }
    if value >= Pow256(length) { return Failure(DoesNotFit); }
    var result := new byte[length];
    var remaining: nat := value;
    var index := length;
    while index > 0
      invariant 0 <= index <= length
      invariant FixedBytes(value, length) == FixedBytes(remaining, index) + result[index..]
    {
      index := index - 1;
      FixedBytesEnd(remaining, index, result[index + 1..]);
      result[index] := remaining % 256;
      assert result[index..] == [remaining % 256] + result[index + 1..];
      remaining := remaining / 256;
    }
    assert FixedBytes(remaining, 0) + result[0..] == result[..];
    return Success(result[..]);
  }

  lemma FixedBytesEnd(remaining: nat, n: nat, tail: Bytes)
    ensures FixedBytes(remaining, n + 1) + tail == FixedBytes(remaining / 256, n) + ([remaining % 256] + tail)
  {
  }

  // ---------- packing ----------

  function Chunk(n: nat): (k: nat)
    ensures k <= n && (n > 0 ==> k > 0)
  {
    if n < FELT_PAYLOAD_BYTES then n else FELT_PAYLOAD_BYTES
  }

  function ChunkCount(n: nat): nat {
    (n + FELT_PAYLOAD_BYTES - 1) / FELT_PAYLOAD_BYTES
  }

  function PackChunks(bytes: Bytes): seq<int> {
    if bytes == [] then []
    else [ValueOf(bytes[..Chunk(|bytes|)])] + PackChunks(bytes[Chunk(|bytes|)..])
  }

  function Pack(bytes: Bytes): seq<int> {
    [|bytes|] + PackChunks(bytes)
  }

  /** Reads `n` bytes from a list of chunks that must be exactly long enough. */
  function UnpackChunks(felts: seq<int>, n: nat): Result<Bytes, PackError>
    requires |felts| == ChunkCount(n)
    decreases n
  {
    if n == 0 then Success([])
    else if felts[0] < 0 then Failure(NegativeFelt)
    else if felts[0] >= Pow256(Chunk(n)) then Failure(DoesNotFit)
    else
      var rest := UnpackChunks(felts[1..], n - Chunk(n));
      if rest.Failure? then rest else Success(FixedBytes(felts[0], Chunk(n)) + rest.value)
  }

  function Unpack(felts: seq<int>): Result<Bytes, PackError> {
    if |felts| == 0 then Failure(MissingLength)
    else if |felts| > MAX_CT_FELTS then Failure(TooManyFelts)
    else if felts[0] < 0 then Failure(NegativeFelt)
    else if felts[0] > MAX_PACKED_BYTES then Failure(LengthTooLarge)
    else if |felts| != ChunkCount(felts[0]) + 1 then Failure(CountMismatch)
    else UnpackChunks(felts[1..], felts[0])
  }

  method PackBytesToFelts(bytes: Bytes) returns (felts: seq<int>)
    ensures felts == Pack(bytes)
  {
    felts := [|bytes|];
    var offset := 0;
    while offset < |bytes|
      invariant 0 <= offset <= |bytes|
      invariant felts + PackChunks(bytes[offset..]) == Pack(bytes)
    {
      ghost var rest := bytes[offset..];
      var end := offset + Chunk(|bytes| - offset);
      var value := BytesToBigInt(bytes[offset..end]);
      assert rest[..Chunk(|rest|)] == bytes[offset..end] && rest[Chunk(|rest|)..] == bytes[end..];
      assert felts + ([value] + PackChunks(bytes[end..])) == (felts + [value]) + PackChunks(bytes[end..]);
      felts := felts + [value];
      offset := end;
    }
    assert felts + [] == felts;
  }

  method UnpackFeltsToBytes(felts: seq<int>) returns (r: Result<Bytes, PackError>)
    ensures r == Unpack(felts)
  {
    hide UnpackChunks, Pow256, FixedBytes, Joined;
    if |felts| == 0 { return Failure(MissingLength); }
    if |felts| > MAX_CT_FELTS { return Failure(TooManyFelts); }
    if felts[0] < 0 { return Failure(NegativeFelt); }
    if felts[0] > MAX_PACKED_BYTES { return Failure(LengthTooLarge); }
    var n: nat := felts[0];
    var count := ChunkCount(n);
    if |felts| != count + 1 { return Failure(CountMismatch); }
    ChunkCountStep(n);
    var bytes := new byte[n];
    ghost var chunks := felts[1..];
    var offset := 0;
    UnpackStart(chunks, n, bytes[..0]);
    for index := 0 to count
      invariant offset <= n && (offset == index * FELT_PAYLOAD_BYTES || offset == n)
      invariant count - index == ChunkCount(n - offset)
      invariant UnpackChunks(chunks, n) == Joined(bytes[..offset], UnpackChunks(chunks[index..], n - offset))
    {
      ChunkCountStep(n - offset);
      var chunkLength := Chunk(n - offset);
      ghost var before := bytes[..offset];
      var piece := BigIntToFixedBytes(felts[index + 1], chunkLength);
      UnpackStep(chunks[index..], n - offset, before, piece);
      assert chunks[index..][0] == felts[index + 1] && chunks[index..][1..] == chunks[index + 1..];
      if piece.Failure? { return Failure(piece.error); }
      CopyInto(bytes, offset, piece.value);
      offset := offset + chunkLength;
    }
    UnpackEnd(chunks[count..], bytes[..offset]);
    assert bytes[..offset] == bytes[..];
    return Success(bytes[..]);
  }

  method CopyInto(target: array<byte>, offset: nat, piece: Bytes)
    requires offset + |piece| <= target.Length
    modifies target
    ensures target[..offset + |piece|] == old(target[..offset]) + piece
  {
    for k := 0 to |piece|
      invariant target[..offset + k] == old(target[..offset]) + piece[..k]
    {
      target[offset + k] := piece[k];
      assert target[..offset + k + 1] == target[..offset + k] + [piece[k]];
      assert piece[..k + 1] == piece[..k] + [piece[k]];
    }
    assert piece[..|piece|] == piece;
  }

  lemma UnpackStart(chunks: seq<int>, n: nat, front: Bytes)
    requires |chunks| == ChunkCount(n) && |front| == 0
    ensures UnpackChunks(chunks, n) == Joined(front, UnpackChunks(chunks[0..], n))
  {
    hide UnpackChunks;
    assert chunks[0..] == chunks;
    var all := UnpackChunks(chunks, n);
    assert all.Success? ==> front + all.value == all.value;
  }

  lemma UnpackEnd(chunks: seq<int>, front: Bytes)
    requires chunks == []
    ensures Joined(front, UnpackChunks(chunks, 0)) == Success(front)
  {
    assert front + [] == front;
  }

  lemma ChunkCountStep(n: nat)
    ensures n > 0 <==> ChunkCount(n) > 0
    ensures n > 0 ==> ChunkCount(n) == 1 + ChunkCount(n - Chunk(n))
  {
  }

  lemma UnpackStep(chunks: seq<int>, n: nat, front: Bytes, piece: Result<Bytes, PackError>)
    requires n > 0 && |chunks| == ChunkCount(n)
    requires piece == if chunks[0] < 0 then Failure(NegativeFelt)
                      else if chunks[0] >= Pow256(Chunk(n)) then Failure(DoesNotFit)
                      else Success(FixedBytes(chunks[0], Chunk(n)))
    ensures piece.Failure? ==> Joined(front, UnpackChunks(chunks, n)) == Failure(piece.error)
    ensures piece.Success? ==>
      Joined(front, UnpackChunks(chunks, n)) == Joined(front + piece.value, UnpackChunks(chunks[1..], n - Chunk(n)))
  {
    hide Pow256, FixedBytes;
    if piece.Success? {
      JoinedAssociates(front, piece.value, UnpackChunks(chunks[1..], n - Chunk(n)));
    }
  }

  function Joined(front: Bytes, rest: Result<Bytes, PackError>): Result<Bytes, PackError> {
    if rest.Failure? then rest else Success(front + rest.value)
  }

  lemma JoinedAssociates(x: Bytes, y: Bytes, rest: Result<Bytes, PackError>)
    ensures Joined(x, Joined(y, rest)) == Joined(x + y, rest)
  {
    assert rest.Success? ==> x + (y + rest.value) == (x + y) + rest.value;
  }

  // ---------- inverse bijections ----------

  lemma {:induction false} PackedLength(bytes: Bytes)
    ensures |PackChunks(bytes)| == ChunkCount(|bytes|)
  {
    if bytes == [] {
    } else {
      PackedLength(bytes[Chunk(|bytes|)..]);
    }
  }

  lemma {:induction false} UnpackChunksOfPacked(bytes: Bytes)
    ensures |PackChunks(bytes)| == ChunkCount(|bytes|)
    ensures UnpackChunks(PackChunks(bytes), |bytes|) == Success(bytes)
  {
    hide ValueOf, FixedBytes, Pow256;
    PackedLength(bytes);
    if bytes == [] {
    } else {
      var k := Chunk(|bytes|);
      ValueBound(bytes[..k]);
      FixedBytesOfValue(bytes[..k]);
      UnpackChunksOfPacked(bytes[k..]);
      assert PackChunks(bytes)[1..] == PackChunks(bytes[k..]);
      assert bytes[..k] + bytes[k..] == bytes;
    }
  }

  lemma {:induction false} PackChunksOfUnpacked(felts: seq<int>, n: nat)
    requires |felts| == ChunkCount(n) && UnpackChunks(felts, n).Success?
    ensures |UnpackChunks(felts, n).value| == n && PackChunks(UnpackChunks(felts, n).value) == felts
    decreases n
  {
    hide ValueOf, FixedBytes, Pow256;
    if n == 0 {
    } else {
      var k := Chunk(n);
      PackChunksOfUnpacked(felts[1..], n - k);
      ValueOfFixedBytes(felts[0], k);
      var bytes := UnpackChunks(felts, n).value;
      assert bytes[..k] == FixedBytes(felts[0], k) && bytes[k..] == UnpackChunks(felts[1..], n - k).value;
      assert felts == [felts[0]] + felts[1..];
    }
  }

  /** Unpacking a packed byte string gives it back exactly when it is at most 4,309 bytes long. */
  lemma UnpackInvertsPack(bytes: Bytes)
    ensures Unpack(Pack(bytes)) == Success(bytes) <==> |bytes| <= MAX_PACKED_BYTES
    ensures |bytes| > MAX_PACKED_BYTES ==> Unpack(Pack(bytes)).Failure?
  {
    UnpackChunksOfPacked(bytes);
    assert Pack(bytes)[1..] == PackChunks(bytes);
  }

  /** Every list that unpacks is the packing of what it unpacks to: no second encoding exists. */
  lemma PackInvertsUnpack(felts: seq<int>)
    requires Unpack(felts).Success?
    ensures Pack(Unpack(felts).value) == felts && |Unpack(felts).value| <= MAX_PACKED_BYTES
  {
    PackChunksOfUnpacked(felts[1..], felts[0]);
    assert felts == [felts[0]] + felts[1..];
  }

  // ---------- size projection ----------

  datatype Projection = Projection(
    plaintextBytes: nat, recipientCount: nat, ciphertextBytes: nat, ciphertextFelts: nat,
    maxCiphertextFelts: nat, maxPlaintextBytes: int, fits: bool)

  function FixedOverhead(recipients: nat): nat {
    if recipients == 1 then AES_TAG_BYTES else MULTI_FIXED_BYTES + recipients * MULTI_RECIPIENT_SLOT_BYTES
  }

  function ProjectEncryptedMailSize(plaintextBytes: int, recipientCount: int): Option<Projection> {
    if !(0 <= plaintextBytes < SAFE_INTEGER_LIMIT) || !(1 <= recipientCount <= MAX_MULTI_RECIPIENTS) then None
    else
      var fixed := FixedOverhead(recipientCount);
      var bytes := fixed + plaintextBytes;
      var felts := 1 + ChunkCount(bytes);
      Some(Projection(plaintextBytes, recipientCount, bytes, felts, MAX_CT_FELTS,
                      MAX_PACKED_BYTES - fixed, felts <= MAX_CT_FELTS))
  }

  /**
   The projection is exact: the predicted count is that of the packed wire bytes, and `fits` says
   both that the plaintext is within the advertised maximum and that the recipient can unpack it.
   */
  lemma ProjectionIsExact(plaintextBytes: nat, recipientCount: nat, wire: Bytes)
    requires plaintextBytes < SAFE_INTEGER_LIMIT && 1 <= recipientCount <= MAX_MULTI_RECIPIENTS
    requires |wire| == FixedOverhead(recipientCount) + plaintextBytes
    ensures var p := ProjectEncryptedMailSize(plaintextBytes, recipientCount).value;
      && p.ciphertextFelts == |Pack(wire)|
      && (p.fits <==> plaintextBytes <= p.maxPlaintextBytes)
      && (p.fits <==> Unpack(Pack(wire)) == Success(wire))
      && p.maxPlaintextBytes >= 0
  {
    PackedLength(wire);
    UnpackInvertsPack(wire);
  }

  /** Sixty-six recipients are the most for which even an empty message fits. */
  lemma RecipientLimitIsTight()
    ensures MAX_MULTI_RECIPIENTS == 66
    ensures FixedOverhead(MAX_MULTI_RECIPIENTS) <= MAX_PACKED_BYTES < FixedOverhead(MAX_MULTI_RECIPIENTS + 1)
  {
  }
}
