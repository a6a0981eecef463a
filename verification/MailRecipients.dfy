/**
 Encrypting one chat record for one or many recipients, and decrypting it. The primitives are
 arbitrary functions; what is assumed of them is written in `Ideal`.
 */
module MailRecipients {
  import opened Wrappers
  import opened FeltPacking
  import opened MailWire

  const X25519_KEY_BYTES: nat := 32
  const MULTI_RECIPIENT_VIEW_TAG: byte := 255
  const AAD_DOMAIN := "app20/mail/aes-gcm/v1"
  const MULTI_AAD_DOMAIN := "app20/mail/multi/aes-gcm"
  const MULTI_WRAP_KEY_INFO := "app20/mail/multi/v1/wrap-key"
  const MULTI_SLOT_TAG_INFO := "app20/mail/multi/v1/slot-tag"

  // ---------- primitives ----------

  datatype Query = Query(key: Bytes, nonce: Bytes, aad: Bytes, plaintext: Bytes)

  datatype Crypto = Crypto(
    publicKey: Bytes -> Bytes,
    sharedSecret: (Bytes, Bytes) -> Bytes,
    expand: (Bytes, Bytes, Bytes, nat) -> Bytes,
    seal: Query -> Bytes,
    open: (Bytes, Bytes, Bytes, Bytes) -> Option<Bytes>)

  ghost predicate Sized(c: Crypto) {
    && (forall x :: |c.publicKey(x)| == X25519_KEY_BYTES)
    && (forall secret, salt, info, n :: |c.expand(secret, salt, info, n)| == n)
    && (forall q :: |c.seal(q)| == |q.plaintext| + AES_TAG_BYTES)
  }

  /**
   Both sides of a key agreement get one secret (section 6.1 of RFC 7748), and a ciphertext opens
   exactly when it was sealed under the same key, nonce and associated data.
   */
  ghost predicate Ideal(c: Crypto, sealed: iset<Query>) {
    Sized(c) && Agrees(c) && OpensExactly(c, sealed)
  }

  ghost predicate Agrees(c: Crypto) {
    forall x, y :: c.sharedSecret(x, c.publicKey(y)) == c.sharedSecret(y, c.publicKey(x))
  }

  ghost predicate OpensExactly(c: Crypto, sealed: iset<Query>) {
    forall q: Query, ciphertext: Bytes ::
      c.open(q.key, q.nonce, q.aad, ciphertext) == Some(q.plaintext) <==> q in sealed && c.seal(q) == ciphertext
  }

  const ZERO_TAG: Bytes := seq(AES_TAG_BYTES, i => 0)

  lemma SuffixSplits(ciphertext: Bytes, plaintext: Bytes)
    ensures plaintext + ZERO_TAG == ciphertext <==>
      && |ciphertext| >= AES_TAG_BYTES && ciphertext[|ciphertext| - AES_TAG_BYTES..] == ZERO_TAG
      && ciphertext[..|ciphertext| - AES_TAG_BYTES] == plaintext
  {
  }

  /** A key of 32 bytes, all zero but the first. */
  function ToyKey(first: byte): (key: Bytes)
    ensures |key| == X25519_KEY_BYTES && key[0] == first
  {
    [first] + seq(X25519_KEY_BYTES - 1, i => 0)
  }

  /** Toy primitives that open nothing: a key is its own public key, and secrets are sums. */
  ghost function Plain(): Crypto {
    Crypto(
      (x: Bytes) => if |x| == X25519_KEY_BYTES then x else ToyKey(0),
      (x: Bytes, y: Bytes) =>
        if |y| != X25519_KEY_BYTES then []
        else if |x| != X25519_KEY_BYTES then y
        else seq(X25519_KEY_BYTES, i requires 0 <= i < X25519_KEY_BYTES => (x[i] as int + y[i] as int) % 256),
      (secret: Bytes, salt: Bytes, info: Bytes, n: nat) => seq(n, i => if secret == [] then 0 else secret[0]),
      (q: Query) => q.plaintext + ZERO_TAG,
      (key: Bytes, nonce: Bytes, aad: Bytes, ciphertext: Bytes) => None)
  }

  /** The same primitives, opening what was sealed and nothing else. */
  ghost function Toy(sealed: iset<Query>): Crypto {
    Plain().(open := (key: Bytes, nonce: Bytes, aad: Bytes, ciphertext: Bytes) =>
      if |ciphertext| >= AES_TAG_BYTES && ciphertext[|ciphertext| - AES_TAG_BYTES..] == ZERO_TAG
         && Query(key, nonce, aad, ciphertext[..|ciphertext| - AES_TAG_BYTES]) in sealed
      then Some(ciphertext[..|ciphertext| - AES_TAG_BYTES]) else None)
  }

  lemma ToyIsSizedAndAgrees(sealed: iset<Query>)
    ensures Sized(Toy(sealed)) && Agrees(Toy(sealed))
  {
    forall x: Bytes, y: Bytes
      ensures Plain().sharedSecret(x, Plain().publicKey(y)) == Plain().sharedSecret(y, Plain().publicKey(x))
    {
      PlainAgrees(x, y);
    }
  }

  lemma ToySecret(ephemeral: Bytes, first: byte)
    requires |ephemeral| == X25519_KEY_BYTES
    ensures var secret := Plain().sharedSecret(ephemeral, ToyKey(first));
      |secret| == X25519_KEY_BYTES && secret[0] == (ephemeral[0] as int + first as int) % 256
  {
  }

  lemma ToyExpansion(secret: Bytes, salt: Bytes, info: Bytes, n: nat)
    requires secret != [] && n > 0
    ensures |Plain().expand(secret, salt, info, n)| == n && Plain().expand(secret, salt, info, n)[0] == secret[0]
  {
  }

  lemma PlainAgrees(x: Bytes, y: Bytes)
    ensures Plain().sharedSecret(x, Plain().publicKey(y)) == Plain().sharedSecret(y, Plain().publicKey(x))
  {
    var a, b := Plain().sharedSecret(x, Plain().publicKey(y)), Plain().sharedSecret(y, Plain().publicKey(x));
    assert |a| == X25519_KEY_BYTES == |b|;
    assert forall i :: 0 <= i < X25519_KEY_BYTES ==> a[i] == b[i];
  }

  lemma ToyOpensExactly(sealed: iset<Query>)
    ensures OpensExactly(Toy(sealed), sealed)
  {
    forall q: Query, ciphertext: Bytes
      ensures Toy(sealed).open(q.key, q.nonce, q.aad, ciphertext) == Some(q.plaintext)
         <==> q in sealed && Toy(sealed).seal(q) == ciphertext
    {
      SuffixSplits(ciphertext, q.plaintext);
    }
  }

  /** The assumptions contradict nothing: whatever has been sealed, a toy instance meets them. */
  lemma IdealPrimitivesExist(sealed: iset<Query>)
    ensures exists c :: Ideal(c, sealed)
  {
    hide Toy, Sized, Agrees, OpensExactly;
    ToyIsSizedAndAgrees(sealed);
    ToyOpensExactly(sealed);
    assert Ideal(Toy(sealed), sealed);
  }

  datatype Randomness = Randomness(ephemeral: Bytes, nonce: Bytes, bodyNonce: Bytes, dek: Bytes)

  predicate Drawn(r: Randomness) {
    |r.ephemeral| == X25519_KEY_BYTES && |r.nonce| == NONCE_BYTES
    && |r.bodyNonce| == NONCE_BYTES && |r.dek| == AES_KEY_BYTES
  }

  // ---------- records ----------

  datatype Record = Record(ephemeralPub: seq<int>, viewTag: byte, nonce: seq<int>, ciphertextFelts: seq<int>)

  datatype MailError =
    | NoRecipients | TooManyRecipients | BadKeyLength | DuplicateRecipient | MessageTooLarge | TagCollision
    | BadPair | Unpackable(reason: PackError) | Malformed(parse: ParseError)
    | ViewTagMismatch | AuthenticationFailed | SlotAuthenticationFailed | SlotNotFound

  function ToFelts(bytes: Bytes, half: nat): seq<int>
    requires half <= |bytes|
  {
    [ValueOf(bytes[..half]), ValueOf(bytes[half..])]
  }

  function FromFelts(pair: seq<int>, half: nat): Result<Bytes, MailError> {
    if |pair| != 2 then Failure(BadPair)
    else if pair[0] < 0 || pair[1] < 0 then Failure(Unpackable(NegativeFelt))
    else if pair[0] >= Pow256(half) || pair[1] >= Pow256(half) then Failure(Unpackable(DoesNotFit))
    else Success(FixedBytes(pair[0], half) + FixedBytes(pair[1], half))
  }

  lemma PairRoundTrip(bytes: Bytes, half: nat)
    requires |bytes| == 2 * half
    ensures FromFelts(ToFelts(bytes, half), half) == Success(bytes)
  {
    ValueBound(bytes[..half]);
    ValueBound(bytes[half..]);
    FixedBytesOfValue(bytes[..half]);
    FixedBytesOfValue(bytes[half..]);
    assert bytes[..half] + bytes[half..] == bytes;
  }

  // ---------- key material and associated data ----------

  function Ascii(s: string): (bytes: Bytes)
    ensures |bytes| == |s|
  {
    seq(|s|, i requires 0 <= i < |s| => (s[i] as int) % 256)
  }

  datatype Material = Material(slotTag: Bytes, wrappingKey: Bytes)

  function MaterialFor(c: Crypto, secret: Bytes, nonce: Bytes, slotCount: byte): Material {
    Material(c.expand(secret, nonce, Ascii(MULTI_SLOT_TAG_INFO) + [VERSION, slotCount], MULTI_SLOT_TAG_BYTES),
             c.expand(secret, nonce, Ascii(MULTI_WRAP_KEY_INFO) + [VERSION, slotCount], AES_KEY_BYTES))
  }

  function MailAad(ephemeralPub: Bytes, nonce: Bytes): Bytes {
    Ascii(AAD_DOMAIN) + ephemeralPub + nonce
  }

  function MultiAadPrefix(ephemeralPub: Bytes, nonce: Bytes, slotCount: byte): Bytes {
    Ascii(MULTI_AAD_DOMAIN) + MARKER + [VERSION, slotCount] + ephemeralPub + nonce
  }

  function SlotAad(prefix: Bytes, index: byte, tag: Bytes): Bytes {
    prefix + (Ascii("slot") + [index] + tag)
  }

  function BodyAad(prefix: Bytes, bodyNonce: Bytes): Bytes {
    prefix + (Ascii("body") + bodyNonce)
  }

  // ---------- one recipient ----------

  function MailKey(c: Crypto, secret: Bytes): Bytes {
    c.expand(secret, [], Ascii("key"), AES_KEY_BYTES)
  }

  function ViewTag(c: Crypto, secret: Bytes): byte
    requires |c.expand(secret, [], Ascii("tag"), 1)| == 1
  {
    c.expand(secret, [], Ascii("tag"), 1)[0]
  }

  function SingleQuery(c: Crypto, key: Bytes, plaintext: Bytes, r: Randomness): Query {
    Query(MailKey(c, c.sharedSecret(r.ephemeral, key)), r.nonce, MailAad(c.publicKey(r.ephemeral), r.nonce), plaintext)
  }

  function EncryptMail(c: Crypto, key: Bytes, plaintext: Bytes, r: Randomness): Result<Record, MailError>
    requires Drawn(r) && |c.publicKey(r.ephemeral)| == X25519_KEY_BYTES
    requires |c.expand(c.sharedSecret(r.ephemeral, key), [], Ascii("tag"), 1)| == 1
  {
    if |key| != X25519_KEY_BYTES then Failure(BadKeyLength)
    else
      var felts := Pack(c.seal(SingleQuery(c, key, plaintext, r)));
      if |felts| > MAX_CT_FELTS then Failure(MessageTooLarge)
      else Success(Record(ToFelts(c.publicKey(r.ephemeral), 16), ViewTag(c, c.sharedSecret(r.ephemeral, key)),
                          ToFelts(r.nonce, 6), felts))
  }

  // ---------- many recipients ----------

  function MaterialsAmong(c: Crypto, keys: seq<Bytes>, r: Randomness, slotCount: byte): seq<Material> {
    seq(|keys|, i requires 0 <= i < |keys| => MaterialFor(c, c.sharedSecret(r.ephemeral, keys[i]), r.nonce, slotCount))
  }

  function Materials(c: Crypto, keys: seq<Bytes>, r: Randomness): seq<Material>
    requires |keys| < 256
  {
    MaterialsAmong(c, keys, r, |keys|)
  }

  function InsertByTag(m: Material, sorted: seq<Material>): seq<Material> {
    if sorted == [] || Compare(m.slotTag, sorted[0].slotTag) < 0 then [m] + sorted
    else [sorted[0]] + InsertByTag(m, sorted[1..])
  }

  function SortByTag(materials: seq<Material>): seq<Material> {
    if materials == [] then [] else InsertByTag(materials[|materials| - 1], SortByTag(materials[..|materials| - 1]))
  }

  function Tags(materials: seq<Material>): seq<Bytes> {
    seq(|materials|, i requires 0 <= i < |materials| => materials[i].slotTag)
  }

  ghost predicate Distinct(values: seq<Bytes>) {
    forall i, j :: 0 <= i < j < |values| ==> values[i] != values[j]
  }

  ghost predicate TagsDistinct(materials: seq<Material>) {
    Distinct(Tags(materials))
  }

  ghost predicate Sorted(materials: seq<Material>) {
    forall i, j :: 0 <= i < j < |materials| ==> Compare(materials[i].slotTag, materials[j].slotTag) <= 0
  }

  function SlotQuery(prefix: Bytes, r: Randomness, m: Material, index: byte): Query
    requires Drawn(r)
  {
    Query(m.wrappingKey, SlotNonce(r.nonce, index), SlotAad(prefix, index, m.slotTag), r.dek)
  }

  function BodyQuery(prefix: Bytes, plaintext: Bytes, r: Randomness): Query {
    Query(r.dek, r.bodyNonce, BodyAad(prefix, r.bodyNonce), plaintext)
  }

  function SealedSlots(c: Crypto, prefix: Bytes, r: Randomness, sorted: seq<Material>): seq<Slot>
    requires Drawn(r) && |sorted| < 256
  {
    seq(|sorted|, i requires 0 <= i < |sorted| => Slot(sorted[i].slotTag, c.seal(SlotQuery(prefix, r, sorted[i], i))))
  }

  function SealedBody(c: Crypto, sorted: seq<Material>, plaintext: Bytes, r: Randomness): MultiBody
    requires Drawn(r) && |sorted| < 256
  {
    var prefix := MultiAadPrefix(c.publicKey(r.ephemeral), r.nonce, |sorted|);
    MultiBody(SealedSlots(c, prefix, r, sorted), r.bodyNonce, c.seal(BodyQuery(prefix, plaintext, r)))
  }

  ghost predicate KeyLengths(keys: seq<Bytes>) {
    forall i :: 0 <= i < |keys| ==> |keys[i]| == X25519_KEY_BYTES
  }

  /** Every query made while encrypting for these recipients. */
  ghost function QueriesOf(c: Crypto, keys: seq<Bytes>, plaintext: Bytes, r: Randomness): iset<Query>
    requires Drawn(r) && |keys| < 256
  {
    if |keys| == 1 then iset{SingleQuery(c, keys[0], plaintext, r)}
    else
      var sorted := SortByTag(Materials(c, keys, r));
      var prefix := MultiAadPrefix(c.publicKey(r.ephemeral), r.nonce, |keys|);
      iset{BodyQuery(prefix, plaintext, r)}
      + (iset i: byte | 0 <= i < |sorted| :: SlotQuery(prefix, r, sorted[i], i))
  }

  ghost function EncryptedFor(c: Crypto, keys: seq<Bytes>, plaintext: Bytes, r: Randomness): Result<Record, MailError>
    requires Drawn(r) && Sized(c)
  {
    if |keys| == 0 then Failure(NoRecipients)
    else if |keys| > MAX_MULTI_RECIPIENTS then Failure(TooManyRecipients)
    else if !KeyLengths(keys) then Failure(BadKeyLength)
    else if !Distinct(keys) then Failure(DuplicateRecipient)
    else if |keys| == 1 then EncryptMail(c, keys[0], plaintext, r)
    else if FixedOverhead(|keys|) + |plaintext| > MAX_PACKED_BYTES then Failure(MessageTooLarge)
    else if !TagsDistinct(Materials(c, keys, r)) then Failure(TagCollision)
    else
      SortKeepsMaterials(Materials(c, keys, r));
      Success(Record(ToFelts(c.publicKey(r.ephemeral), 16), MULTI_RECIPIENT_VIEW_TAG, ToFelts(r.nonce, 6),
                     Pack(Layout(SealedBody(c, SortByTag(Materials(c, keys, r)), plaintext, r)))))
  }

  // ---------- sorting ----------

  lemma {:induction false} InsertKeepsMaterials(m: Material, sorted: seq<Material>)
    ensures multiset(InsertByTag(m, sorted)) == multiset{m} + multiset(sorted)
    ensures |InsertByTag(m, sorted)| == |sorted| + 1
  {
    if sorted == [] {
    } else {
      InsertKeepsMaterials(m, sorted[1..]);
      assert sorted == [sorted[0]] + sorted[1..];
    }
  }

  lemma {:induction false} InsertSorts(m: Material, sorted: seq<Material>)
    requires Sorted(sorted)
    ensures Sorted(InsertByTag(m, sorted))
  {
    var all := InsertByTag(m, sorted);
    if sorted == [] {
    } else if Compare(m.slotTag, sorted[0].slotTag) < 0 {
      forall i | 0 <= i < |sorted|
        ensures Compare(m.slotTag, sorted[i].slotTag) <= 0
      {
        if i > 0 { CompareTransitive(m.slotTag, sorted[0].slotTag, sorted[i].slotTag); }
      }
    } else {
      InsertSorts(m, sorted[1..]);
      InsertKeepsMaterials(m, sorted[1..]);
      CompareEqual(m.slotTag, sorted[0].slotTag);
      var rest := InsertByTag(m, sorted[1..]);
      forall j | 0 <= j < |rest|
        ensures Compare(sorted[0].slotTag, rest[j].slotTag) <= 0
      {
        assert rest[j] in multiset(rest);
        if rest[j] != m {
          assert rest[j] in sorted[1..];
          var k :| 0 <= k < |sorted[1..]| && sorted[1..][k] == rest[j];
          assert sorted[k + 1] == rest[j];
        }
      }
    }
  }

  lemma {:induction false} SortKeepsMaterials(materials: seq<Material>)
    ensures multiset(SortByTag(materials)) == multiset(materials)
    ensures |SortByTag(materials)| == |materials|
  {
    hide InsertByTag;
    if materials == [] {
    } else {
      var front, last := materials[..|materials| - 1], materials[|materials| - 1];
      SortKeepsMaterials(front);
      InsertKeepsMaterials(last, SortByTag(front));
      assert materials == front + [last];
    }
  }

  lemma SameElements(a: seq<Material>, b: seq<Material>, m: Material)
    requires multiset(a) == multiset(b)
    ensures m in a <==> m in b
  {
    assert m in a <==> m in multiset(a);
  }

  lemma {:induction false} SortSorts(materials: seq<Material>)
    ensures Sorted(SortByTag(materials))
  {
    if materials == [] {
    } else {
      SortSorts(materials[..|materials| - 1]);
      InsertSorts(materials[|materials| - 1], SortByTag(materials[..|materials| - 1]));
    }
  }

  /** In a sorted list, comparing neighbours finds every repeated tag. */
  lemma NeighboursDecide(sorted: seq<Material>)
    requires Sorted(sorted)
    ensures TagsDistinct(sorted) <==> forall i :: 1 <= i < |sorted| ==> sorted[i - 1].slotTag != sorted[i].slotTag
  {
    var tags := Tags(sorted);
    if TagsDistinct(sorted) {
      forall i | 1 <= i < |sorted|
        ensures sorted[i - 1].slotTag != sorted[i].slotTag
      {
        assert tags[i - 1] != tags[i];
      }
    }
    if forall i :: 1 <= i < |sorted| ==> sorted[i - 1].slotTag != sorted[i].slotTag {
      forall i, j | 0 <= i < j < |sorted|
        ensures Tags(sorted)[i] != Tags(sorted)[j]
      {
        var next := i + 1;
        assert sorted[next - 1].slotTag != sorted[next].slotTag;
        CompareEqual(sorted[i].slotTag, sorted[next].slotTag);
        CompareEqual(sorted[next].slotTag, sorted[j].slotTag);
        assert next < j ==> Compare(sorted[next].slotTag, sorted[j].slotTag) <= 0;
      }
    }
  }

  lemma {:induction false} DistinctMeansOnce(values: seq<Bytes>)
    ensures Distinct(values) <==> forall x :: multiset(values)[x] <= 1
  {
    if values == [] {
    } else {
      var front, last := values[..|values| - 1], values[|values| - 1];
      DistinctMeansOnce(front);
      assert values == front + [last];
      assert multiset(values) == multiset(front) + multiset{last};
      assert last in front <==> multiset(front)[last] > 0;
      DistinctAppend(front, last);
      if forall x :: multiset(values)[x] <= 1 {
        assert multiset(values)[last] <= 1;
        assert forall x :: multiset(front)[x] <= multiset(values)[x];
      }
    }
  }

  lemma DistinctAppend(front: seq<Bytes>, last: Bytes)
    ensures Distinct(front + [last]) <==> Distinct(front) && last !in front
  {
    var all := front + [last];
    assert forall i :: 0 <= i < |front| ==> all[i] == front[i];
    if Distinct(all) {
      forall i | 0 <= i < |front|
        ensures front[i] != last
      {
        assert all[i] != all[|front|];
      }
    }
  }

  lemma SortKeepsDistinctness(materials: seq<Material>)
    ensures TagsDistinct(SortByTag(materials)) <==> TagsDistinct(materials)
  {
    SortKeepsTags(materials);
    DistinctMeansOnce(Tags(materials));
    DistinctMeansOnce(Tags(SortByTag(materials)));
  }

  lemma {:induction false} SortKeepsTags(materials: seq<Material>)
    ensures multiset(Tags(SortByTag(materials))) == multiset(Tags(materials))
  {
    if materials == [] {
    } else {
      var front, last := materials[..|materials| - 1], materials[|materials| - 1];
      SortKeepsTags(front);
      InsertKeepsTags(last, SortByTag(front));
      assert Tags(materials) == Tags(front) + [last.slotTag];
    }
  }

  lemma {:induction false} InsertKeepsTags(m: Material, sorted: seq<Material>)
    ensures multiset(Tags(InsertByTag(m, sorted))) == multiset{m.slotTag} + multiset(Tags(sorted))
  {
    if sorted == [] || Compare(m.slotTag, sorted[0].slotTag) < 0 {
      assert Tags([m] + sorted) == [m.slotTag] + Tags(sorted);
    } else {
      InsertKeepsTags(m, sorted[1..]);
      assert Tags(sorted) == [sorted[0].slotTag] + Tags(sorted[1..]);
      var rest := InsertByTag(m, sorted[1..]);
      assert Tags([sorted[0]] + rest) == [sorted[0].slotTag] + Tags(rest);
    }
  }
}
