/**
 Encryption and decryption of chat records, and what they give together: every listed recipient
 reads the record, the order of the list leaves no trace, and what opens was sealed for this record.
 */
module MailDelivery {
  import opened Collections
  import opened Wrappers
  import opened FeltPacking
  import opened MailWire
  import opened MailRecipients

  // ---------- encryption ----------

  method HasDuplicate(keys: seq<Bytes>) returns (found: bool)
    ensures found <==> !Distinct(keys)
  {
    var fingerprints: set<Bytes> := {};
    for index := 0 to |keys|
      invariant forall k :: k in fingerprints <==> k in keys[..index]
      invariant Distinct(keys[..index])
    {
      assert keys[..index + 1] == keys[..index] + [keys[index]];
      DistinctAppend(keys[..index], keys[index]);
      if keys[index] in fingerprints {
        RepeatedPrefix(keys, index + 1);
        return true;
      }
      fingerprints := fingerprints + {keys[index]};
    }
    assert keys[..|keys|] == keys;
    return false;
  }

  lemma RepeatedPrefix(keys: seq<Bytes>, n: nat)
    requires n <= |keys| && !Distinct(keys[..n])
    ensures !Distinct(keys)
  {
    var i, j :| 0 <= i < j < n && keys[..n][i] == keys[..n][j];
    assert keys[i] == keys[j];
  }

  method EncryptMailForRecipients(c: Crypto, keys: seq<Bytes>, plaintext: Bytes, r: Randomness)
    returns (out: Result<Record, MailError>)
    requires Drawn(r) && Sized(c)
    ensures out == EncryptedFor(c, keys, plaintext, r)
  {
    hide SortByTag, Pack, Layout, SealedBody, Distinct;
    if |keys| == 0 { return Failure(NoRecipients); }
    if |keys| > MAX_MULTI_RECIPIENTS { return Failure(TooManyRecipients); }
    for index := 0 to |keys|
      invariant KeyLengths(keys[..index])
    {
      if |keys[index]| != X25519_KEY_BYTES { return Failure(BadKeyLength); }
    }
    assert keys[..|keys|] == keys;
    var duplicate := HasDuplicate(keys);
    if duplicate { return Failure(DuplicateRecipient); }
    if |keys| == 1 { return EncryptMail(c, keys[0], plaintext, r); }
    if MULTI_FIXED_BYTES + |keys| * MULTI_RECIPIENT_SLOT_BYTES + |plaintext| > MAX_PACKED_BYTES {
      return Failure(MessageTooLarge);
    }
    var materials := Materials(c, keys, r);
    var sorted := SortByTag(materials);
    SortSorts(materials);
    SortKeepsMaterials(materials);
    SortKeepsDistinctness(materials);
    NeighboursDecide(sorted);
    for index := 1 to |sorted|
      invariant forall i :: 1 <= i < index ==> sorted[i - 1].slotTag != sorted[i].slotTag
    {
      if sorted[index - 1].slotTag == sorted[index].slotTag { return Failure(TagCollision); }
    }
    var prefix := MultiAadPrefix(c.publicKey(r.ephemeral), r.nonce, |sorted|);
    var body := SealAll(c, prefix, sorted, plaintext, r);
    MaterialsAreSized(c, keys, r);
    BodyIsWellFormed(c, sorted, plaintext, r);
    ParseInvertsLayout(body);
    var felts := Pack(Layout(body));
    PackFits(Layout(body));
    if |felts| > MAX_CT_FELTS { return Failure(MessageTooLarge); }
    return Success(Record(ToFelts(c.publicKey(r.ephemeral), 16), MULTI_RECIPIENT_VIEW_TAG, ToFelts(r.nonce, 6), felts));
  }

  method SealAll(c: Crypto, prefix: Bytes, sorted: seq<Material>, plaintext: Bytes, r: Randomness)
    returns (body: MultiBody)
    requires Drawn(r) && |sorted| < 256
    requires prefix == MultiAadPrefix(c.publicKey(r.ephemeral), r.nonce, |sorted|)
    ensures body == SealedBody(c, sorted, plaintext, r)
  {
    hide SlotQuery, MultiAadPrefix;
    var slots: seq<Slot> := [];
    for index := 0 to |sorted|
      invariant |slots| == index
      invariant forall i :: 0 <= i < index ==> slots[i] == SealedSlots(c, prefix, r, sorted)[i]
    {
      var wrappedDek := c.seal(SlotQuery(prefix, r, sorted[index], index));
      slots := slots + [Slot(sorted[index].slotTag, wrappedDek)];
    }
    assert slots == SealedSlots(c, prefix, r, sorted);
    return MultiBody(slots, r.bodyNonce, c.seal(BodyQuery(prefix, plaintext, r)));
  }

  ghost predicate SizedMaterials(materials: seq<Material>) {
    forall m :: m in materials ==> |m.slotTag| == MULTI_SLOT_TAG_BYTES
  }

  lemma MaterialsAreSized(c: Crypto, keys: seq<Bytes>, r: Randomness)
    requires |keys| < 256 && Sized(c)
    ensures SizedMaterials(Materials(c, keys, r)) && SizedMaterials(SortByTag(Materials(c, keys, r)))
  {
    hide MaterialFor;
    var materials := Materials(c, keys, r);
    SortKeepsMaterials(materials);
    forall i | 0 <= i < |materials|
      ensures |materials[i].slotTag| == MULTI_SLOT_TAG_BYTES
    {
      MaterialIsSized(c, c.sharedSecret(r.ephemeral, keys[i]), r.nonce, |keys|);
    }
    forall m | m in SortByTag(materials)
      ensures |m.slotTag| == MULTI_SLOT_TAG_BYTES
    {
      SameElements(SortByTag(materials), materials, m);
    }
  }

  lemma MaterialIsSized(c: Crypto, secret: Bytes, nonce: Bytes, n: byte)
    requires Sized(c)
    ensures |MaterialFor(c, secret, nonce, n).slotTag| == MULTI_SLOT_TAG_BYTES
  {
  }

  lemma BodyIsWellFormed(c: Crypto, sorted: seq<Material>, plaintext: Bytes, r: Randomness)
    requires Drawn(r) && Sized(c) && 2 <= |sorted| <= MAX_MULTI_RECIPIENTS
    requires SizedMaterials(sorted)
    ensures var body := SealedBody(c, sorted, plaintext, r);
      WellFormed(body) && |body.slots| == |sorted| && |body.bodyCiphertext| == |plaintext| + AES_TAG_BYTES
  {
    hide MultiAadPrefix, BodyAad, SlotAad, SlotNonce;
    var prefix := MultiAadPrefix(c.publicKey(r.ephemeral), r.nonce, |sorted|);
    var body := SealedBody(c, sorted, plaintext, r);
    forall i | 0 <= i < |sorted|
      ensures |body.slots[i].tag| == MULTI_SLOT_TAG_BYTES && |body.slots[i].wrappedDek| == WRAPPED_DEK_BYTES
    {
      assert sorted[i] in sorted;
      assert |c.seal(SlotQuery(prefix, r, sorted[i], i))| == |r.dek| + AES_TAG_BYTES;
    }
  }

  lemma PackFits(bytes: Bytes)
    ensures |Pack(bytes)| <= MAX_CT_FELTS <==> |bytes| <= MAX_PACKED_BYTES
  {
    PackedLength(bytes);
  }

  // ---------- decryption ----------

  function DecryptLegacyMail(c: Crypto, secret: Bytes, ephemeralPub: Bytes, nonce: Bytes, viewTag: byte,
                             ciphertext: Bytes)
    : Result<Bytes, MailError>
    requires |c.expand(secret, [], Ascii("tag"), 1)| == 1
  {
    if viewTag != ViewTag(c, secret) then Failure(ViewTagMismatch)
    else match c.open(MailKey(c, secret), nonce, MailAad(ephemeralPub, nonce), ciphertext)
      case None => Failure(AuthenticationFailed)
      case Some(plaintext) => Success(plaintext)
  }

  /** What the slot at `index` yields to the holder of `m`: the content key first, then the body. */
  function OpenSlot(c: Crypto, m: Material, prefix: Bytes, nonce: Bytes, body: MultiBody, index: byte): Option<Bytes>
    requires |nonce| == NONCE_BYTES && index < |body.slots|
  {
    var slot := body.slots[index];
    match c.open(m.wrappingKey, SlotNonce(nonce, index), SlotAad(prefix, index, slot.tag), slot.wrappedDek)
    case None => None
    case Some(dek) =>
      if |dek| != AES_KEY_BYTES then None
      else c.open(dek, body.bodyNonce, BodyAad(prefix, body.bodyNonce), body.bodyCiphertext)
  }

  predicate Candidate(m: Material, body: MultiBody, index: nat)
    requires index < |body.slots|
  {
    body.slots[index].tag == m.slotTag
  }

  /** The first slot from `index` on that carries the reader's tag and opens. */
  function FirstOpening(c: Crypto, m: Material, prefix: Bytes, nonce: Bytes, body: MultiBody, index: nat): Option<Bytes>
    requires |nonce| == NONCE_BYTES && index <= |body.slots| < 256
    decreases |body.slots| - index
  {
    if index == |body.slots| then None
    else if Candidate(m, body, index) && OpenSlot(c, m, prefix, nonce, body, index).Some?
    then OpenSlot(c, m, prefix, nonce, body, index)
    else FirstOpening(c, m, prefix, nonce, body, index + 1)
  }

  ghost function DecryptedBody(c: Crypto, m: Material, prefix: Bytes, nonce: Bytes, body: MultiBody): Result<Bytes,
                               MailError>
    requires |nonce| == NONCE_BYTES && |body.slots| < 256
  {
    match FirstOpening(c, m, prefix, nonce, body, 0)
    case Some(plaintext) => Success(plaintext)
    case None =>
      if exists i :: 0 <= i < |body.slots| && Candidate(m, body, i) then Failure(SlotAuthenticationFailed)
      else Failure(SlotNotFound)
  }

  ghost function DecryptedMulti(c: Crypto, secret: Bytes, ephemeralPub: Bytes, nonce: Bytes, ciphertext: Bytes)
    : Result<Bytes, MailError>
    requires |nonce| == NONCE_BYTES
  {
    var parsed := Parse(ciphertext);
    if parsed.Failure? then Failure(Malformed(parsed.error))
    else
      LayoutInvertsParse(ciphertext);
      var n := |parsed.value.slots|;
      DecryptedBody(c, MaterialFor(c, secret, nonce, n), MultiAadPrefix(ephemeralPub, nonce, n), nonce, parsed.value)
  }

  method DecryptMultiRecipientMail(c: Crypto, secret: Bytes, ephemeralPub: Bytes, nonce: Bytes, ciphertext: Bytes)
    returns (out: Result<Bytes, MailError>)
    requires |nonce| == NONCE_BYTES
    ensures out == DecryptedMulti(c, secret, ephemeralPub, nonce, ciphertext)
  {
    hide Parse, MaterialFor, MultiAadPrefix, OpenSlot;
    var parsed := ParseMultiRecipientCiphertext(ciphertext);
    if parsed.Failure? { return Failure(Malformed(parsed.error)); }
    LayoutInvertsParse(ciphertext);
    var body := parsed.value;
    var m := MaterialFor(c, secret, nonce, |body.slots|);
    var prefix := MultiAadPrefix(ephemeralPub, nonce, |body.slots|);
    var foundCandidate := false;
    for index := 0 to |body.slots|
      invariant FirstOpening(c, m, prefix, nonce, body, 0) == FirstOpening(c, m, prefix, nonce, body, index)
      invariant foundCandidate <==> exists i :: 0 <= i < index && Candidate(m, body, i)
    {
      if Candidate(m, body, index) {
        foundCandidate := true;
        var content := OpenSlot(c, m, prefix, nonce, body, index);
        if content.Some? { return Success(content.value); }
      }
    }
    return Failure(if foundCandidate then SlotAuthenticationFailed else SlotNotFound);
  }

  ghost function DecryptMail(c: Crypto, privateKey: Bytes, record: Record): Result<Bytes, MailError>
    requires Sized(c)
  {
    if |privateKey| != X25519_KEY_BYTES then Failure(BadKeyLength)
    else
      var ephemeralPub := FromFelts(record.ephemeralPub, 16);
      var nonce := FromFelts(record.nonce, 6);
      var unpacked := Unpack(record.ciphertextFelts);
      if ephemeralPub.Failure? then ephemeralPub
      else if nonce.Failure? then nonce
      else if unpacked.Failure? then Failure(Unpackable(unpacked.error))
      else
        var secret := c.sharedSecret(privateKey, ephemeralPub.value);
        var legacy := DecryptLegacyMail(c, secret, ephemeralPub.value, nonce.value, record.viewTag, unpacked.value);
        if record.viewTag == MULTI_RECIPIENT_VIEW_TAG && HasMarker(unpacked.value) then
          var multi := DecryptedMulti(c, secret, ephemeralPub.value, nonce.value, unpacked.value);
          if multi.Success? || legacy.Failure? then multi else legacy
        else legacy
  }

  // ---------- every recipient reads the record ----------

  lemma OpensWhatWasSealed(c: Crypto, sealed: iset<Query>, q: Query)
    requires Ideal(c, sealed) && q in sealed
    ensures c.open(q.key, q.nonce, q.aad, c.seal(q)) == Some(q.plaintext)
  {
  }

  lemma {:induction false} OnlyCandidateOpens(c: Crypto, m: Material, prefix: Bytes, nonce: Bytes, body: MultiBody,
                                              from: nat, k: nat)
    requires |nonce| == NONCE_BYTES && from <= k < |body.slots| < 256
    requires forall i :: 0 <= i < |body.slots| ==> (Candidate(m, body, i) <==> i == k)
    requires OpenSlot(c, m, prefix, nonce, body, k).Some?
    ensures FirstOpening(c, m, prefix, nonce, body, from) == OpenSlot(c, m, prefix, nonce, body, k)
    decreases k - from
  {
    hide OpenSlot, Candidate;
    if from < k {
      OnlyCandidateOpens(c, m, prefix, nonce, body, from + 1, k);
    }
  }

  lemma OwnSlotOpens(c: Crypto, sealed: iset<Query>, sorted: seq<Material>, plaintext: Bytes, r: Randomness, k: byte)
    requires Ideal(c, sealed) && Drawn(r) && k < |sorted| < 256
    requires SlotQuery(MultiAadPrefix(c.publicKey(r.ephemeral), r.nonce, |sorted|), r, sorted[k], k) in sealed
    requires BodyQuery(MultiAadPrefix(c.publicKey(r.ephemeral), r.nonce, |sorted|), plaintext, r) in sealed
    ensures OpenSlot(c, sorted[k], MultiAadPrefix(c.publicKey(r.ephemeral), r.nonce, |sorted|), r.nonce,
                     SealedBody(c, sorted, plaintext, r), k) == Some(plaintext)
  {
    hide Ideal, MultiAadPrefix, SlotAad, BodyAad, SlotNonce;
    var prefix := MultiAadPrefix(c.publicKey(r.ephemeral), r.nonce, |sorted|);
    OpensWhatWasSealed(c, sealed, SlotQuery(prefix, r, sorted[k], k));
    OpensWhatWasSealed(c, sealed, BodyQuery(prefix, plaintext, r));
  }

  lemma SortedBodyOpens(c: Crypto, sealed: iset<Query>, sorted: seq<Material>, plaintext: Bytes, r: Randomness, k: byte)
    requires Ideal(c, sealed) && Drawn(r) && k < |sorted| < 256 && TagsDistinct(sorted)
    requires forall i: byte :: i < |sorted| ==>
      SlotQuery(MultiAadPrefix(c.publicKey(r.ephemeral), r.nonce, |sorted|), r, sorted[i], i) in sealed
    requires BodyQuery(MultiAadPrefix(c.publicKey(r.ephemeral), r.nonce, |sorted|), plaintext, r) in sealed
    ensures DecryptedBody(c, sorted[k], MultiAadPrefix(c.publicKey(r.ephemeral), r.nonce, |sorted|), r.nonce,
                          SealedBody(c, sorted, plaintext, r)) == Success(plaintext)
  {
    hide Ideal, MultiAadPrefix, SlotQuery, BodyQuery, OpenSlot;
    OwnSlotOpens(c, sealed, sorted, plaintext, r, k);
    var body := SealedBody(c, sorted, plaintext, r);
    forall i | 0 <= i < |body.slots|
      ensures Candidate(sorted[k], body, i) <==> i == k
    {
      assert Tags(sorted)[i] == sorted[i].slotTag && Tags(sorted)[k] == sorted[k].slotTag;
      assert i < k ==> Tags(sorted)[i] != Tags(sorted)[k];
      assert k < i ==> Tags(sorted)[k] != Tags(sorted)[i];
    }
    OnlyCandidateOpens(c, sorted[k], MultiAadPrefix(c.publicKey(r.ephemeral), r.nonce, |sorted|), r.nonce, body, 0, k);
  }

  lemma MultiRecordReads(c: Crypto, privateKey: Bytes, body: MultiBody, ephemeralPub: Bytes, nonce: Bytes,
                         plaintext: Bytes)
    requires Sized(c) && WellFormed(body) && |Layout(body)| <= MAX_PACKED_BYTES
    requires |privateKey| == X25519_KEY_BYTES && |ephemeralPub| == X25519_KEY_BYTES && |nonce| == NONCE_BYTES
    requires DecryptedBody(c, MaterialFor(c, c.sharedSecret(privateKey, ephemeralPub), nonce, |body.slots|),
                           MultiAadPrefix(ephemeralPub, nonce, |body.slots|), nonce, body) == Success(plaintext)
    ensures DecryptMail(c, privateKey, Record(ToFelts(ephemeralPub, 16), MULTI_RECIPIENT_VIEW_TAG, ToFelts(nonce, 6),
                                              Pack(Layout(body)))) == Success(plaintext)
  {
    hide ToFelts, FromFelts, Unpack, Pack, Parse, Layout, DecryptedBody, MaterialFor, MultiAadPrefix,
         DecryptLegacyMail, HasMarker;
    PairRoundTrip(ephemeralPub, 16);
    PairRoundTrip(nonce, 6);
    UnpackInvertsPack(Layout(body));
    ParseInvertsLayout(body);
  }

  lemma RecipientHasASlot(c: Crypto, sealed: iset<Query>, keys: seq<Bytes>, r: Randomness, who: nat, privateKey: Bytes)
    returns (k: nat)
    requires Ideal(c, sealed) && who < |keys| < 256 && keys[who] == c.publicKey(privateKey)
    ensures k < |SortByTag(Materials(c, keys, r))|
    ensures SortByTag(Materials(c, keys, r))[k]
         == MaterialFor(c, c.sharedSecret(privateKey, c.publicKey(r.ephemeral)), r.nonce, |keys|)
  {
    hide MaterialFor, SortByTag;
    var materials := Materials(c, keys, r);
    SortKeepsMaterials(materials);
    SameElements(SortByTag(materials), materials, materials[who]);
    k :| 0 <= k < |SortByTag(materials)| && SortByTag(materials)[k] == materials[who];
  }

  lemma {:induction false} MultiRecipientDecrypts(c: Crypto, sealed: iset<Query>, keys: seq<Bytes>, plaintext: Bytes,
                                                  r: Randomness,
                               who: nat, privateKey: Bytes)
    requires Ideal(c, sealed) && Drawn(r) && 2 <= |keys| && EncryptedFor(c, keys, plaintext, r).Success?
    requires QueriesOf(c, keys, plaintext, r) <= sealed
    requires who < |keys| && |privateKey| == X25519_KEY_BYTES && keys[who] == c.publicKey(privateKey)
    ensures DecryptMail(c, privateKey, EncryptedFor(c, keys, plaintext, r).value) == Success(plaintext)
  {
    hide DecryptMail, DecryptedBody, SealedBody, SlotQuery, BodyQuery, MultiAadPrefix, ToFelts,
      Pack, Layout, WellFormed,
         SortByTag, MaterialFor, Distinct, Materials, KeyLengths;
    var materials := Materials(c, keys, r);
    var sorted := SortByTag(materials);
    SortKeepsMaterials(materials);
    SortKeepsDistinctness(materials);
    MaterialsAreSized(c, keys, r);
    MaterialsCount(c, keys, r);
    BodyIsWellFormed(c, sorted, plaintext, r);
    var body := SealedBody(c, sorted, plaintext, r);
    ParseInvertsLayout(body);
    var k := RecipientHasASlot(c, sealed, keys, r, who, privateKey);
    SortedBodyOpens(c, sealed, sorted, plaintext, r, k);
    MultiRecordReads(c, privateKey, body, c.publicKey(r.ephemeral), r.nonce, plaintext);
  }

  lemma MaterialsCount(c: Crypto, keys: seq<Bytes>, r: Randomness)
    requires |keys| < 256
    ensures |Materials(c, keys, r)| == |keys|
  {
  }

  // ---------- what opens was sealed for this record ----------

  ghost predicate BoundToMulti(aad: Bytes, ephemeralPub: Bytes, nonce: Bytes) {
    exists n: byte :: MultiAadPrefix(ephemeralPub, nonce, n) <= aad
  }

  /** The two formats never share associated data. */
  lemma AadDomainsDiffer(ephemeralPub: Bytes, nonce: Bytes, otherPub: Bytes, otherNonce: Bytes)
    ensures !BoundToMulti(MailAad(ephemeralPub, nonce), otherPub, otherNonce)
  {
    assert MailAad(ephemeralPub, nonce)[11] == 'a' as int;
    forall n: byte
      ensures !(MultiAadPrefix(otherPub, otherNonce, n) <= MailAad(ephemeralPub, nonce))
    {
      assert MultiAadPrefix(otherPub, otherNonce, n)[11] == 'm' as int;
    }
  }

  lemma {:induction false} FirstOpeningIsASlot(c: Crypto, m: Material, prefix: Bytes, nonce: Bytes, body: MultiBody,
                                               from: nat)
    returns (k: nat)
    requires |nonce| == NONCE_BYTES && from <= |body.slots| < 256
    requires FirstOpening(c, m, prefix, nonce, body, from).Some?
    ensures k < |body.slots| && OpenSlot(c, m, prefix, nonce, body, k) == FirstOpening(c, m, prefix, nonce, body, from)
    decreases |body.slots| - from
  {
    hide OpenSlot, Candidate;
    if Candidate(m, body, from) && OpenSlot(c, m, prefix, nonce, body, from).Some? {
      return from;
    }
    k := FirstOpeningIsASlot(c, m, prefix, nonce, body, from + 1);
  }

  lemma OpenedWasSealed(c: Crypto, sealed: iset<Query>, key: Bytes, nonce: Bytes, aad: Bytes, ciphertext: Bytes)
    requires Ideal(c, sealed) && c.open(key, nonce, aad, ciphertext).Some?
    ensures Query(key, nonce, aad, c.open(key, nonce, aad, ciphertext).value) in sealed
  {
    var q := Query(key, nonce, aad, c.open(key, nonce, aad, ciphertext).value);
    assert c.open(q.key, q.nonce, q.aad, ciphertext) == Some(q.plaintext);
  }

  lemma MultiOpensOnlySealed(c: Crypto, sealed: iset<Query>, secret: Bytes, ephemeralPub: Bytes, nonce: Bytes,
                             ciphertext: Bytes) returns (q: Query)
    requires Ideal(c, sealed) && |nonce| == NONCE_BYTES
    requires DecryptedMulti(c, secret, ephemeralPub, nonce, ciphertext).Success?
    ensures q in sealed && q.plaintext == DecryptedMulti(c, secret, ephemeralPub, nonce, ciphertext).value
    ensures BoundToMulti(q.aad, ephemeralPub, nonce)
  {
    hide Ideal, Parse, MaterialFor, MultiAadPrefix, SlotAad, SlotNonce, FirstOpening;
    LayoutInvertsParse(ciphertext);
    var body := Parse(ciphertext).value;
    var n := |body.slots|;
    var m, prefix := MaterialFor(c, secret, nonce, n), MultiAadPrefix(ephemeralPub, nonce, n);
    var k := FirstOpeningIsASlot(c, m, prefix, nonce, body, 0);
    var dek := c.open(m.wrappingKey, SlotNonce(nonce, k), SlotAad(prefix, k, body.slots[k].tag),
      body.slots[k].wrappedDek).value;
    var aad := BodyAad(prefix, body.bodyNonce);
    OpenedWasSealed(c, sealed, dek, body.bodyNonce, aad, body.bodyCiphertext);
    q := Query(dek, body.bodyNonce, aad, OpenSlot(c, m, prefix, nonce, body, k).value);
    assert prefix <= q.aad;
  }

  /**
   Whatever bytes arrive, a successful decryption returns a plaintext that somebody sealed under
   associated data carrying this record's ephemeral key and nonce.
   */
  lemma DecryptionIsAuthentic(c: Crypto, sealed: iset<Query>, privateKey: Bytes, record: Record) returns (q: Query)
    requires Ideal(c, sealed) && Sized(c) && DecryptMail(c, privateKey, record).Success?
    ensures q in sealed && q.plaintext == DecryptMail(c, privateKey, record).value
    ensures var ephemeralPub, nonce := FromFelts(record.ephemeralPub, 16), FromFelts(record.nonce, 6);
      && ephemeralPub.Success? && nonce.Success?
      && (q.aad == MailAad(ephemeralPub.value, nonce.value) || BoundToMulti(q.aad, ephemeralPub.value, nonce.value))
  {
    hide FromFelts, Unpack, DecryptedMulti, MailAad, MailKey, BoundToMulti, Ideal, HasMarker;
    var ephemeralPub, nonce := FromFelts(record.ephemeralPub, 16).value, FromFelts(record.nonce, 6).value;
    NonceLength(record.nonce);
    var bytes := Unpack(record.ciphertextFelts).value;
    var secret := c.sharedSecret(privateKey, ephemeralPub);
    if record.viewTag == MULTI_RECIPIENT_VIEW_TAG && HasMarker(bytes)
       && DecryptedMulti(c, secret, ephemeralPub, nonce, bytes).Success? {
      q := MultiOpensOnlySealed(c, sealed, secret, ephemeralPub, nonce, bytes);
    } else {
      OpenedWasSealed(c, sealed, MailKey(c, secret), nonce, MailAad(ephemeralPub, nonce), bytes);
      q := Query(MailKey(c, secret), nonce, MailAad(ephemeralPub, nonce), DecryptMail(c, privateKey, record).value);
    }
  }

  lemma NonceLength(pair: seq<int>)
    requires FromFelts(pair, 6).Success?
    ensures |FromFelts(pair, 6).value| == NONCE_BYTES
  {
  }

  /**
   A one-recipient record decrypts even when its view tag is 0xff and its ciphertext begins "A20",
   provided no other sealed message reused its ephemeral key and nonce in the many-recipient format.
   */
  lemma SingleRecipientDecrypts(c: Crypto, sealed: iset<Query>, key: Bytes, plaintext: Bytes, r: Randomness,
                                privateKey: Bytes)
    requires Ideal(c, sealed) && Drawn(r) && EncryptMail(c, key, plaintext, r).Success?
    requires |privateKey| == X25519_KEY_BYTES && key == c.publicKey(privateKey)
    requires SingleQuery(c, key, plaintext, r) in sealed
    requires forall q :: q in sealed && q != SingleQuery(c, key, plaintext, r) ==>
      !BoundToMulti(q.aad, c.publicKey(r.ephemeral), r.nonce)
    ensures DecryptMail(c, privateKey, EncryptMail(c, key, plaintext, r).value) == Success(plaintext)
  {
    hide FromFelts, ToFelts, Unpack, Pack, DecryptedMulti, MailAad, MailKey, BoundToMulti, HasMarker;
    var ephemeralPub := c.publicKey(r.ephemeral);
    var q := SingleQuery(c, key, plaintext, r);
    var bytes := c.seal(q);
    var secret := c.sharedSecret(privateKey, ephemeralPub);
    PairRoundTrip(ephemeralPub, 16);
    PairRoundTrip(r.nonce, 6);
    PackFits(bytes);
    UnpackInvertsPack(bytes);
    OpensWhatWasSealed(c, sealed, q);
    AadDomainsDiffer(ephemeralPub, r.nonce, ephemeralPub, r.nonce);
    if DecryptedMulti(c, secret, ephemeralPub, r.nonce, bytes).Success? {
      var other := MultiOpensOnlySealed(c, sealed, secret, ephemeralPub, r.nonce, bytes);
      assert false;
    }
  }

  // ---------- the order of the recipients leaves no trace ----------

  lemma {:induction false} SortedListsAgree(a: seq<Material>, b: seq<Material>)
    requires Sorted(a) && Sorted(b) && TagsDistinct(a) && TagsDistinct(b)
    requires multiset(a) == multiset(b)
    ensures a == b
  {
    if a == [] || b == [] {
      assert |a| == |multiset(a)| && |b| == |multiset(b)|;
    } else {
      SameHead(a, b);
      TailIsSorted(a);
      TailIsSorted(b);
      SortedListsAgree(a[1..], b[1..]);
      assert a == [a[0]] + a[1..] && b == [b[0]] + b[1..];
    }
  }

  lemma TailIsSorted(a: seq<Material>)
    requires a != [] && Sorted(a) && TagsDistinct(a)
    ensures Sorted(a[1..]) && TagsDistinct(a[1..]) && multiset(a[1..]) == multiset(a) - multiset{a[0]}
  {
    assert a == [a[0]] + a[1..];
    assert Tags(a)[1..] == Tags(a[1..]);
  }

  lemma SameHead(a: seq<Material>, b: seq<Material>)
    requires a != [] && b != [] && Sorted(a) && Sorted(b) && TagsDistinct(b)
    requires multiset(a) == multiset(b)
    ensures a[0] == b[0]
  {
    SameElements(a, b, a[0]);
    SameElements(a, b, b[0]);
    var k :| 0 <= k < |b| && b[k] == a[0];
    var j :| 0 <= j < |a| && a[j] == b[0];
    CompareEqual(a[0].slotTag, b[0].slotTag);
    assert Tags(b)[k] == b[k].slotTag && Tags(b)[0] == b[0].slotTag;
  }

  lemma {:induction false} MaterialsFollowKeys(c: Crypto, a: seq<Bytes>, b: seq<Bytes>, r: Randomness, n: byte)
    requires multiset(a) == multiset(b)
    ensures multiset(MaterialsAmong(c, a, r, n)) == multiset(MaterialsAmong(c, b, r, n))
  {
    hide MaterialFor;
    if a == [] {
      assert |b| == |multiset(b)| == 0;
    } else {
      var front, last := a[..|a| - 1], a[|a| - 1];
      var j := TakeOut(a, b);
      MaterialsFollowKeys(c, front, b[..j] + b[j + 1..], r, n);
      var m := MaterialFor(c, c.sharedSecret(r.ephemeral, last), r.nonce, n);
      assert MaterialsAmong(c, a, r, n) == MaterialsAmong(c, front, r, n) + [m];
      var x, y := MaterialsAmong(c, b[..j], r, n), MaterialsAmong(c, b[j + 1..], r, n);
      assert MaterialsAmong(c, b, r, n) == x + [m] + y;
      assert MaterialsAmong(c, b[..j] + b[j + 1..], r, n) == x + y;
    }
  }

  /** Encrypting for the same recipients in another order gives the same bytes, or the same refusal. */
  lemma RecipientOrderIsHidden(c: Crypto, keys: seq<Bytes>, other: seq<Bytes>, plaintext: Bytes, r: Randomness)
    requires Sized(c) && Drawn(r) && multiset(keys) == multiset(other)
    ensures EncryptedFor(c, keys, plaintext, r) == EncryptedFor(c, other, plaintext, r)
  {
    hide MaterialsAmong, SortByTag, Distinct, EncryptMail, Pack, Layout, SealedBody, ToFelts, Sorted;
    assert |keys| == |multiset(keys)| == |multiset(other)| == |other|;
    SameKeyChecks(keys, other);
    if |keys| == 1 {
      assert keys[0] in multiset(other);
    } else if 1 < |keys| <= MAX_MULTI_RECIPIENTS {
      var a, b := Materials(c, keys, r), Materials(c, other, r);
      MaterialsFollowKeys(c, keys, other, r, |keys|);
      SortKeepsMaterials(a);
      SortKeepsMaterials(b);
      SortSorts(a);
      SortSorts(b);
      SortKeepsDistinctness(a);
      SortKeepsDistinctness(b);
      SameDistinctness(a, b);
      if TagsDistinct(a) {
        SortedListsAgree(SortByTag(a), SortByTag(b));
      }
    }
  }

  lemma SameKeyChecks(keys: seq<Bytes>, other: seq<Bytes>)
    requires multiset(keys) == multiset(other)
    ensures Distinct(keys) <==> Distinct(other)
    ensures KeyLengths(keys) <==> KeyLengths(other)
  {
    DistinctMeansOnce(keys);
    DistinctMeansOnce(other);
    assert forall i :: 0 <= i < |keys| ==> keys[i] in multiset(other);
    assert forall i :: 0 <= i < |other| ==> other[i] in multiset(keys);
  }

  lemma SameDistinctness(a: seq<Material>, b: seq<Material>)
    requires multiset(a) == multiset(b)
    ensures TagsDistinct(a) <==> TagsDistinct(b)
  {
    TagsFollowMaterials(a, b);
    DistinctMeansOnce(Tags(a));
    DistinctMeansOnce(Tags(b));
  }

  lemma {:induction false} TagsFollowMaterials(a: seq<Material>, b: seq<Material>)
    requires multiset(a) == multiset(b)
    ensures multiset(Tags(a)) == multiset(Tags(b))
  {
    if a == [] {
      assert |b| == |multiset(b)| == 0;
    } else {
      var front, last := a[..|a| - 1], a[|a| - 1];
      var j := TakeOut(a, b);
      TagsFollowMaterials(front, b[..j] + b[j + 1..]);
      assert Tags(a) == Tags(front) + [last.slotTag];
      assert Tags(b) == Tags(b[..j]) + [last.slotTag] + Tags(b[j + 1..]);
      assert Tags(b[..j] + b[j + 1..]) == Tags(b[..j]) + Tags(b[j + 1..]);
    }
  }

  /**
   A record encrypted with ideal primitives; the ephemeral key and nonce of a one-recipient record
   bind no other sealed message in the many-recipient format.
   */
  ghost predicate FreshlySealed(c: Crypto, sealed: iset<Query>, keys: seq<Bytes>, plaintext: Bytes, r: Randomness) {
    && Ideal(c, sealed) && Drawn(r) && EncryptedFor(c, keys, plaintext, r).Success?
    && QueriesOf(c, keys, plaintext, r) <= sealed
    && (|keys| == 1 ==> forall q :: q in sealed - QueriesOf(c, keys, plaintext, r) ==>
          !BoundToMulti(q.aad, c.publicKey(r.ephemeral), r.nonce))
  }

  /** The whole promise: each key on the list opens the record, however the tags happened to sort. */
  lemma {:induction false} EveryRecipientDecrypts(c: Crypto, sealed: iset<Query>, keys: seq<Bytes>, plaintext: Bytes,
                                                  r: Randomness, who: nat, privateKey: Bytes)
    requires FreshlySealed(c, sealed, keys, plaintext, r)
    requires who < |keys| && |privateKey| == X25519_KEY_BYTES && keys[who] == c.publicKey(privateKey)
    ensures DecryptMail(c, privateKey, EncryptedFor(c, keys, plaintext, r).value) == Success(plaintext)
  {
    hide Ideal, DecryptMail, EncryptMail, SingleQuery, BoundToMulti, SlotQuery, BodyQuery,
      SealedBody, SortByTag, Materials;
    if |keys| == 1 {
      SingleRecipientDecrypts(c, sealed, keys[0], plaintext, r, privateKey);
    } else {
      MultiRecipientDecrypts(c, sealed, keys, plaintext, r, who, privateKey);
    }
  }

  /** When encryption succeeds: distinct well-formed keys, room for the message, and distinct tags. */
  lemma EncryptionSucceedsExactlyWhen(c: Crypto, keys: seq<Bytes>, plaintext: Bytes, r: Randomness)
    requires Sized(c) && Drawn(r)
    ensures EncryptedFor(c, keys, plaintext, r).Success? <==>
      && 1 <= |keys| <= MAX_MULTI_RECIPIENTS && KeyLengths(keys) && Distinct(keys)
      && |plaintext| <= MAX_PACKED_BYTES - FixedOverhead(|keys|)
      && (|keys| > 1 ==> TagsDistinct(Materials(c, keys, r)))
  {
    hide Distinct, Materials, SealedBody, SortByTag, Pack, Layout;
    if |keys| == 1 {
      PackFits(c.seal(SingleQuery(c, keys[0], plaintext, r)));
    }
  }
}
