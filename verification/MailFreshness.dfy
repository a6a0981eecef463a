/** The assumptions under which delivery is proved can be met together. */
module MailFreshness {
  import opened FeltPacking
  import opened MailDelivery
  import opened MailRecipients
  import opened MailWire

  function TwoKeys(count: nat): seq<Bytes>
    requires count <= 2
  {
    if count == 0 then [] else if count == 1 then [ToyKey(0)] else [ToyKey(0), ToyKey(1)]
  }

  lemma ToyTag(r: Randomness, count: nat, i: nat)
    requires Drawn(r) && i < count <= 2
    ensures var m := MaterialFor(Plain(), Plain().sharedSecret(r.ephemeral, TwoKeys(count)[i]), r.nonce, count);
      |m.slotTag| > 0 && m.slotTag[0] == (r.ephemeral[0] as int + i) % 256
  {
    hide Plain, ToyKey, Ascii, MaterialFor;
    var secret := Plain().sharedSecret(r.ephemeral, ToyKey(i));
    ToySecret(r.ephemeral, i);
    ToySlotTag(secret, r.nonce, count);
    assert TwoKeys(count)[i] == ToyKey(i);
  }

  lemma ToySlotTag(secret: Bytes, nonce: Bytes, count: byte)
    requires secret != []
    ensures var m := MaterialFor(Plain(), secret, nonce, count); |m.slotTag| > 0 && m.slotTag[0] == secret[0]
  {
    hide Plain;
    ToyExpansion(secret, nonce, Ascii(MULTI_SLOT_TAG_INFO) + [VERSION, count], MULTI_SLOT_TAG_BYTES);
  }

  lemma ToyTagsDiffer(r: Randomness)
    requires Drawn(r)
    ensures TagsDistinct(Materials(Plain(), TwoKeys(2), r))
  {
    hide Plain, MaterialFor;
    ToyTag(r, 2, 0);
    ToyTag(r, 2, 1);
    var tags := Tags(Materials(Plain(), TwoKeys(2), r));
    assert tags[0][0] != tags[1][0];
  }

  /** What is sealed, and the tags, do not depend on what can be opened. */
  lemma ToySealsAlike(sealed: iset<Query>, keys: seq<Bytes>, plaintext: Bytes, r: Randomness)
    requires Drawn(r) && |keys| < 256
    ensures Materials(Toy(sealed), keys, r) == Materials(Plain(), keys, r)
    ensures QueriesOf(Toy(sealed), keys, plaintext, r) == QueriesOf(Plain(), keys, plaintext, r)
  {
    hide Plain, SortByTag, SlotQuery, BodyQuery, MultiAadPrefix, MailAad;
    assert Materials(Toy(sealed), keys, r) == Materials(Plain(), keys, r) by {
      SameMaterials(Toy(sealed), Plain(), keys, r);
    }
  }

  lemma SameMaterials(c: Crypto, d: Crypto, keys: seq<Bytes>, r: Randomness)
    requires |keys| < 256 && c.sharedSecret == d.sharedSecret && c.expand == d.expand
    ensures Materials(c, keys, r) == Materials(d, keys, r)
  {
    var a, b := Materials(c, keys, r), Materials(d, keys, r);
    forall i | 0 <= i < |keys|
      ensures a[i] == b[i]
    {
      SameMaterial(c, d, c.sharedSecret(r.ephemeral, keys[i]), r.nonce, |keys|);
    }
    assert |a| == |keys| == |b|;
  }

  lemma SameMaterial(c: Crypto, d: Crypto, secret: Bytes, nonce: Bytes, count: byte)
    ensures c.expand == d.expand ==> MaterialFor(c, secret, nonce, count) == MaterialFor(d, secret, nonce, count)
  {
  }

  lemma TwoKeysAreDistinct(count: nat)
    requires count <= 2
    ensures |TwoKeys(count)| == count && KeyLengths(TwoKeys(count)) && Distinct(TwoKeys(count))
  {
    assert ToyKey(0)[0] != ToyKey(1)[0];
  }

  lemma ToyEncrypts(sealed: iset<Query>, r: Randomness, plaintext: Bytes, count: nat)
    requires Drawn(r) && 1 <= count <= 2 && |plaintext| <= MAX_PACKED_BYTES - FixedOverhead(count)
    ensures Sized(Toy(sealed)) && EncryptedFor(Toy(sealed), TwoKeys(count), plaintext, r).Success?
  {
    hide Toy, EncryptedFor, TagsDistinct, Materials, Sized, TwoKeys, KeyLengths, Distinct, FixedOverhead, QueriesOf;
    TwoKeysAreDistinct(count);
    ToyIsSizedAndAgrees(sealed);
    ToySealsAlike(sealed, TwoKeys(count), plaintext, r);
    ToyTagsDiffer(r);
    EncryptionSucceedsExactlyWhen(Toy(sealed), TwoKeys(count), plaintext, r);
  }

  /** Each of these keys is its own private key. */
  ghost predicate OwnKeys(c: Crypto, keys: seq<Bytes>) {
    forall who :: 0 <= who < |keys| ==> |keys[who]| == X25519_KEY_BYTES && keys[who] == c.publicKey(keys[who])
  }

  lemma ToyKeysAreOwn(sealed: iset<Query>, count: nat)
    ensures count <= 2 ==> OwnKeys(Toy(sealed), TwoKeys(count))
  {
  }

  /**
   The assumptions of delivery can be met together, for any message that fits and any randomness, for
   one recipient and for two, each of whom has the private key.
   */
  lemma FreshRecordsExist(r: Randomness, plaintext: Bytes, count: nat)
    requires Drawn(r) && 1 <= count <= 2 && |plaintext| <= MAX_PACKED_BYTES - FixedOverhead(count)
    ensures exists c, sealed, keys ::
      |keys| == count && OwnKeys(c, keys) && FreshlySealed(c, sealed, keys, plaintext, r)
  {
    hide Toy, Plain, TwoKeys, OwnKeys, QueriesOf, EncryptedFor, OpensExactly, Sized, Agrees, BoundToMulti;
    var keys := TwoKeys(count);
    TwoKeysAreDistinct(count);
    var sealed := QueriesOf(Plain(), keys, plaintext, r);
    ToyIsSizedAndAgrees(sealed);
    ToyOpensExactly(sealed);
    ToyEncrypts(sealed, r, plaintext, count);
    ToySealsAlike(sealed, keys, plaintext, r);
    ToyKeysAreOwn(sealed, count);
    assert FreshlySealed(Toy(sealed), sealed, keys, plaintext, r);
  }
}
