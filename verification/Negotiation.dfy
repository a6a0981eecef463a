/**
 Negotiation transcripts: signed documents chained by digest, evaluated in order, with a store that
 notices an author signing two documents for one revision.
 */
module Negotiation {
  import opened Wrappers

  const MAX_LIFETIME_MS: nat := 30 * 24 * 60 * 60 * 1_000

  datatype Role = Taker | Maker

  datatype Terms = Terms(intent: nat, content: nat)

  datatype Body =
    | Offer(terms: Terms, attachments: nat)
    | Counter(terms: Terms, attachments: nat)
    | Accept(acceptedTermsDigest: nat)
    | Cancel(cancelledTermsDigest: nat, reason: nat)

  datatype Document = Document(
    documentId: nat, conversationId: nat, revision: nat, parentDigest: Option<nat>, author: Role,
    authorBindingDigest: nat, createdAt: nat, expiresAt: nat, note: nat, body: Body)

  datatype Signed = Signed(document: Document, documentDigest: nat, authPublicKey: nat, signature: nat)

  /** Digests and signatures are arbitrary functions. */
  datatype Primitives = Primitives(
    termsDigest: Terms -> nat, documentDigest: Document -> nat, verify: (nat, nat, nat) -> bool)

  datatype Binding = Binding(verified: bool, certificateDigest: nat, authPublicKey: nat)

  datatype Bindings = Bindings(taker: Binding, maker: Binding)

  function BindingOf(b: Bindings, role: Role): Binding {
    if role.Taker? then b.taker else b.maker
  }

  datatype State = Open | Accepted | Cancelled | Expired

  datatype Transcript = Transcript(
    state: State, conversationId: nat, intent: nat, latestDigest: nat, activeTermsDigest: nat, revisions: nat)

  datatype NegotiationError =
    | BadTime | Empty | UnverifiedBindings | BadSignature | WrongSigner | Equivocation
    | NoRootOffer | AfterTerminal | BrokenChain | IntentChanged | SameParty | WrongAcceptance | WrongCancellation
    | UnexpectedOffer

  predicate Proposes(d: Document) {
    d.body.Offer? || d.body.Counter?
  }

  predicate VerifySigned(p: Primitives, s: Signed) {
    && s.document.createdAt < s.document.expiresAt <= s.document.createdAt + MAX_LIFETIME_MS
    && s.document.revision > 0
    && s.documentDigest == p.documentDigest(s.document)
    && p.verify(s.documentDigest, s.authPublicKey, s.signature)
  }

  predicate SignedByRole(b: Bindings, s: Signed) {
    var binding := BindingOf(b, s.document.author);
    s.document.authorBindingDigest == binding.certificateDigest && s.authPublicKey == binding.authPublicKey
  }

  // ---------- the equivocation store ----------

  datatype Key = Key(conversationId: nat, author: Role, revision: nat)

  datatype Seen = New | Duplicate

  type Ledger = map<Key, nat>

  function KeyOf(s: Signed): Key {
    Key(s.document.conversationId, s.document.author, s.document.revision)
  }

  class EquivocationStore {
    var digests: Ledger

    constructor ()
      ensures digests == map[]
    {
      digests := map[];
    }

    /** A key is bound to the first digest consumed for it, and only to that one. */
    method Consume(key: Key, digest: nat) returns (r: Result<Seen, NegotiationError>)
      modifies this
      ensures r == if key !in old(digests) then Success(New)
                   else if old(digests)[key] == digest then Success(Duplicate) else Failure(Equivocation)
      ensures digests == if r == Success(New) then old(digests)[key := digest] else old(digests)
    {
      if key !in digests {
        digests := digests[key := digest];
        return Success(New);
      }
      if digests[key] != digest { return Failure(Equivocation); }
      return Success(Duplicate);
    }
  }

  // ---------- admitting the documents ----------

  datatype Admission = Admission(refusal: Option<NegotiationError>, ledger: Ledger)

  /** Documents are checked and recorded one after another; a refusal keeps what was recorded before it. */
  function Admit(p: Primitives, b: Bindings, ledger: Ledger, values: seq<Signed>): Admission
    decreases |values|
  {
    if values == [] then Admission(None, ledger)
    else if !VerifySigned(p, values[0]) then Admission(Some(BadSignature), ledger)
    else if !SignedByRole(b, values[0]) then Admission(Some(WrongSigner), ledger)
    else
      var key := KeyOf(values[0]);
      if key in ledger && ledger[key] != values[0].documentDigest then Admission(Some(Equivocation), ledger)
      else Admit(p, b, ledger[key := values[0].documentDigest], values[1..])
  }

  // ---------- walking the chain ----------

  datatype Progress = Progress(state: State, activeTermsDigest: nat)

  predicate ChainsOn(first: Document, previous: Signed, current: Document) {
    && current.conversationId == first.conversationId
    && current.revision == previous.document.revision + 1
    && current.parentDigest == Some(previous.documentDigest)
    && previous.document.createdAt <= current.createdAt <= previous.document.expiresAt
  }

  function Advance(p: Primitives, first: Document, previous: Signed, current: Document, at: Progress)
    : Result<Progress, NegotiationError>
    requires Proposes(first)
  {
    var previousIntent := if Proposes(previous.document) then previous.document.body.terms.intent
      else first.body.terms.intent;
    if at.state != Open then Failure(AfterTerminal)
    else if !ChainsOn(first, previous, current) then Failure(BrokenChain)
    else if Proposes(current) && current.body.terms.intent != previousIntent then Failure(IntentChanged)
    else match current.body
      case Offer(_, _) => Failure(UnexpectedOffer)
      case Counter(terms, _) =>
        if current.author == previous.document.author then Failure(SameParty)
        else Success(Progress(Open, p.termsDigest(terms)))
      case Accept(digest) =>
        if current.author == previous.document.author || digest != at.activeTermsDigest then Failure(WrongAcceptance)
        else Success(Progress(Accepted, at.activeTermsDigest))
      case Cancel(digest, _) =>
        if digest != at.activeTermsDigest then Failure(WrongCancellation)
        else Success(Progress(Cancelled, at.activeTermsDigest))
  }

  predicate RootOffer(d: Document) {
    d.body.Offer? && d.revision == 1 && d.parentDigest == None
  }

  function Walk(p: Primitives, values: seq<Signed>): Result<Progress, NegotiationError>
    requires values != [] && RootOffer(values[0].document)
  {
    if |values| == 1 then Success(Progress(Open, p.termsDigest(values[0].document.body.terms)))
    else
      var last := |values| - 1;
      var before := Walk(p, values[..last]);
      if before.Failure? then before
      else Advance(p, values[0].document, values[last - 1], values[last].document, before.value)
  }

  function Evaluated(p: Primitives, values: seq<Signed>, now: nat, b: Bindings, ledger: Ledger)
    : Result<Transcript, NegotiationError>
  {
    if now == 0 then Failure(BadTime)
    else if values == [] then Failure(Empty)
    else if !b.taker.verified || !b.maker.verified then Failure(UnverifiedBindings)
    else
      var admitted := Admit(p, b, ledger, values);
      if admitted.refusal.Some? then Failure(admitted.refusal.value)
      else if !RootOffer(values[0].document) then Failure(NoRootOffer)
      else
        var end := Walk(p, values);
        if end.Failure? then Failure(end.error)
        else
          var first, latest := values[0].document, values[|values| - 1];
          var state := if end.value.state == Open && now > latest.document.expiresAt then Expired else end.value.state;
          Success(Transcript(state, first.conversationId, first.body.terms.intent, latest.documentDigest,
                             end.value.activeTermsDigest, |values|))
  }

  lemma {:induction false} WalkStopsAtFirstFailure(p: Primitives, values: seq<Signed>, n: nat)
    requires 1 <= n <= |values| && RootOffer(values[0].document) && Walk(p, values[..n]).Failure?
    ensures Walk(p, values) == Walk(p, values[..n])
  {
    if n == |values| {
      assert values[..n] == values;
    } else {
      var front := values[..|values| - 1];
      assert front[..n] == values[..n];
      WalkStopsAtFirstFailure(p, front, n);
    }
  }

  lemma AdmitMore(p: Primitives, b: Bindings, ledger: Ledger, values: seq<Signed>, n: nat)
    requires n < |values|
    ensures values[n..][1..] == values[n + 1..] && values[n..][0] == values[n]
  {
  }

  method EvaluateNegotiationTranscript(p: Primitives, values: seq<Signed>, now: nat, b: Bindings,
                                       store: EquivocationStore)
    returns (r: Result<Transcript, NegotiationError>)
    modifies store
    ensures r == Evaluated(p, values, now, b, old(store.digests))
    ensures store.digests == if now == 0 || values == [] || !b.taker.verified || !b.maker.verified
        then old(store.digests)
                             else Admit(p, b, old(store.digests), values).ledger
  {
    hide VerifySigned, SignedByRole, Advance, Walk;
    if now == 0 { return Failure(BadTime); }
    if |values| == 0 { return Failure(Empty); }
    if !b.taker.verified || !b.maker.verified { return Failure(UnverifiedBindings); }
    assert values[0..] == values;
    for i := 0 to |values|
      invariant Admit(p, b, old(store.digests), values) == Admit(p, b, store.digests, values[i..])
    {
      AdmitMore(p, b, store.digests, values, i);
      if !VerifySigned(p, values[i]) { return Failure(BadSignature); }
      if !SignedByRole(b, values[i]) { return Failure(WrongSigner); }
      label before:
      var seen := store.Consume(KeyOf(values[i]), values[i].documentDigest);
      if seen.Failure? { return Failure(seen.error); }
      assert store.digests == old@before(store.digests)[KeyOf(values[i]) := values[i].documentDigest];
    }
    if !RootOffer(values[0].document) { return Failure(NoRootOffer); }
    var end := WalkChain(p, values);
    if end.Failure? { return Failure(end.error); }
    var first, latest := values[0].document, values[|values| - 1];
    var state := end.value.state;
    if state == Open && now > latest.document.expiresAt { state := Expired; }
    return Success(Transcript(state, first.conversationId, first.body.terms.intent, latest.documentDigest,
                              end.value.activeTermsDigest, |values|));
  }

  method WalkChain(p: Primitives, values: seq<Signed>) returns (r: Result<Progress, NegotiationError>)
    requires values != [] && RootOffer(values[0].document)
    ensures r == Walk(p, values)
  {
    hide Advance;
    var at := Progress(Open, p.termsDigest(values[0].document.body.terms));
    for index := 1 to |values|
      invariant Walk(p, values[..index]) == Success(at)
    {
      var next := Advance(p, values[0].document, values[index - 1], values[index].document, at);
      assert values[..index + 1][..index] == values[..index];
      if next.Failure? {
        WalkStopsAtFirstFailure(p, values, index + 1);
        return next;
      }
      at := next.value;
    }
    assert values[..|values|] == values;
    return Success(at);
  }
}
