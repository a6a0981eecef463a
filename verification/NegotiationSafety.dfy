/** What an accepted transcript is, and what its latest digest and the equivocation store pin down. */
module NegotiationSafety {
  import opened Negotiation
  import opened Wrappers

  // ---------- a transcript, stated without walking it ----------

  ghost predicate Chained(values: seq<Signed>) {
    && values != [] && RootOffer(values[0].document)
    && (forall i :: 1 <= i < |values| ==> ChainsOn(values[0].document, values[i - 1], values[i].document))
  }

  /** Counters in the middle, and after the root no second offer. */
  ghost predicate OnlyLastEnds(values: seq<Signed>) {
    && (forall i :: 1 <= i < |values| - 1 ==> values[i].document.body.Counter?)
    && (|values| > 1 ==> !values[|values| - 1].document.body.Offer?)
  }

  ghost predicate TakesTurns(values: seq<Signed>) {
    forall i :: 1 <= i < |values| && !values[i].document.body.Cancel? ==>
      values[i].document.author != values[i - 1].document.author
  }

  ghost predicate OneIntent(values: seq<Signed>) {
    forall i :: 1 <= i < |values| && values[0].document.body.Offer? && Proposes(values[i].document) ==>
      values[i].document.body.terms.intent == values[0].document.body.terms.intent
  }

  /** The terms last proposed: the last document's own, or those of the one before an ending. */
  function LastTerms(values: seq<Signed>): Option<Terms> {
    if values == [] then None
    else
      var last := values[|values| - 1].document;
      if Proposes(last) then Some(last.body.terms)
      else if |values| > 1 && Proposes(values[|values| - 2].document)
        then Some(values[|values| - 2].document.body.terms)
      else None
  }

  predicate EndingBinds(p: Primitives, values: seq<Signed>)
    requires values != []
  {
    match values[|values| - 1].document.body
    case Accept(digest) => LastTerms(values).Some? && digest == p.termsDigest(LastTerms(values).value)
    case Cancel(digest, _) => LastTerms(values).Some? && digest == p.termsDigest(LastTerms(values).value)
    case _ => true
  }

  ghost predicate IsTranscript(p: Primitives, values: seq<Signed>) {
    Chained(values) && OnlyLastEnds(values) && TakesTurns(values) && OneIntent(values) && EndingBinds(p, values)
  }

  function EndState(d: Document): State {
    match d.body case Accept(_) => Accepted case Cancel(_, _) => Cancelled case _ => Open
  }

  lemma Shorter(p: Primitives, values: seq<Signed>)
    requires IsTranscript(p, values) && |values| > 1
    ensures IsTranscript(p, values[..|values| - 1]) && Proposes(values[|values| - 2].document)
  {
    var front := values[..|values| - 1];
    assert forall i :: 0 <= i < |front| ==> front[i] == values[i];
  }

  lemma AddOne(p: Primitives, values: seq<Signed>)
    requires |values| > 1 && IsTranscript(p, values[..|values| - 1])
    ensures var n := |values| - 1;
      IsTranscript(p, values) <==>
        && Proposes(values[n - 1].document)
        && ChainsOn(values[0].document, values[n - 1], values[n].document)
        && !values[n].document.body.Offer?
        && (values[n].document.body.Cancel? || values[n].document.author != values[n - 1].document.author)
        && (Proposes(values[n].document) ==>
            values[n].document.body.terms.intent == values[0].document.body.terms.intent)
        && EndingBinds(p, values)
  {
    var front := values[..|values| - 1];
    assert forall i :: 0 <= i < |front| ==> values[i] == front[i];
    if IsTranscript(p, values) { Shorter(p, values); }
    if |front| > 1 && Proposes(values[|front| - 1].document) {
      assert !front[|front| - 1].document.body.Offer?;
      assert values[|front| - 1].document.body.Counter?;
    }
  }

  /**
   Evaluation accepts exactly the transcripts: revisions chained from a root offer, one intent, turns
   taken, and nothing after an ending that binds the terms last proposed, by the other party if accepted.
   */
  lemma {:induction false} WalkAcceptsExactlyTranscripts(p: Primitives, values: seq<Signed>)
    requires values != [] && RootOffer(values[0].document)
    ensures Walk(p, values).Success? <==> IsTranscript(p, values)
    ensures Walk(p, values).Success? ==>
      LastTerms(values).Some?
      && Walk(p, values).value == Progress(EndState(values[|values| - 1].document),
           p.termsDigest(LastTerms(values).value))
  {
    hide IsTranscript;
    if |values| == 1 {
      RootIsTranscript(p, values);
    } else {
      var front := values[..|values| - 1];
      assert front[0] == values[0] && front[|front| - 1] == values[|values| - 2];
      WalkAcceptsExactlyTranscripts(p, front);
      IntentsAgree(p, front);
      if IsTranscript(p, front) {
        AddOne(p, values);
      }
      if IsTranscript(p, values) {
        Shorter(p, values);
      }
    }
  }

  lemma RootIsTranscript(p: Primitives, values: seq<Signed>)
    requires |values| == 1 && RootOffer(values[0].document)
    ensures IsTranscript(p, values)
  {
  }

  lemma IntentsAgree(p: Primitives, values: seq<Signed>)
    requires values != [] && RootOffer(values[0].document)
    ensures IsTranscript(p, values) && Proposes(values[|values| - 1].document) ==>
      values[|values| - 1].document.body.terms.intent == values[0].document.body.terms.intent
  {
  }

  /** The revisions are 1, 2, ..., n, all in one conversation. */
  lemma {:induction false} RevisionsCount(values: seq<Signed>, i: nat)
    requires Chained(values) && i < |values|
    ensures values[i].document.revision == i + 1
      && values[i].document.conversationId == values[0].document.conversationId
  {
    if i == 0 {
    } else {
      RevisionsCount(values, i - 1);
      assert ChainsOn(values[0].document, values[i - 1], values[i].document);
    }
  }

  // ---------- the latest digest stands for the whole transcript ----------

  function DocumentsOf(values: seq<Signed>): seq<Document> {
    seq(|values|, i requires 0 <= i < |values| => values[i].document)
  }

  ghost predicate DigestsMatch(p: Primitives, values: seq<Signed>) {
    forall i :: 0 <= i < |values| ==> values[i].documentDigest == p.documentDigest(values[i].document)
  }

  ghost predicate Collision(p: Primitives) {
    exists x, y :: x != y && p.documentDigest(x) == p.documentDigest(y)
  }

  /** Two transcripts with one latest digest are the same documents, or the digest has a collision. */
  lemma {:induction false} LatestDigestIdentifiesTranscript(p: Primitives, a: seq<Signed>, b: seq<Signed>)
    requires Chained(a) && Chained(b) && DigestsMatch(p, a) && DigestsMatch(p, b)
    requires a[|a| - 1].documentDigest == b[|b| - 1].documentDigest
    ensures DocumentsOf(a) == DocumentsOf(b) || Collision(p)
    decreases |a|
  {
    hide ChainsOn;
    var x, y := a[|a| - 1].document, b[|b| - 1].document;
    if x == y {
      LastParent(a);
      LastParent(b);
      if |a| > 1 && |b| > 1 {
        var front, other := a[..|a| - 1], b[..|b| - 1];
        FrontIsChained(a);
        FrontIsChained(b);
        LatestDigestIdentifiesTranscript(p, front, other);
        assert DocumentsOf(a) == DocumentsOf(front) + [x] && DocumentsOf(b) == DocumentsOf(other) + [y];
      }
    }
  }

  lemma LastParent(a: seq<Signed>)
    requires Chained(a)
    ensures a[|a| - 1].document.parentDigest == if |a| == 1 then None else Some(a[|a| - 2].documentDigest)
  {
    if |a| > 1 {
      assert ChainsOn(a[0].document, a[|a| - 2], a[|a| - 1].document);
    }
  }

  lemma FrontIsChained(a: seq<Signed>)
    requires Chained(a) && |a| > 1
    ensures Chained(a[..|a| - 1])
  {
    var front := a[..|a| - 1];
    forall i | 1 <= i < |front|
      ensures ChainsOn(front[0].document, front[i - 1], front[i].document)
    {
      assert ChainsOn(a[0].document, a[i - 1], a[i].document);
    }
  }

  // ---------- what the store remembers ----------

  ghost predicate Grows(before: Ledger, after: Ledger) {
    forall k :: k in before ==> k in after && after[k] == before[k]
  }

  ghost predicate Records(ledger: Ledger, values: seq<Signed>) {
    forall i :: 0 <= i < |values| ==> KeyOf(values[i]) in ledger && ledger[KeyOf(values[i])] == values[i].documentDigest
  }

  /** Recording never forgets or overwrites; a fully admitted list is recorded, signed and role-bound. */
  lemma {:induction false} AdmittedIsRecorded(p: Primitives, b: Bindings, ledger: Ledger, values: seq<Signed>)
    ensures Grows(ledger, Admit(p, b, ledger, values).ledger)
    ensures Admit(p, b, ledger, values).refusal.None? ==>
      && Records(Admit(p, b, ledger, values).ledger, values) && DigestsMatch(p, values)
      && forall i :: 0 <= i < |values| ==> SignedByRole(b, values[i])
    decreases |values|
  {
    hide SignedByRole;
    if values != [] && VerifySigned(p, values[0]) && SignedByRole(b, values[0])
       && !(KeyOf(values[0]) in ledger && ledger[KeyOf(values[0])] != values[0].documentDigest) {
      var more := ledger[KeyOf(values[0]) := values[0].documentDigest];
      AdmittedIsRecorded(p, b, more, values[1..]);
      assert values == [values[0]] + values[1..];
      if Admit(p, b, ledger, values).refusal.None? {
        var end := Admit(p, b, ledger, values).ledger;
        assert KeyOf(values[0]) in more;
        assert forall i :: 0 <= i < |values[1..]| ==> values[1..][i] == values[i + 1];
        forall i | 0 <= i < |values|
          ensures KeyOf(values[i]) in end && end[KeyOf(values[i])] == values[i].documentDigest
          ensures SignedByRole(b, values[i]) && values[i].documentDigest == p.documentDigest(values[i].document)
        {
          if i > 0 { assert values[1..][i - 1] == values[i]; }
        }
      }
    }
  }

  /** One evaluation: the role bindings it checks against, and its documents. */
  datatype Call = Call(bindings: Bindings, values: seq<Signed>)

  ghost function Consumed(p: Primitives, ledger: Ledger, calls: seq<Call>): Ledger {
    if calls == [] then ledger
    else
      var last := calls[|calls| - 1];
      Admit(p, last.bindings, Consumed(p, ledger, calls[..|calls| - 1]), last.values).ledger
  }

  lemma {:induction false} ConsumedGrows(p: Primitives, ledger: Ledger, calls: seq<Call>)
    ensures Grows(ledger, Consumed(p, ledger, calls))
  {
    hide Admit;
    if calls == [] {
    } else {
      var front, last := calls[..|calls| - 1], calls[|calls| - 1];
      ConsumedGrows(p, ledger, front);
      AdmittedIsRecorded(p, last.bindings, Consumed(p, ledger, front), last.values);
    }
  }

  /**
   No author is ever believed twice: of two transcripts evaluated against one store, each with its
   own role bindings and with any other evaluations in between, documents of one author, revision
   and conversation are the same document.
   */
  lemma NoEquivocation(p: Primitives, ledger: Ledger, first: Call, between: seq<Call>, second: Call, i: nat, j: nat)
    requires Admit(p, first.bindings, ledger, first.values).refusal.None?
    requires var recorded := Admit(p, first.bindings, ledger, first.values).ledger;
      Admit(p, second.bindings, Consumed(p, recorded, between), second.values).refusal.None?
    requires i < |first.values| && j < |second.values| && KeyOf(first.values[i]) == KeyOf(second.values[j])
    ensures first.values[i].documentDigest == second.values[j].documentDigest
    ensures first.values[i].document == second.values[j].document || Collision(p)
  {
    hide Admit, Consumed;
    var recorded := Admit(p, first.bindings, ledger, first.values).ledger;
    var later := Consumed(p, recorded, between);
    AdmittedIsRecorded(p, first.bindings, ledger, first.values);
    ConsumedGrows(p, recorded, between);
    AdmittedIsRecorded(p, second.bindings, later, second.values);
  }

  /** The result of an evaluation, read off the documents. */
  lemma EvaluationMeans(p: Primitives, values: seq<Signed>, now: nat, b: Bindings, ledger: Ledger)
    requires Evaluated(p, values, now, b, ledger).Success?
    ensures IsTranscript(p, values) && DigestsMatch(p, values)
    ensures var t, last := Evaluated(p, values, now, b, ledger).value, values[|values| - 1].document;
      && t.revisions == |values| == last.revision
      && t.latestDigest == p.documentDigest(last)
      && t.intent == values[0].document.body.terms.intent
      && LastTerms(values).Some? && t.activeTermsDigest == p.termsDigest(LastTerms(values).value)
      && (t.state == Accepted <==> last.body.Accept?) && (t.state == Cancelled <==> last.body.Cancel?)
      && (t.state == Expired <==> Proposes(last) && now > last.expiresAt)
  {
    hide Admit, Walk, IsTranscript;
    AdmittedIsRecorded(p, b, ledger, values);
    WalkAcceptsExactlyTranscripts(p, values);
    assert Chained(values) by { TranscriptIsChained(p, values); }
    RevisionsCount(values, |values| - 1);
  }

  lemma TranscriptIsChained(p: Primitives, values: seq<Signed>)
    requires IsTranscript(p, values)
    ensures Chained(values)
  {
  }
}
