/** What callers of the reservation store can rely on, over every interleaving. */
module IngressSafety {
  import opened IngressStore

  function Run(events: seq<Event>): (s: State)
    ensures Sound(s.store) && Refines(s)
  {
    if events == [] then StartRefines(); START
    else
      var before := Run(events[..|events| - 1]);
      StepRefines(before, events[|events| - 1]);
      Step(before, events[|events| - 1])
  }

  lemma StartRefines()
    ensures Refines(START)
  {
  }

  /**
   However callers interleave, the replies so far are those of the sequential store serving the
   callers in order of arrival, and the rest of them are still in line.
   */
  lemma EveryRunIsSequential(events: seq<Event>)
    ensures var s := Run(events);
      && s.replies == Sequential(s.calls).replies && s.store == Sequential(s.calls).store
      && Requests(s.calls) <= s.arrived && |s.arrived| == |s.replies| + |InLine(s)|
      && Paired(s.store)
  {
    SequentialIsPaired(Run(events).calls);
  }

  // ---------- replies, read off the history ----------

  /** The call at `j` was accepted and holds the nonce of `r`, or its RFQ. */
  ghost predicate HoldsNonce(calls: seq<Call>, j: int, r: Request) {
    0 <= j < |calls| && Sequential(calls).replies[j].Accepted? && NonceOf(calls[j].request) == NonceOf(r)
  }

  ghost predicate HoldsRfq(calls: seq<Call>, j: int, r: Request) {
    0 <= j < |calls| && Sequential(calls).replies[j].Accepted? && RfqOf(calls[j].request) == RfqOf(r)
  }

  ghost predicate Explains(calls: seq<Call>, j: int, t: Terminal) {
    0 <= j < |calls| && calls[j].request == t.owner && Sequential(calls).replies[j] == Accepted(t.reservation)
  }

  lemma ServeAppends(s: Store, call: Call)
    requires Sound(s)
    ensures var (store, reply) := Serve(s, call.request, call.outcome);
      store.terminals == s.terminals + (if reply.Accepted? then [Terminal(call.request, reply.reservation)] else [])
  {
  }

  lemma NextStore(calls: seq<Call>, call: Call)
    ensures Sequential(calls + [call]).store == Serve(Sequential(calls).store, call.request, call.outcome).0
    ensures Sequential(calls + [call]).replies
         == Sequential(calls).replies + [Serve(Sequential(calls).store, call.request, call.outcome).1]
  {
    hide Sequential, Serve, Sound;
    SequentialNext(calls, call);
  }

  lemma NextTerminals(calls: seq<Call>, call: Call)
    ensures var before, after := Sequential(calls), Sequential(calls + [call]);
      && (forall j :: 0 <= j < |calls| ==> after.replies[j] == before.replies[j])
      && after.store.terminals == before.store.terminals
           + (if after.replies[|calls|].Accepted?
              then [Terminal(call.request, after.replies[|calls|].reservation)] else [])
  {
    hide Sequential, Serve, Sound;
    NextStore(calls, call);
    ServeAppends(Sequential(calls).store, call);
  }

  /** Every terminal comes from an accepted call. */
  lemma {:induction false} TerminalHasCall(calls: seq<Call>, t: nat) returns (j: nat)
    requires t < |Sequential(calls).store.terminals|
    ensures Explains(calls, j, Sequential(calls).store.terminals[t])
  {
    hide Sequential;
    if calls == [] {
      assert false by { NoTerminals(); }
    } else {
      var front, last := calls[..|calls| - 1], calls[|calls| - 1];
      assert calls == front + [last];
      NextTerminals(front, last);
      if t < |Sequential(front).store.terminals| {
        j := TerminalHasCall(front, t);
      } else {
        j := |front|;
      }
    }
  }

  lemma NoTerminals()
    ensures Sequential([]).store.terminals == []
  {
  }

  /** Every accepted call has its terminal. */
  lemma {:induction false} CallHasTerminal(calls: seq<Call>, j: nat) returns (t: nat)
    requires j < |calls| && Sequential(calls).replies[j].Accepted?
    ensures t < |Sequential(calls).store.terminals| && Explains(calls, j, Sequential(calls).store.terminals[t])
  {
    hide Sequential;
    var front, last := calls[..|calls| - 1], calls[|calls| - 1];
    assert calls == front + [last];
    NextTerminals(front, last);
    if j < |front| {
      t := CallHasTerminal(front, j);
    } else {
      t := |Sequential(front).store.terminals|;
    }
  }

  lemma NonceOwner(s: Store, r: Request)
    requires Paired(s) && NonceOf(r) in s.byNonce
    ensures s.byNonce[NonceOf(r)] < |s.terminals| && NonceOf(s.terminals[s.byNonce[NonceOf(r)]].owner) == NonceOf(r)
  {
  }

  lemma RfqOwner(s: Store, r: Request)
    requires Paired(s) && RfqOf(r) in s.byRfq
    ensures s.byRfq[RfqOf(r)] < |s.terminals| && RfqOf(s.terminals[s.byRfq[RfqOf(r)]].owner) == RfqOf(r)
  {
  }

  lemma TerminalOwns(s: Store, t: nat)
    requires Paired(s) && t < |s.terminals|
    ensures var r := s.terminals[t].owner;
      && NonceOf(r) in s.byNonce && s.byNonce[NonceOf(r)] == t && RfqOf(r) in s.byRfq && s.byRfq[RfqOf(r)] == t
  {
  }

  /** A key is known exactly when an accepted call holds it. */
  lemma {:induction false} KnownMeansHeld(calls: seq<Call>, r: Request)
    ensures NonceOf(r) in Sequential(calls).store.byNonce <==> exists j :: HoldsNonce(calls, j, r)
    ensures RfqOf(r) in Sequential(calls).store.byRfq <==> exists j :: HoldsRfq(calls, j, r)
  {
    hide Sequential, NonceOf, RfqOf, Paired;
    SequentialIsPaired(calls);
    var s := Sequential(calls).store;
    if NonceOf(r) in s.byNonce {
      NonceOwner(s, r);
      var j := TerminalHasCall(calls, s.byNonce[NonceOf(r)]);
      assert HoldsNonce(calls, j, r);
    }
    if RfqOf(r) in s.byRfq {
      RfqOwner(s, r);
      var j := TerminalHasCall(calls, s.byRfq[RfqOf(r)]);
      assert HoldsRfq(calls, j, r);
    }
    if j :| HoldsNonce(calls, j, r) {
      var t := CallHasTerminal(calls, j);
      TerminalOwns(s, t);
    }
    if j :| HoldsRfq(calls, j, r) {
      var t := CallHasTerminal(calls, j);
      TerminalOwns(s, t);
    }
  }

  /** The accepted call that this request repeats: same nonce, same RFQ, same digest. */
  ghost predicate Repeats(calls: seq<Call>, j: int, r: Request) {
    HoldsNonce(calls, j, r) && HoldsRfq(calls, j, r) && calls[j].request.digest == r.digest
  }

  lemma {:induction false} IdempotentRepeats(calls: seq<Call>, r: Request, reservation: nat)
    requires ReplyToKnown(Sequential(calls).store, r) == Idempotent(reservation)
    ensures exists j :: Repeats(calls, j, r) && Sequential(calls).replies[j] == Accepted(reservation)
  {
    hide Sequential, NonceOf, RfqOf, Paired, Sound;
    SequentialIsPaired(calls);
    var s := Sequential(calls).store;
    NonceOwner(s, r);
    RfqOwner(s, r);
    var j := TerminalHasCall(calls, s.byNonce[NonceOf(r)]);
    assert Repeats(calls, j, r);
  }

  lemma {:induction false} RepeatIsIdempotent(calls: seq<Call>, r: Request, j: int)
    requires Repeats(calls, j, r)
    ensures ReplyToKnown(Sequential(calls).store, r) == Idempotent(Sequential(calls).replies[j].reservation)
  {
    hide Sequential, NonceOf, RfqOf, Paired, Sound;
    SequentialIsPaired(calls);
    var t := CallHasTerminal(calls, j);
    TerminalOwns(Sequential(calls).store, t);
  }

  ghost predicate Held(calls: seq<Call>, r: Request) {
    exists j :: HoldsNonce(calls, j, r) || HoldsRfq(calls, j, r)
  }

  /**
   The reply to a call, from the accepted calls before it alone: its own outcome when neither key is
   held, the first reservation when it repeats one in nonce, RFQ and digest, and a conflict otherwise.
   */
  lemma {:induction false} ReplyMeans(calls: seq<Call>, call: Call)
    ensures var reply := Sequential(calls + [call]).replies[|calls|];
      && (forall v :: reply == Accepted(v) <==> !Held(calls, call.request) && call.outcome == Reserved(v))
      && (forall e :: reply == Rejected(e) <==> !Held(calls, call.request) && call.outcome == Failed(e))
      && (forall v :: reply == Idempotent(v) <==>
            exists j :: Repeats(calls, j, call.request) && Sequential(calls).replies[j] == Accepted(v))
      && (reply == Conflict <==> Held(calls, call.request) && forall j :: !Repeats(calls, j, call.request))
  {
    hide Sequential, NonceOf, RfqOf, Sound, ReplyToKnown, Record, Repeats;
    NextStore(calls, call);
    KnownMeansHeld(calls, call.request);
    var s, r := Sequential(calls), call.request;
    RepeatsIsHeld(calls, r);
    if Known(s.store, r) {
      KnownReplies(s.store, r);
      forall j | Repeats(calls, j, r)
        ensures 0 <= j < |calls| && s.replies[j].Accepted?
            && ReplyToKnown(s.store, r) == Idempotent(s.replies[j].reservation)
      {
        RepeatIsIdempotent(calls, r, j);
        RepeatWasAccepted(calls, r, j);
      }
      if ReplyToKnown(s.store, r).Idempotent? {
        IdempotentRepeats(calls, r, ReplyToKnown(s.store, r).reservation);
      }
    }
  }

  lemma RepeatsIsHeld(calls: seq<Call>, r: Request)
    ensures (exists j :: Repeats(calls, j, r)) ==> Held(calls, r)
  {
    hide Sequential;
  }

  lemma RepeatWasAccepted(calls: seq<Call>, r: Request, j: int)
    requires Repeats(calls, j, r)
    ensures 0 <= j < |calls| && Sequential(calls).replies[j].Accepted?
  {
    hide Sequential;
  }

  lemma KnownReplies(s: Store, r: Request)
    requires Sound(s)
    ensures ReplyToKnown(s, r).Idempotent? || ReplyToKnown(s, r).Conflict?
  {
  }

  lemma {:induction false} RepliesOfPrefix(calls: seq<Call>, n: nat)
    requires n <= |calls|
    ensures Sequential(calls[..n]).replies == Sequential(calls).replies[..n]
    decreases |calls| - n
  {
    hide Serve;
    if n == |calls| {
      assert calls[..n] == calls;
    } else {
      RepliesOfPrefix(calls, n + 1);
      assert calls[..n + 1] == calls[..n] + [calls[n]];
      SequentialNext(calls[..n], calls[n]);
    }
  }

  /** No nonce and no RFQ is ever accepted twice. */
  lemma {:induction false} AtMostOneAcceptance(calls: seq<Call>, j: nat, k: nat)
    requires j < k < |calls|
    requires Sequential(calls).replies[j].Accepted? && Sequential(calls).replies[k].Accepted?
    ensures NonceOf(calls[j].request) != NonceOf(calls[k].request) && RfqOf(calls[j].request) != RfqOf(calls[k].request)
  {
    hide Sequential, NonceOf, RfqOf, Explains, Repeats;
    RepliesOfPrefix(calls, k);
    RepliesOfPrefix(calls, k + 1);
    assert calls[..k + 1] == calls[..k] + [calls[k]];
    assert Sequential(calls[..k]).replies[j].Accepted?;
    if NonceOf(calls[j].request) == NonceOf(calls[k].request) || RfqOf(calls[j].request) == RfqOf(calls[k].request) {
      assert HoldsNonce(calls[..k], j, calls[k].request) || HoldsRfq(calls[..k], j, calls[k].request);
      assert Held(calls[..k], calls[k].request);
      hide Held;
      AcceptedMeansFree(calls[..k], calls[k]);
      assert false;
    }
  }

  lemma {:induction false} AcceptedMeansFree(calls: seq<Call>, call: Call)
    ensures Sequential(calls + [call]).replies[|calls|].Accepted? ==> !Held(calls, call.request)
  {
    hide Sequential, Repeats, Held;
    ReplyMeans(calls, call);
  }

  lemma {:induction false} LastReply(calls: seq<Call>, call: Call)
    ensures Sequential(calls + [call]).replies[|calls|] == Serve(Sequential(calls).store, call.request, call.outcome).1
  {
    hide Sequential, Serve, Sound;
    NextStore(calls, call);
  }

  lemma {:induction false} FailureKeepsStore(calls: seq<Call>, call: Call)
    requires Sequential(calls + [call]).replies[|calls|].Rejected?
    ensures Sequential(calls + [call]).store == Sequential(calls).store
  {
    hide Sequential, Serve, Sound;
    NextStore(calls, call);
    RejectionKeepsStore(Sequential(calls).store, call);
  }

  /** A failed reservation leaves no trace: the next call is decided as if the failed one had never been made. */
  lemma {:induction false} FailureLeavesNoTrace(calls: seq<Call>, call: Call, next: Call)
    requires Sequential(calls + [call]).replies[|calls|].Rejected?
    ensures Sequential((calls + [call]) + [next]).replies[|calls| + 1] == Sequential(calls + [next]).replies[|calls|]
  {
    hide Sequential, Serve, Sound;
    FailureKeepsStore(calls, call);
    LastReply(calls, next);
    LastReply(calls + [call], next);
  }

  lemma RejectionKeepsStore(s: Store, call: Call)
    requires Sound(s)
    ensures Serve(s, call.request, call.outcome).1.Rejected? ==> Serve(s, call.request, call.outcome).0 == s
  {
  }

  /** Nothing blocks the line: one turn, whatever its reservation does, answers exactly one caller. */
  lemma EveryTurnAnswersOneCaller(events: seq<Event>, outcome: Outcome)
    requires InLine(Run(events)) != []
    ensures var s, next := Run(events), Run(events + [Begin, Settle(outcome)]);
      |next.replies| == |s.replies| + 1 && InLine(next) == InLine(s)[1..]
  {
    hide Run, Step, Refines, Sound, InLine;
    var begun := events + [Begin];
    assert events + [Begin, Settle(outcome)] == begun + [Settle(outcome)];
    RunNext(events, Begin);
    RunNext(begun, Settle(outcome));
    TurnAnswersOne(Run(events), outcome);
  }

  lemma RunNext(events: seq<Event>, e: Event)
    ensures Run(events + [e]) == Step(Run(events), e)
  {
    hide Step, Refines, Sound;
    assert (events + [e])[..|events|] == events;
  }

  lemma TurnAnswersOne(s: State, outcome: Outcome)
    requires Sound(s.store) && InLine(s) != []
    ensures Sound(Step(s, Begin).store)
    ensures var next := Step(Step(s, Begin), Settle(outcome));
      |next.replies| == |s.replies| + 1 && InLine(next) == InLine(s)[1..]
  {
    hide Sound, Known, ReplyToKnown, Record;
  }
}
