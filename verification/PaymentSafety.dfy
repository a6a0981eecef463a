/** What every run of the payment API keeps, starting from an empty store. */
module PaymentSafety {
  import opened Wrappers
  import opened PaymentLifecycle

  /** The redundant fields of a record agree. */
  predicate Consistent(p: Payment) {
    && (p.status == Paid <==>
          InState(p, Reserved) || InState(p, Submitted) || InState(p, Unknown) || InState(p, Confirmed))
    && (p.pending <==> InState(p, Reserved) || InState(p, Submitted) || InState(p, Unknown))
    && (p.verified <==> InState(p, Confirmed))
    && (InState(p, Reserved) ==> p.txHash.None? && p.operation.value.attemptId.Some?)
    && (InState(p, Submitted) || InState(p, Confirmed) ==> p.txHash.Some? && p.txHash == p.operation.value.txHash)
    // a confirmed payment has a receipt of exactly the requested transfer under its hash
    && (InState(p, Confirmed) ==>
          && p.receipt.Some? && Some(p.receipt.value.txHash) == p.txHash
          && TransfersEqual(p.receipt.value.transfer, Transfer(p.request.token, p.request.amount, p.request.requester)))
    // a bound take is never lost to a reverted attempt, and awaiting means bound
    && (InState(p, AwaitingNoteMaturity) ==> TakeOf(p.operation).Some?)
    && (TakeOf(p.operation).Some? ==> !InState(p, Reverted))
  }

  predicate Sound(m: Payments) {
    forall id :: id in m ==> m[id].requestId == id && m[id].request.requestId == id && Consistent(m[id])
  }

  lemma {:induction false} EffectIsConsistent(c: Config, chain: nat, m: Payments, call: Call)
    requires Sound(m) && !call.ExpireAllCall?
    ensures var e := EffectOf(c, chain, m, call);
      e.saved.Some? ==>
        && Consistent(e.saved.value) && e.saved.value.requestId == Target(call)
        && e.saved.value.request.requestId == Target(call)
  {
  }

  lemma StepIsSound(c: Config, chain: nat, m: Payments, call: Call)
    requires Sound(m)
    ensures Sound(Step(c, chain, m, call))
  {
    hide EffectOf, Consistent;
    if call.ExpireAllCall? {
      ExpireIsConsistent(m, call.at);
    } else {
      EffectIsConsistent(c, chain, m, call);
    }
  }

  lemma ExpireIsConsistent(m: Payments, at: nat)
    requires Sound(m)
    ensures forall id :: id in m ==>
      Consistent(Expire(m[id], at)) && Expire(m[id], at).requestId == id && Expire(m[id], at).request.requestId == id
  {
  }

  /** The store after a run from the empty one. */
  function Run(c: Config, chain: nat, calls: seq<Call>): Payments {
    if calls == [] then map[] else Step(c, chain, Run(c, chain, calls[..|calls| - 1]), calls[|calls| - 1])
  }

  /** The status, the pending flag and the verified flag always say what the operation says. */
  lemma {:induction false} EveryRunIsSound(c: Config, chain: nat, calls: seq<Call>)
    ensures Sound(Run(c, chain, calls))
  {
    if calls == [] {
    } else {
      EveryRunIsSound(c, chain, calls[..|calls| - 1]);
      StepIsSound(c, chain, Run(c, chain, calls[..|calls| - 1]), calls[|calls| - 1]);
    }
  }

  /** No call on one request changes, adds or removes another request's record. */
  lemma OtherRecordsUntouched(c: Config, chain: nat, m: Payments, call: Call, id: nat)
    requires !call.ExpireAllCall? && id != Target(call)
    ensures Lookup(Step(c, chain, m, call), id) == Lookup(m, id)
  {
  }

  // ---------- counting claims ----------

  predicate ClaimsNow(c: Config, chain: nat, m: Payments, call: Call, id: nat) {
    call.ClaimCall? && Target(call) == id && EffectOf(c, chain, m, call).result.Success?
  }

  predicate RevertsNow(c: Config, chain: nat, m: Payments, call: Call, id: nat) {
    call.MarkOutcomeCall? && call.reverted && Target(call) == id && EffectOf(c, chain, m, call).result.Success?
  }

  predicate ReleasesNow(c: Config, chain: nat, m: Payments, call: Call, id: nat) {
    call.ReleaseCall? && Target(call) == id && EffectOf(c, chain, m, call).saved.Some?
  }

  /** Successful claims, minus the reverts and releases that gave one back. */
  function NetClaims(c: Config, chain: nat, calls: seq<Call>, id: nat): int {
    if calls == [] then 0
    else
      var before, call := calls[..|calls| - 1], calls[|calls| - 1];
      var m := Run(c, chain, before);
      NetClaims(c, chain, before, id)
      + (if ClaimsNow(c, chain, m, call, id) then 1 else 0)
      - (if RevertsNow(c, chain, m, call, id) then 1 else 0)
      - (if ReleasesNow(c, chain, m, call, id) then 1 else 0)
  }

  function Holding(m: Payments, id: nat): int {
    if id in m && m[id].status == Paid then 1 else 0
  }

  lemma {:induction false} StepMovesHolding(c: Config, chain: nat, m: Payments, call: Call, id: nat)
    requires Sound(m)
    ensures Holding(Step(c, chain, m, call), id) == Holding(m, id)
      + (if ClaimsNow(c, chain, m, call, id) then 1 else 0)
      - (if RevertsNow(c, chain, m, call, id) then 1 else 0)
      - (if ReleasesNow(c, chain, m, call, id) then 1 else 0)
  {
  }

  /**
   Conservation: at every moment of every run the successful claims of a request exceed its reverts
   and releases by one if it is paid and by none otherwise. So claims never exceed 1 + reverts + releases.
   */
  lemma {:induction false} ClaimsAreConserved(c: Config, chain: nat, calls: seq<Call>, id: nat)
    ensures NetClaims(c, chain, calls, id) == Holding(Run(c, chain, calls), id)
  {
    if calls == [] {
    } else {
      var before := calls[..|calls| - 1];
      ClaimsAreConserved(c, chain, before, id);
      EveryRunIsSound(c, chain, before);
      StepMovesHolding(c, chain, Run(c, chain, before), calls[|calls| - 1], id);
    }
  }

  // ---------- final states ----------

  /** Expired, unknown or confirmed: no later call claims this payment or changes its standing. */
  predicate Closed(p: Payment) {
    p.status == Expired || InState(p, Unknown) || InState(p, Confirmed)
  }

  lemma {:induction false} ClosedStays(c: Config, chain: nat, m: Payments, call: Call, id: nat)
    requires Sound(m) && id in m && Closed(m[id])
    ensures var m' := Step(c, chain, m, call);
      && id in m' && m'[id].status == m[id].status && m'[id].operation == m[id].operation
      && m'[id].pending == m[id].pending && m'[id].verified == m[id].verified
      && !ClaimsNow(c, chain, m, call, id)
  {
  }

  lemma RunSplits(c: Config, chain: nat, calls: seq<Call>, call: Call)
    ensures Run(c, chain, calls + [call]) == Step(c, chain, Run(c, chain, calls), call)
  {
    assert (calls + [call])[..|calls + [call]| - 1] == calls;
  }

  lemma {:induction false} ClosedForever(c: Config, chain: nat, calls: seq<Call>, more: seq<Call>, id: nat)
    requires id in Run(c, chain, calls) && Closed(Run(c, chain, calls)[id])
    ensures var (m, m') := (Run(c, chain, calls), Run(c, chain, calls + more));
      && id in m' && m'[id].status == m[id].status && m'[id].operation == m[id].operation
      && NetClaims(c, chain, calls + more, id) == NetClaims(c, chain, calls, id)
    decreases |more|
  {
    hide Step, EffectOf, Sound, ClaimsNow, RevertsNow, ReleasesNow;
    if more == [] {
      assert calls + more == calls;
    } else {
      var n := |more| - 1;
      var front := calls + more[..n];
      ClosedForever(c, chain, calls, more[..n], id);
      EveryRunIsSound(c, chain, front);
      ClosedStays(c, chain, Run(c, chain, front), more[n], id);
      assert calls + more == front + [more[n]];
      RunSplits(c, chain, front, more[n]);
      ClaimsAreConserved(c, chain, calls + more, id);
      ClaimsAreConserved(c, chain, calls, id);
    }
  }

  // ---------- the invoice take ----------

  lemma {:induction false} StepKeepsTake(c: Config, chain: nat, m: Payments, call: Call, id: nat)
    requires Sound(m) && id in m && TakeOf(m[id].operation).Some?
    ensures var m' := Step(c, chain, m, call);
      id in m' && TakeOf(m'[id].operation) == TakeOf(m[id].operation)
  {
  }

  /** Once bound, the same take survives every later call of the run. */
  lemma {:induction false} TakeSurvives(c: Config, chain: nat, calls: seq<Call>, more: seq<Call>, id: nat)
    requires id in Run(c, chain, calls) && TakeOf(Run(c, chain, calls)[id].operation).Some?
    ensures var (m, m') := (Run(c, chain, calls), Run(c, chain, calls + more));
      id in m' && TakeOf(m'[id].operation) == TakeOf(m[id].operation)
    decreases |more|
  {
    hide Step, EffectOf, Sound, ClaimsNow, RevertsNow, ReleasesNow;
    if more == [] {
      assert calls + more == calls;
    } else {
      var n := |more| - 1;
      var front := calls + more[..n];
      TakeSurvives(c, chain, calls, more[..n], id);
      EveryRunIsSound(c, chain, front);
      StepKeepsTake(c, chain, Run(c, chain, front), more[n], id);
      assert calls + more == front + [more[n]];
      RunSplits(c, chain, front, more[n]);
    }
  }

  /** A payment with a bound take is claimed only at a head block ten past the take's block or later. */
  lemma ClaimsOnlyWhenMature(c: Config, chain: nat, calls: seq<Call>, call: Call, id: nat)
    requires ClaimsNow(c, chain, Run(c, chain, calls), call, id)
    ensures id in Run(c, chain, calls)
    ensures var take := TakeOf(Run(c, chain, calls)[id].operation);
      take.Some? ==> call.head.Some? && call.head.value >= take.value.block + NOTE_MATURITY_BLOCKS
  {
    EveryRunIsSound(c, chain, calls);
    hide Run, RequestsEqual, ResolveToken, WellFormed;
  }
}
