/**
 The persisted payment store. Every method loads it, refuses or changes one record, and writes it
 back; its history of calls ties it to the runs about which the payment properties are proved.
 */
module PaymentStore {
  import opened PaymentLifecycle
  import opened PaymentSafety
  import opened Wrappers

  lemma OneMoreCall(c: Config, chain: nat, calls: seq<Call>, call: Call)
    ensures Run(c, chain, calls + [call]) == Step(c, chain, Run(c, chain, calls), call)
    ensures Sound(Run(c, chain, calls)) && Sound(Run(c, chain, calls + [call]))
  {
    hide Step, Sound;
    RunSplits(c, chain, calls, call);
    EveryRunIsSound(c, chain, calls);
    EveryRunIsSound(c, chain, calls + [call]);
  }

  lemma EqualsItself(c: Config, r: Request, chain: nat)
    ensures WellFormed(c, r) && ChainsEqual(c, Or(r.chainId, chain), chain) ==> RequestsEqual(c, r, r, chain)
  {
  }

  lemma ExpiringAll(c: Config, chain: nat, before: Payments, after: Payments, at: nat)
    ensures (after.Keys == before.Keys && forall id :: id in after ==> after[id] == Expire(before[id], at)) ==>
      after == Step(c, chain, before, ExpireAllCall(at))
  {
    hide Expire;
  }

  class OtcStore {
    const config: Config
    const chain: nat
    var payments: Payments
    ghost var calls: seq<Call>

    /** The store is what its calls have made of an empty one. */
    ghost predicate Valid()
      reads this
    {
      payments == Run(config, chain, calls)
    }

    /** One call later: sound as before, and no record changed but that of `id`. */
    twostate predicate Advanced(call: Call, id: nat)
      reads this
    {
      && Valid() && calls == old(calls) + [call] && Sound(payments)
      && payments == Step(config, chain, old(payments), call)
      && forall other :: other != id ==> Lookup(payments, other) == Lookup(old(payments), other)
    }

    constructor (config: Config, chain: nat)
      ensures this.config == config && this.chain == chain && payments == map[] && Valid()
    {
      this.config, this.chain, payments, calls := config, chain, map[], [];
    }

    /** A request is stored once: a repeat with the same terms keeps all that happened to it since. */
    method RecordPaymentRequest(r: Request, at: nat, fromLink: bool, link: Option<Authenticity>)
      returns (result: Result<Payment, Error>)
      requires Valid()
      modifies this
      ensures Advanced(RecordRequestCall(r, at, fromLink, link), r.requestId)
      ensures result.Failure? ==> payments == old(payments)
      ensures result.Success? ==>
        && r.requestId in payments && result.value == payments[r.requestId]
        && RequestsEqual(config, payments[r.requestId].request, r, chain)
      ensures result.Success? && r.requestId in old(payments) ==>
        var before, after := old(payments)[r.requestId], payments[r.requestId];
        && after.status == before.status && after.operation == before.operation && after.txHash == before.txHash
        && after.pending == before.pending && after.verified == before.verified && after.receipt == before.receipt
      ensures result.Success? && r.requestId !in old(payments) ==>
        && payments[r.requestId].status == (if IsExpired(r, at) then Expired else Requested)
        && payments[r.requestId].operation.None?
    {
      hide WellFormed, ChainsEqual, RequestsEqual, IsExpired, Sound, Run;
      OneMoreCall(config, chain, calls, RecordRequestCall(r, at, fromLink, link));
      calls := calls + [RecordRequestCall(r, at, fromLink, link)];
      if !WellFormed(config, r) { return Failure(InvalidRequest); }
      if !ChainsEqual(config, Or(r.chainId, chain), chain) { return Failure(WrongNetwork); }
      EqualsItself(config, r, chain);
      if r.requestId in payments {
        var existing := payments[r.requestId];
        if !RequestsEqual(config, existing.request, r, chain) { return Failure(ConflictingTerms); }
        if fromLink && (!existing.fromLink ||
            (existing.request.chainId.None? && r.chainId.Some?) || existing.link != link) {
          var imported := existing.(request := r, fromLink := true);
          if link.Some? {
            imported := imported.(link := link);
          }
          payments := payments[r.requestId := imported];
          return Success(imported);
        }
        return Success(existing);
      }
      var status := if IsExpired(r, at) then Expired else Requested;
      var record := Payment(r.requestId, status, r, fromLink, link, None, None, None, false, false, None, at);
      payments := payments[r.requestId := record];
      return Success(record);
    }

    /** A take is bound once, to a payment still requested, and only the requested token and amount. */
    method RecordInvoiceTakeSettled(id: nat, t: Take, at: nat) returns (result: Result<Payment, Error>)
      requires Valid()
      modifies this
      ensures Advanced(RecordTakeCall(id, t, at), id)
      ensures result.Failure? ==> payments == old(payments)
      ensures result.Success? ==>
        && id in payments && result.value == payments[id]
        && TakeOf(payments[id].operation) == Some(t) && InState(payments[id], AwaitingNoteMaturity)
        && payments[id].status == Requested && t.amount == payments[id].request.amount
        && t.token == payments[id].request.token.address
      ensures result.Success? && TakeOf(old(payments)[id].operation).Some? ==> payments == old(payments)
    {
      hide Run;
      OneMoreCall(config, chain, calls, RecordTakeCall(id, t, at));
      calls := calls + [RecordTakeCall(id, t, at)];
      if id !in payments { return Failure(NotStored); }
      var current := payments[id];
      var token := ResolveToken(config, current.request, chain);
      if token.None? { return Failure(UnresolvedToken); }
      if IsCanonicalStrk(config, token.value) { return Failure(StrkNeedsNoTake); }
      if current.status != Requested || current.pending || !IsFelt(t.txHash) || t.block >= SAFE_INTEGER_LIMIT
         || !IsPositiveAmount(t.amount) || !FeltEquals(t.token, token.value.address)
         || t.amount != current.request.amount {
        return Failure(TakeMismatch);
      }
      var existing := TakeOf(current.operation);
      if InState(current, AwaitingNoteMaturity) {
        if existing.Some? && existing.value == t { return Success(current); }
        return Failure(DifferentTake);
      }
      if current.operation.Some? { return Failure(OperationExists); }
      var next := current.(operation := Some(Operation(AwaitingNoteMaturity, None, Some(t), None, at)),
                           pending := false, verified := false, updatedAt := at);
      payments := payments[id := next];
      return Success(next);
    }

    /**
     A claim succeeds only on a requested, unexpired payment with the reviewed terms and, if a take
     is bound, at a mature head; it is then the one claim that no revert or release has given back.
     */
    method ClaimPayment(expected: Request, at: nat, head: Option<nat>, attempt: nat)
      returns (result: Result<Payment, Error>)
      requires Valid()
      modifies this
      ensures Advanced(ClaimCall(expected, at, head, attempt), expected.requestId)
      ensures result.Success? ==>
        var id := expected.requestId;
        && id in old(payments) && id in payments && result.value == payments[id]
        && old(payments)[id].status == Requested && !IsExpired(old(payments)[id].request, at)
        && RequestsEqual(config, old(payments)[id].request, expected, chain)
        && payments[id].status == Paid && payments[id].pending && payments[id].request == old(payments)[id].request
        && payments[id].operation
           == Some(Operation(Reserved, Some(attempt), TakeOf(old(payments)[id].operation), None, at))
      ensures result.Success? && TakeOf(old(payments)[expected.requestId].operation).Some? ==>
        head.Some? && head.value
          >= TakeOf(old(payments)[expected.requestId].operation).value.block + NOTE_MATURITY_BLOCKS
      ensures result.Success? ==>
        && NetClaims(config, chain, old(calls), expected.requestId) == 0
        && NetClaims(config, chain, calls, expected.requestId) == 1
      ensures result.Failure? ==>
        payments == old(payments)
        || (result.error == RequestExpired && expected.requestId in payments
            && payments[expected.requestId].status == Expired)
    {
      var call := ClaimCall(expected, at, head, attempt);
      OneMoreCall(config, chain, calls, call);
      ClaimsAreConserved(config, chain, calls, expected.requestId);
      ClaimsAreConserved(config, chain, calls + [call], expected.requestId);
      calls := calls + [call];
      var id := expected.requestId;
      if !WellFormed(config, expected) { return Failure(InvalidRequest); }
      if id !in payments || !RequestsEqual(config, payments[id].request, expected, chain) {
        return Failure(TermsMismatch);
      }
      var current := payments[id];
      if current.status != Requested || current.pending { return Failure(AlreadyPaid); }
      var token := ResolveToken(config, current.request, chain);
      if token.None? { return Failure(UnresolvedToken); }
      var take := TakeOf(current.operation);
      if InState(current, AwaitingNoteMaturity) {
        if take.None? || !FeltEquals(take.value.token, token.value.address)
           || take.value.amount != current.request.amount {
          return Failure(InvalidTakeRecord);
        }
        if head.None? { return Failure(MaturityUnchecked); }
        if take.value.block + NOTE_MATURITY_BLOCKS > head.value { return Failure(Immature); }
      }
      if IsExpired(current.request, at) {
        payments := payments[id := current.(status := Expired, updatedAt := at)];
        return Failure(RequestExpired);
      }
      var claimed := current.(status := Paid, operation := Some(Operation(Reserved, Some(attempt), take, None, at)),
                              txHash := None, pending := true, verified := false, updatedAt := at);
      payments := payments[id := claimed];
      return Success(claimed);
    }

    /** The other side's claim is noted beside the payment and changes nothing of its standing. */
    method RecordUnverifiedPaymentClaim(a: Accept, at: nat) returns (result: Result<Payment, Error>)
      requires Valid()
      modifies this
      ensures Advanced(CounterpartyClaimCall(a, at), a.dealId)
      ensures result.Failure? ==> payments == old(payments)
      ensures result.Success? ==>
        && a.dealId in old(payments) && a.dealId in payments && result.value == payments[a.dealId]
        && payments[a.dealId] == old(payments)[a.dealId].(claim := Some(a), updatedAt := at)
        && a.transfer.amount == payments[a.dealId].request.amount
        && a.transfer.to == payments[a.dealId].request.requester
    {
      hide Run;
      OneMoreCall(config, chain, calls, CounterpartyClaimCall(a, at));
      calls := calls + [CounterpartyClaimCall(a, at)];
      if !ValidTransfer(config, a.transfer) { return Failure(InvalidClaim); }
      if a.dealId !in payments { return Failure(NotStored); }
      var current := payments[a.dealId];
      if IsExpired(current.request, at) { return Failure(RequestExpired); }
      if ResolveToken(config, current.request, chain).None? { return Failure(UnresolvedToken); }
      var wanted := Transfer(current.request.token, current.request.amount, current.request.requester);
      if !TransfersEqual(a.transfer, wanted) { return Failure(ClaimMismatch); }
      var next := current.(claim := Some(a), updatedAt := at);
      payments := payments[current.requestId := next];
      return Success(next);
    }

    /** The hash is attached to the reserved attempt, which keeps its identity and its take. */
    method MarkPaymentSubmitted(id: nat, hash: nat, at: nat) returns (result: Result<Payment, Error>)
      requires Valid()
      modifies this
      ensures Advanced(MarkSubmittedCall(id, hash, at), id)
      ensures result.Failure? ==> payments == old(payments)
      ensures result.Success? ==>
        && id in old(payments) && id in payments && result.value == payments[id] && InState(old(payments)[id], Reserved)
        && payments[id].operation
           == Some(old(payments)[id].operation.value.(state := Submitted, txHash := Some(hash), updatedAt := at))
        && payments[id].txHash == Some(hash) && payments[id].status == Paid
        && payments[id].pending && !payments[id].verified
    {
      hide Run;
      OneMoreCall(config, chain, calls, MarkSubmittedCall(id, hash, at));
      calls := calls + [MarkSubmittedCall(id, hash, at)];
      if id !in payments || payments[id].status != Paid || !InState(payments[id], Reserved) || !IsFelt(hash) {
        return Failure(NothingReserved);
      }
      var current := payments[id];
      var operation := current.operation.value;
      var next := current.(operation := Some(Operation(Submitted, operation.attemptId, operation.take, Some(hash), at)),
                           txHash := Some(hash), pending := true, verified := false, updatedAt := at);
      payments := payments[id := next];
      return Success(next);
    }

    /** Confirmation needs the submitted hash and a receipt of exactly the requested transfer under it. */
    method ConfirmPayment(id: nat, hash: nat, receipt: Receipt, at: nat) returns (result: Result<Payment, Error>)
      requires Valid()
      modifies this
      ensures Advanced(ConfirmCall(id, hash, receipt, at), id)
      ensures result.Failure? ==> payments == old(payments)
      ensures result.Success? ==>
        && id in old(payments) && id in payments && result.value == payments[id]
        && InState(old(payments)[id], Submitted) && old(payments)[id].txHash == Some(hash)
        && receipt.dealId == id && receipt.txHash == hash
        && receipt.transfer.amount == payments[id].request.amount
        && receipt.transfer.to == payments[id].request.requester
        && TokensEqual(receipt.transfer.token, payments[id].request.token)
        && payments[id].verified && !payments[id].pending && payments[id].receipt == Some(receipt)
        && payments[id].request == old(payments)[id].request
      ensures result.Success? ==> Closed(payments[id])
    {
      hide Run;
      OneMoreCall(config, chain, calls, ConfirmCall(id, hash, receipt, at));
      calls := calls + [ConfirmCall(id, hash, receipt, at)];
      if id !in payments || payments[id].status != Paid || !InState(payments[id], Submitted)
         || payments[id].operation.value.txHash.None? {
        return Failure(NothingSubmitted);
      }
      var current := payments[id];
      var operation := current.operation.value;
      var wanted := Transfer(current.request.token, current.request.amount, current.request.requester);
      if receipt.dealId != id || !IsFelt(hash) || !FeltEquals(receipt.txHash, hash)
         || !FeltEquals(operation.txHash.value, hash)
         || (current.txHash.Some? && !FeltEquals(current.txHash.value, hash))
         || !TransfersEqual(receipt.transfer, wanted) {
        return Failure(ReceiptMismatch);
      }
      var next := current.(receipt := Some(receipt),
                           operation := Some(Operation(Confirmed, operation.attemptId, operation.take, Some(hash), at)),
                           txHash := Some(hash), pending := false, verified := true, updatedAt := at);
      payments := payments[id := next];
      return Success(next);
    }

    /** A revert makes the request payable again, its take still bound; an unknown outcome closes it. */
    method MarkPaymentOutcome(id: nat, hash: Option<nat>, reverted: bool, at: nat)
      returns (result: Result<Payment, Error>)
      requires Valid()
      modifies this
      ensures Advanced(MarkOutcomeCall(id, hash, reverted, at), id)
      ensures result.Failure? ==> payments == old(payments)
      ensures result.Success? ==>
        && id in old(payments) && id in payments && result.value == payments[id] && old(payments)[id].status == Paid
        && (InState(old(payments)[id], Submitted) || (!reverted && hash.None? && InState(old(payments)[id], Reserved)))
        && (InState(old(payments)[id], Submitted) ==> hash == old(payments)[id].txHash)
        && TakeOf(payments[id].operation) == TakeOf(old(payments)[id].operation)
      ensures result.Success? && reverted ==>
        && payments[id].status == AfterRelease(payments[id].request, at) && !payments[id].pending
        && (TakeOf(payments[id].operation).Some? ==> InState(payments[id], AwaitingNoteMaturity))
      ensures result.Success? && !reverted ==> payments[id].pending && Closed(payments[id])
    {
      hide Run;
      OneMoreCall(config, chain, calls, MarkOutcomeCall(id, hash, reverted, at));
      calls := calls + [MarkOutcomeCall(id, hash, reverted, at)];
      if id !in payments || payments[id].status != Paid || payments[id].operation.None? {
        return Failure(NothingSubmitted);
      }
      var current := payments[id];
      var operation := current.operation.value;
      var unknownWithoutHash :=
        !reverted && hash.None? && operation.state == Reserved && current.pending
        && operation.attemptId.Some? && current.txHash.None?;
      if !unknownWithoutHash
         && (operation.state != Submitted || operation.txHash.None? || hash.None? || !IsFelt(hash.value)
             || !FeltEquals(operation.txHash.value, hash.value)) {
        return Failure(NothingSubmitted);
      }
      var outcome: Operation;
      if reverted && operation.take.Some? {
        outcome := Operation(AwaitingNoteMaturity, None, operation.take, None, at);
      } else {
        outcome := Operation(if reverted then Reverted else Unknown, operation.attemptId, operation.take, hash, at);
      }
      var status := if !reverted then Paid else if IsExpired(current.request, at) then Expired else Requested;
      var next := current.(status := status, operation := Some(outcome), txHash := hash, pending := !reverted,
                           verified := false, updatedAt := at);
      payments := payments[id := next];
      return Success(next);
    }

    /** Only a reservation never handed to the wallet is given back; anything else is returned as it is. */
    method ReleasePayment(id: nat, at: nat) returns (result: Result<Payment, Error>)
      requires Valid()
      modifies this
      ensures Advanced(ReleaseCall(id, at), id)
      ensures result.Success? <==> id in payments
      ensures result.Success? ==> result.value == payments[id]
      ensures id in old(payments) && (!InState(old(payments)[id], Reserved) || old(payments)[id].status != Paid) ==>
        payments == old(payments)
      ensures id in old(payments) && InState(old(payments)[id], Reserved) && old(payments)[id].status == Paid ==>
        && id in payments && payments[id].status == AfterRelease(old(payments)[id].request, at)
        && !payments[id].pending && !payments[id].verified && payments[id].txHash.None?
        && payments[id].request == old(payments)[id].request && payments[id].claim == old(payments)[id].claim
        && TakeOf(payments[id].operation) == TakeOf(old(payments)[id].operation)
        && (payments[id].operation.Some? ==> InState(payments[id], AwaitingNoteMaturity))
    {
      hide Run;
      OneMoreCall(config, chain, calls, ReleaseCall(id, at));
      calls := calls + [ReleaseCall(id, at)];
      if id !in payments { return Failure(NotStored); }
      var current := payments[id];
      if current.status != Paid || !InState(current, Reserved) || !current.pending || current.txHash.Some? {
        return Success(current);
      }
      var take := TakeOf(current.operation);
      var status := if IsExpired(current.request, at) then Expired else Requested;
      var operation: Option<Operation> := None;
      if take.Some? {
        operation := Some(Operation(AwaitingNoteMaturity, None, take, None, at));
      }
      var next := Payment(current.requestId, status, current.request, current.fromLink, current.link, None, operation,
                          None, false, false, current.claim, at);
      payments := payments[id := next];
      return Success(next);
    }

    /** Visits the records one by one and rewrites those that have just expired. */
    method ExpireStored(at: nat)
      requires Valid()
      modifies this
      ensures Valid() && calls == old(calls) + [ExpireAllCall(at)] && Sound(payments)
      ensures payments.Keys == old(payments).Keys
      ensures forall id :: id in payments ==>
        payments[id] == if old(payments)[id].status == Requested && IsExpired(old(payments)[id].request, at)
                        then old(payments)[id].(status := Expired, updatedAt := at) else old(payments)[id]
    {
      hide Sound, Run, Step, IsExpired;
      OneMoreCall(config, chain, calls, ExpireAllCall(at));
      var remaining := payments.Keys;
      while remaining != {}
        invariant remaining <= payments.Keys == old(payments).Keys && calls == old(calls)
        invariant forall id :: id in payments ==>
          payments[id] == if id in remaining then old(payments)[id] else Expire(old(payments)[id], at)
        decreases |remaining|
      {
        var id :| id in remaining;
        if payments[id].status == Requested && IsExpired(payments[id].request, at) {
          payments := payments[id := payments[id].(status := Expired, updatedAt := at)];
        }
        remaining := remaining - {id};
      }
      ExpiringAll(config, chain, old(payments), payments, at);
      calls := calls + [ExpireAllCall(at)];
    }
  }
}
