/**
 The payment machine of the chat store: requests are recorded, claimed once, submitted,
 confirmed, reverted or released, and every record repeats its state in several fields.
 Felts, hashes and chain ids are numbers in canonical form; parsing of untrusted JSON text
 into a request is the predicate WellFormed.
 */
module PaymentLifecycle {
  import opened Wrappers

  const FELT_LIMIT: nat := 0x800000000000000000000000000000000000000000000000000000000000000
  const MAX_UINT256: nat := 0xffffffffffffffffffffffffffffffffffffffffffffffffffffffffffffffff
  const MAX_TOKEN_DECIMALS: nat := 255
  const SAFE_INTEGER_LIMIT: nat := 0x20_0000_0000_0000
  const STRK_DECIMALS: nat := 18
  const NOTE_MATURITY_BLOCKS: nat := 10

  datatype TokenRef = TokenRef(symbol: string, address: nat, decimals: nat)

  /** Build configuration: the STRK token, the public chains and the optional local network. */
  datatype Config = Config(
    strk: nat, mainChain: nat, sepoliaChain: nat,
    localnetEnabled: bool, localnetChain: nat, localnetUsdc: TokenRef)

  datatype Request = Request(
    requestId: nat, token: TokenRef, amount: nat, memo: Option<string>,
    expiresAt: nat, requester: nat, chainId: Option<nat>)

  datatype Transfer = Transfer(token: TokenRef, amount: nat, to: nat)

  datatype Accept = Accept(dealId: nat, transfer: Transfer)

  datatype Receipt = Receipt(dealId: nat, txHash: nat, transfer: Transfer)

  datatype Authenticity = Unsigned | Verified(mailboxKey: string, authKey: string)

  datatype OperationState = AwaitingNoteMaturity | Reserved | Submitted | Confirmed | Reverted | Unknown

  /** A settled swap that delivered the invoice's token. */
  datatype Take = Take(txHash: nat, block: nat, token: nat, amount: nat)

  datatype Operation = Operation(
    state: OperationState, attemptId: Option<nat>, take: Option<Take>, txHash: Option<nat>, updatedAt: nat)

  datatype Status = Requested | Paid | Expired

  /** Absent `paymentPending` and `paymentVerified` read as false. */
  datatype Payment = Payment(
    requestId: nat, status: Status, request: Request, fromLink: bool, link: Option<Authenticity>,
    receipt: Option<Receipt>, operation: Option<Operation>, txHash: Option<nat>,
    pending: bool, verified: bool, claim: Option<Accept>, updatedAt: nat)

  datatype Error =
    | InvalidRequest | WrongNetwork | ConflictingTerms | NotStored | StrkNeedsNoTake | TakeMismatch
    | DifferentTake | OperationExists | TermsMismatch | AlreadyPaid | UnresolvedToken | InvalidTakeRecord
    | MaturityUnchecked | Immature | RequestExpired | NothingReserved | NothingSubmitted
    | ReceiptMismatch | InvalidClaim | ClaimMismatch

  /** What a call writes under its request id, if anything, and what it returns or throws. */
  datatype Effect = Effect(saved: Option<Payment>, result: Result<Payment, Error>)

  function Refuse(e: Error): Effect {
    Effect(None, Failure(e))
  }

  function Save(p: Payment): Effect {
    Effect(Some(p), Success(p))
  }

  // ---------- values ----------

  predicate IsFelt(n: nat) {
    n < FELT_LIMIT
  }

  predicate FeltEquals(a: nat, b: nat) {
    IsFelt(a) && a == b
  }

  predicate IsPositiveAmount(n: nat) {
    0 < n <= MAX_UINT256
  }

  predicate IsCanonicalStrk(c: Config, t: TokenRef) {
    FeltEquals(t.address, c.strk) && t.decimals == STRK_DECIMALS && t.symbol == "STRK"
  }

  predicate ValidToken(c: Config, t: TokenRef) {
    && 0 < |t.symbol| <= 32 && IsFelt(t.address) && t.decimals <= MAX_TOKEN_DECIMALS
    && (FeltEquals(t.address, c.strk) ==> IsCanonicalStrk(c, t))
  }

  /** parsePaymentRequestPayload accepts. */
  predicate WellFormed(c: Config, r: Request) {
    ValidToken(c, r.token) && IsPositiveAmount(r.amount) && r.expiresAt < SAFE_INTEGER_LIMIT && IsFelt(r.requester)
  }

  predicate ValidTransfer(c: Config, t: Transfer) {
    ValidToken(c, t.token) && IsPositiveAmount(t.amount) && IsFelt(t.to)
  }

  predicate TokensEqual(a: TokenRef, b: TokenRef) {
    FeltEquals(a.address, b.address) && a.symbol == b.symbol && a.decimals == b.decimals
  }

  predicate TransfersEqual(a: Transfer, b: Transfer) {
    TokensEqual(a.token, b.token) && a.amount == b.amount && FeltEquals(a.to, b.to)
  }

  predicate ChainsEqual(c: Config, a: nat, b: nat) {
    a == b && (a == c.mainChain || a == c.sepoliaChain || (c.localnetEnabled && a == c.localnetChain))
  }

  function Or<T>(o: Option<T>, default: T): T {
    if o.Some? then o.value else default
  }

  predicate RequestsEqual(c: Config, a: Request, b: Request, chain: nat) {
    && a.requestId == b.requestId && TokensEqual(a.token, b.token) && a.amount == b.amount
    && Or(a.memo, "") == Or(b.memo, "") && a.expiresAt == b.expiresAt && FeltEquals(a.requester, b.requester)
    && ChainsEqual(c, Or(a.chainId, chain), chain) && ChainsEqual(c, Or(b.chainId, chain), chain)
  }

  predicate IsExpired(r: Request, at: nat) {
    r.expiresAt != 0 && r.expiresAt <= at
  }

  /** STRK everywhere; on the enabled local network also its registered USDC. */
  function ResolveToken(c: Config, r: Request, chain: nat): Option<TokenRef> {
    if IsCanonicalStrk(c, r.token) then Some(TokenRef("STRK", c.strk, STRK_DECIMALS))
    else if (r.chainId.Some? && !FeltEquals(r.chainId.value, chain))
           || !c.localnetEnabled || !FeltEquals(chain, c.localnetChain)
    then None
    else if TokensEqual(r.token, c.localnetUsdc) then Some(c.localnetUsdc)
    else None
  }

  function TakeOf(o: Option<Operation>): Option<Take> {
    if o.Some? then o.value.take else None
  }

  predicate InState(p: Payment, s: OperationState) {
    p.operation.Some? && p.operation.value.state == s
  }

  // ---------- the calls, on one record ----------

  function RecordRequest(
      c: Config, chain: nat, current: Option<Payment>, r: Request,
      at: nat, fromLink: bool, link: Option<Authenticity>): Effect
  {
    if !WellFormed(c, r) then Refuse(InvalidRequest)
    else if !ChainsEqual(c, Or(r.chainId, chain), chain) then Refuse(WrongNetwork)
    else if current.None? then
      Save(Payment(r.requestId, if IsExpired(r, at) then Expired else Requested, r, fromLink, link,
                   None, None, None, false, false, None, at))
    else
      var p := current.value;
      if !RequestsEqual(c, p.request, r, chain) then Refuse(ConflictingTerms)
      else if fromLink && (!p.fromLink || (p.request.chainId.None? && r.chainId.Some?) || p.link != link) then
        Save(p.(request := r, fromLink := true, link := if link.Some? then link else p.link))
      else Effect(None, Success(p))
  }

  function RecordTake(c: Config, chain: nat, current: Option<Payment>, t: Take, at: nat): Effect {
    if current.None? then Refuse(NotStored)
    else
      var p := current.value;
      var token := ResolveToken(c, p.request, chain);
      if token.None? then Refuse(UnresolvedToken)
      else if IsCanonicalStrk(c, token.value) then Refuse(StrkNeedsNoTake)
      else if
        || p.status != Requested || p.pending || !IsFelt(t.txHash) || t.block >= SAFE_INTEGER_LIMIT
        || !IsPositiveAmount(t.amount) || !FeltEquals(t.token, token.value.address) || t.amount != p.request.amount
      then Refuse(TakeMismatch)
      else if InState(p, AwaitingNoteMaturity) then
        if TakeOf(p.operation) == Some(t) then Effect(None, Success(p)) else Refuse(DifferentTake)
      else if p.operation.Some? then Refuse(OperationExists)
      else Save(p.(operation := Some(Operation(AwaitingNoteMaturity, None, Some(t), None, at)),
                   pending := false, verified := false, updatedAt := at))
  }

  /** An awaiting payment needs a sound take and a head block at its maturity. */
  function MaturityRefusal(c: Config, chain: nat, p: Payment, token: TokenRef, head: Option<nat>): Option<Error> {
    if !InState(p, AwaitingNoteMaturity) then None
    else
      var take := TakeOf(p.operation);
      if take.None? || !FeltEquals(take.value.token, token.address) || take.value.amount != p.request.amount
      then Some(InvalidTakeRecord)
      else if head.None? then Some(MaturityUnchecked)
      else if take.value.block + NOTE_MATURITY_BLOCKS > head.value then Some(Immature)
      else None
  }

  /** `attempt` is the fresh random attempt id; `head` is present for claimMatureInvoicePayment. */
  function Claim(
      c: Config, chain: nat, current: Option<Payment>, expected: Request,
      at: nat, head: Option<nat>, attempt: nat): Effect
  {
    if !WellFormed(c, expected) then Refuse(InvalidRequest)
    else if current.None? || !RequestsEqual(c, current.value.request, expected, chain) then Refuse(TermsMismatch)
    else
      var p := current.value;
      if p.status != Requested || p.pending then Refuse(AlreadyPaid)
      else
        var token := ResolveToken(c, p.request, chain);
        if token.None? then Refuse(UnresolvedToken)
        else
          var refusal := MaturityRefusal(c, chain, p, token.value, head);
          if refusal.Some? then Refuse(refusal.value)
          else if IsExpired(p.request, at) then
            Effect(Some(p.(status := Expired, updatedAt := at)), Failure(RequestExpired))
          else
            Save(p.(status := Paid,
                    operation := Some(Operation(Reserved, Some(attempt), TakeOf(p.operation), None, at)),
                    txHash := None, pending := true, verified := false, updatedAt := at))
  }

  function CounterpartyClaim(c: Config, chain: nat, current: Option<Payment>, a: Accept, at: nat): Effect {
    if !ValidTransfer(c, a.transfer) then Refuse(InvalidClaim)
    else if current.None? then Refuse(NotStored)
    else
      var p := current.value;
      if IsExpired(p.request, at) then Refuse(RequestExpired)
      else if ResolveToken(c, p.request, chain).None? then Refuse(UnresolvedToken)
      else if !TransfersEqual(a.transfer, Transfer(p.request.token, p.request.amount, p.request.requester))
      then Refuse(ClaimMismatch)
      else Save(p.(claim := Some(a), updatedAt := at))
  }

  function MarkSubmitted(current: Option<Payment>, hash: nat, at: nat): Effect {
    if current.None? || current.value.status != Paid || !InState(current.value, Reserved) || !IsFelt(hash)
    then Refuse(NothingReserved)
    else
      var p := current.value;
      var o := p.operation.value;
      Save(p.(operation := Some(Operation(Submitted, o.attemptId, o.take, Some(hash), at)),
              txHash := Some(hash), pending := true, verified := false, updatedAt := at))
  }

  function Confirm(current: Option<Payment>, hash: nat, receipt: Receipt, at: nat): Effect {
    if || current.None? || current.value.status != Paid || !InState(current.value, Submitted)
       || current.value.operation.value.txHash.None?
    then Refuse(NothingSubmitted)
    else
      var p := current.value;
      var o := p.operation.value;
      if || receipt.dealId != p.requestId || !IsFelt(hash) || !FeltEquals(receipt.txHash, hash)
         || !FeltEquals(o.txHash.value, hash) || (p.txHash.Some? && !FeltEquals(p.txHash.value, hash))
         || !TransfersEqual(receipt.transfer, Transfer(p.request.token, p.request.amount, p.request.requester))
      then Refuse(ReceiptMismatch)
      else
        Save(p.(receipt := Some(receipt), operation := Some(Operation(Confirmed, o.attemptId, o.take, Some(hash), at)),
                txHash := Some(hash), pending := false, verified := true, updatedAt := at))
  }

  function AfterRelease(r: Request, at: nat): Status {
    if IsExpired(r, at) then Expired else Requested
  }

  function MarkOutcome(current: Option<Payment>, hash: Option<nat>, reverted: bool, at: nat): Effect {
    if current.None? || current.value.status != Paid || current.value.operation.None? then Refuse(NothingSubmitted)
    else
      var p := current.value;
      var o := p.operation.value;
      var unknownWithoutHash :=
        !reverted && hash.None? && o.state == Reserved && p.pending && o.attemptId.Some? && p.txHash.None?;
      var matching :=
        o.state == Submitted && o.txHash.Some? && hash.Some?
        && IsFelt(hash.value) && FeltEquals(o.txHash.value, hash.value);
      if !unknownWithoutHash && !matching then Refuse(NothingSubmitted)
      else
        var next :=
          if reverted && o.take.Some? then Operation(AwaitingNoteMaturity, None, o.take, None, at)
          else Operation(if reverted then Reverted else Unknown, o.attemptId, o.take, hash, at);
        Save(p.(status := if reverted then AfterRelease(p.request, at) else Paid, operation := Some(next),
                txHash := hash, pending := !reverted, verified := false, updatedAt := at))
  }

  function Release(current: Option<Payment>, at: nat): Effect {
    if || current.None? || current.value.status != Paid || !InState(current.value, Reserved)
       || !current.value.pending || current.value.txHash.Some?
    then Effect(None, if current.Some? then Success(current.value) else Failure(NotStored))
    else
      var p := current.value;
      var take := p.operation.value.take;
      Save(Payment(p.requestId, AfterRelease(p.request, at), p.request, p.fromLink, p.link, None,
                   if take.Some? then Some(Operation(AwaitingNoteMaturity, None, take, None, at)) else None,
                   None, false, false, p.claim, at))
  }

  function Expire(p: Payment, at: nat): Payment {
    if p.status == Requested && IsExpired(p.request, at) then p.(status := Expired, updatedAt := at) else p
  }

  // ---------- the calls, on the store ----------

  datatype Call =
    | RecordRequestCall(r: Request, at: nat, fromLink: bool, link: Option<Authenticity>)
    | RecordTakeCall(id: nat, t: Take, at: nat)
    | ClaimCall(expected: Request, at: nat, head: Option<nat>, attempt: nat)
    | CounterpartyClaimCall(a: Accept, at: nat)
    | MarkSubmittedCall(id: nat, hash: nat, at: nat)
    | ConfirmCall(id: nat, hash: nat, receipt: Receipt, at: nat)
    | MarkOutcomeCall(id: nat, outcomeHash: Option<nat>, reverted: bool, at: nat)
    | ReleaseCall(id: nat, at: nat)
    | ExpireAllCall(at: nat)

  type Payments = map<nat, Payment>

  function Lookup(m: Payments, id: nat): Option<Payment> {
    if id in m then Some(m[id]) else None
  }

  function Target(call: Call): nat
    requires !call.ExpireAllCall?
  {
    match call
    case RecordRequestCall(r, _, _, _) => r.requestId
    case ClaimCall(expected, _, _, _) => expected.requestId
    case CounterpartyClaimCall(a, _) => a.dealId
    case RecordTakeCall(id, _, _) => id
    case MarkSubmittedCall(id, _, _) => id
    case ConfirmCall(id, _, _, _) => id
    case MarkOutcomeCall(id, _, _, _) => id
    case ReleaseCall(id, _) => id
  }

  function EffectOf(c: Config, chain: nat, m: Payments, call: Call): Effect
    requires !call.ExpireAllCall?
  {
    var current := Lookup(m, Target(call));
    match call
    case RecordRequestCall(r, at, fromLink, link) => RecordRequest(c, chain, current, r, at, fromLink, link)
    case RecordTakeCall(_, t, at) => RecordTake(c, chain, current, t, at)
    case ClaimCall(expected, at, head, attempt) => Claim(c, chain, current, expected, at, head, attempt)
    case CounterpartyClaimCall(a, at) => CounterpartyClaim(c, chain, current, a, at)
    case MarkSubmittedCall(_, hash, at) => MarkSubmitted(current, hash, at)
    case ConfirmCall(_, hash, receipt, at) => Confirm(current, hash, receipt, at)
    case MarkOutcomeCall(_, hash, reverted, at) => MarkOutcome(current, hash, reverted, at)
    case ReleaseCall(_, at) => Release(current, at)
  }

  function Step(c: Config, chain: nat, m: Payments, call: Call): Payments {
    if call.ExpireAllCall? then map id | id in m :: Expire(m[id], call.at)
    else
      var e := EffectOf(c, chain, m, call);
      if e.saved.Some? then m[Target(call) := e.saved.value] else m
  }
}
