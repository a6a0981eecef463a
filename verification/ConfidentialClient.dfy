/**
 The crash-safe confidential client as a transition system: one process holding the journal's
 lock, a durable journal, a chain shared with the other party, and a crash, an error or a
 chain event possible between any two awaits.
 */
module ConfidentialClient {
  import opened Wrappers
  import opened ConfidentialPolicy

  datatype AttemptMode = Operation(mode: Mode) | Funding(role: Role)

  datatype Attempt = Attempt(id: nat, mode: AttemptMode, hash: Option<nat>)

  datatype Journal = Journal(pending: Option<Attempt>, confirmed: seq<Attempt>)

  datatype Outcome = InFlight | Succeeded | Reverted

  /** One call of `send`; its hash is known once `send` returned it to the process. */
  datatype Submission = Submission(id: nat, mode: AttemptMode, amount: nat, hash: Option<nat>, outcome: Outcome)

  datatype Chain = Chain(time: nat, settled: bool, registered: bool, balanceA: nat, balanceB: nat)

  /** The agreed amounts and deadline, and the roles whose side only this client funds. */
  datatype Deal = Deal(amountA: nat, amountB: nat, deadline: nat, mine: set<Role>)

  /** What is_settled and the latest block said. */
  datatype Seen = Seen(time: nat, settled: bool)

  datatype Snapshot = Snapshot(seen: Seen, registered: bool, balanceA: nat, balanceB: nat)

  /** A decision taken on a snapshot: an operation prepared or a funding computed. */
  datatype Decision = Decision(attempt: AttemptMode, snapshot: Snapshot)

  /** Who asked for a snapshot. */
  datatype Purpose = ToFund(role: Role) | ToPrepare(mode: Mode)

  /** What follows a reconciliation. */
  datatype Stage =
    | Finish
    | FundNext(role: Role)
    | ExecuteNext(mode: Mode, id: nat)
    | WriteNext(id: nat, attempt: AttemptMode, amount: nat)

  /** Where the process stands; each constructor is an await that has not completed. */
  datatype Pc =
    | Idle
    | Crashed
    // reconcileUnlocked
    | LoadJournal(next: Stage)
    | ReadReceipt(mem: Journal, next: Stage)
    | CheckSettled(mem: Journal, next: Stage)
    | SaveClosed(mem: Journal, next: Stage)
    // snapshot, then the decision of funding or prepare
    | Inspect(purpose: Purpose)
    | ReadRegistration(purpose: Purpose, seen: Seen)
    | ReadNotes(purpose: Purpose, seen: Seen, registered: bool)
    | Decide(purpose: Purpose, snapshot: Snapshot)
    // proveUnlocked
    | InspectForExecute(mode: Mode, id: nat)
    | Prove(mode: Mode, id: nat)
    | InspectAgain(mode: Mode, id: nat)
    // broadcast
    | LoadForWrite(id: nat, attempt: AttemptMode, amount: nat)
    | SavePending(mem: Journal, amount: nat)
    | Send(mem: Journal, amount: nat)
    | Sending(mem: Journal)
    | SaveHash(mem: Journal)
    | WaitFor

  /** `counted` and the two histories record the run; the program does not read them. */
  datatype World = World(
    disk: Journal, locked: bool, pc: Pc, chain: Chain,
    log: seq<Submission>, counted: nat, decided: seq<Decision>)

  datatype Event =
    | BeginReconcile
    | BeginFund(role: Role)
    | BeginExecute(mode: Mode, id: nat)
    | BeginPrepare(mode: Mode)
    | Proceed
    | SendReturns(hash: nat)
    | Throw
    | Crash
    | Unlock
    | Tick(delta: nat)
    | Land(k: nat, ok: bool, leftA: nat, leftB: nat)
    | ForeignRegister
    | ForeignSettle(leftA: nat, leftB: nat)
    | ForeignBalance(role: Role, value: nat)

  function Balance(c: Chain, role: Role): nat {
    if role == A then c.balanceA else c.balanceB
  }

  function WithBalance(c: Chain, role: Role, v: nat): Chain {
    if role == A then c.(balanceA := v) else c.(balanceB := v)
  }

  function Agreed(d: Deal, role: Role): nat {
    if role == A then d.amountA else d.amountB
  }

  /** Each side is funded under an identifier of its own. */
  function FundingId(role: Role): nat {
    if role == A then 0 else 1
  }

  // ---------- the process ----------

  /** An error: the lock is released and memory is gone. */
  function Release(w: World): World {
    w.(pc := Idle, locked := false)
  }

  function Enter(w: World, next: Stage): World {
    match next
    case Finish => Release(w)
    case FundNext(role) => w.(pc := Inspect(ToFund(role)))
    case ExecuteNext(mode, id) => w.(pc := InspectForExecute(mode, id))
    case WriteNext(id, attempt, amount) => w.(pc := LoadForWrite(id, attempt, amount))
  }

  /** The receipt of the latest submission that carries this hash. */
  function ReceiptOf(log: seq<Submission>, hash: nat): Outcome {
    if log == [] then InFlight
    else if log[|log| - 1].hash == Some(hash) then log[|log| - 1].outcome
    else ReceiptOf(log[..|log| - 1], hash)
  }

  /** The journal after a final receipt: a success is confirmed, a revert is dropped. */
  function Closed(mem: Journal, outcome: Outcome): Journal
    requires mem.pending.Some?
  {
    Journal(None, if outcome == Succeeded then mem.confirmed + [mem.pending.value] else mem.confirmed)
  }

  function ProceedReconcile(w: World): World {
    match w.pc
    case LoadJournal(next) =>
      if w.disk.pending.None? then Enter(w, next)
      else if w.disk.pending.value.hash.None? then Release(w)
      else w.(pc := ReadReceipt(w.disk, next))
    case ReadReceipt(mem, next) =>
      if mem.pending.None? || mem.pending.value.hash.None? then Release(w)
      else
        var receipt := ReceiptOf(w.log, mem.pending.value.hash.value);
        if receipt == InFlight then Release(w)
        else if receipt == Succeeded && mem.pending.value.mode == Operation(Settle) then
          w.(pc := CheckSettled(mem, next))
        else w.(pc := SaveClosed(Closed(mem, receipt), next))
    case CheckSettled(mem, next) =>
      if mem.pending.None? || !w.chain.settled then Release(w)
      else w.(pc := SaveClosed(Closed(mem, Succeeded), next))
    case SaveClosed(mem, next) => Enter(w.(disk := mem, counted := |w.log|), next)
    case _ => w
  }

  /** checkTime: setup and settlement before the deadline and unsettled, refunds from it on. */
  predicate TimeAllows(d: Deal, m: Mode, seen: Seen) {
    if m == Setup || m == Settle then !seen.settled && seen.time < d.deadline else seen.time >= d.deadline
  }

  function Look(w: World): Seen {
    Seen(w.chain.time, w.chain.settled)
  }

  /** The refusals of prepare, in its order; the builder and the review may still throw. */
  predicate MayPrepare(d: Deal, m: Mode, s: Snapshot, pending: bool) {
    && !pending && TimeAllows(d, m, s.seen)
    && (m != Setup ==> s.registered)
    && (m == Setup ==> !s.registered)
    && (m == Settle ==> Ready(d, s))
    && (m == RefundA ==> s.balanceA > 0)
    && (m == RefundB ==> s.balanceB > 0)
  }

  /** The status `ready` of a snapshot. */
  predicate Ready(d: Deal, s: Snapshot) {
    !s.seen.settled && s.seen.time < d.deadline && s.registered && s.balanceA >= d.amountA && s.balanceB >= d.amountB
  }

  function SideOf(s: Snapshot, role: Role): nat {
    if role == A then s.balanceA else s.balanceB
  }

  predicate MayFund(d: Deal, role: Role, s: Snapshot, pending: bool) {
    TimeAllows(d, Settle, s.seen) && s.registered && !pending && SideOf(s, role) < Agreed(d, role)
  }

  function ProceedSnapshot(d: Deal, w: World): World {
    match w.pc
    case Inspect(purpose) => w.(pc := ReadRegistration(purpose, Look(w)))
    case ReadRegistration(purpose, seen) => w.(pc := ReadNotes(purpose, seen, w.chain.registered))
    case ReadNotes(purpose, seen, registered) =>
      var (a, b) := if registered then (w.chain.balanceA, w.chain.balanceB) else (0, 0);
      w.(pc := Decide(purpose, Snapshot(seen, registered, a, b)))
    case Decide(ToPrepare(m), s) =>
      if MayPrepare(d, m, s, w.disk.pending.Some?) then Release(w.(decided := w.decided + [Decision(Operation(m), s)]))
      else Release(w)
    case Decide(ToFund(role), s) =>
      if MayFund(d, role, s, w.disk.pending.Some?) then
        w.(decided := w.decided + [Decision(Funding(role), s)],
           pc := LoadJournal(WriteNext(FundingId(role), Funding(role), Agreed(d, role) - SideOf(s, role))))
      else Release(w)
    case _ => w
  }

  function ProceedExecute(d: Deal, w: World): World {
    match w.pc
    case InspectForExecute(mode, id) => if TimeAllows(d, mode, Look(w)) then w.(pc := Prove(mode, id)) else Release(w)
    case Prove(mode, id) => w.(pc := InspectAgain(mode, id))
    case InspectAgain(mode, id) =>
      if TimeAllows(d, mode, Look(w)) then w.(pc := LoadJournal(WriteNext(id, Operation(mode), 0))) else Release(w)
    case _ => w
  }

  /** Persist the intent, send, persist the hash, reconcile. */
  function ProceedBroadcast(w: World): World {
    match w.pc
    case LoadForWrite(id, attempt, amount) =>
      w.(pc := SavePending(w.disk.(pending := Some(Attempt(id, attempt, None))), amount))
    case SavePending(mem, amount) => w.(disk := mem, pc := Send(mem, amount))
    case Send(mem, amount) =>
      if mem.pending.None? then Release(w)
      else w.(log := w.log + [Submission(mem.pending.value.id, mem.pending.value.mode, amount, None, InFlight)],
              pc := Sending(mem))
    case SaveHash(mem) => w.(disk := mem, pc := WaitFor)
    case WaitFor => w.(pc := LoadJournal(Finish))
    case _ => w
  }

  predicate Running(pc: Pc) {
    pc != Idle && pc != Crashed
  }

  function ProceedFrom(d: Deal, w: World): Option<World> {
    match w.pc
    case LoadJournal(_) => Some(ProceedReconcile(w))
    case ReadReceipt(_, _) => Some(ProceedReconcile(w))
    case CheckSettled(_, _) => Some(ProceedReconcile(w))
    case SaveClosed(_, _) => Some(ProceedReconcile(w))
    case Inspect(_) => Some(ProceedSnapshot(d, w))
    case ReadRegistration(_, _) => Some(ProceedSnapshot(d, w))
    case ReadNotes(_, _, _) => Some(ProceedSnapshot(d, w))
    case Decide(_, _) => Some(ProceedSnapshot(d, w))
    case InspectForExecute(_, _) => Some(ProceedExecute(d, w))
    case Prove(_, _) => Some(ProceedExecute(d, w))
    case InspectAgain(_, _) => Some(ProceedExecute(d, w))
    case Idle => None
    case Crashed => None
    case Sending(_) => None
    case _ => Some(ProceedBroadcast(w))
  }

  // ---------- the chain ----------

  /** Whether the pool and the escrow let a submission succeed in this state. */
  predicate MayLand(d: Deal, c: Chain, mode: AttemptMode, leftA: nat, leftB: nat) {
    match mode
    case Funding(_) => true
    case Operation(Setup) => c.time < d.deadline && !c.settled
    case Operation(Settle) => MaySettle(d, c, leftA, leftB)
    case Operation(RefundA) => c.time >= d.deadline && leftA <= c.balanceA
    case Operation(RefundB) => c.time >= d.deadline && leftB <= c.balanceB
  }

  predicate MaySettle(d: Deal, c: Chain, leftA: nat, leftB: nat) {
    && c.time < d.deadline && !c.settled && c.registered
    && leftA + d.amountA <= c.balanceA && leftB + d.amountB <= c.balanceB
  }

  function Landed(c: Chain, s: Submission, leftA: nat, leftB: nat): Chain {
    match s.mode
    case Funding(role) => WithBalance(c, role, Balance(c, role) + s.amount)
    case Operation(Setup) => c.(registered := true)
    case Operation(Settle) => c.(settled := true, balanceA := leftA, balanceB := leftB)
    case Operation(RefundA) => c.(balanceA := leftA)
    case Operation(RefundB) => c.(balanceB := leftB)
  }

  predicate HashIsFresh(log: seq<Submission>, hash: nat) {
    forall k :: 0 <= k < |log| ==> log[k].hash != Some(hash)
  }

  /** Submission `k`, still in flight, gets its receipt; a success takes effect on the chain. */
  function LandAt(d: Deal, w: World, k: nat, ok: bool, leftA: nat, leftB: nat): Option<World> {
    if k >= |w.log| || w.log[k].outcome != InFlight then None
    else
      var s := w.log[k];
      if !ok then Some(w.(log := w.log[k := s.(outcome := Reverted)]))
      else if !MayLand(d, w.chain, s.mode, leftA, leftB) then None
      else Some(w.(log := w.log[k := s.(outcome := Succeeded)], chain := Landed(w.chain, s, leftA, leftB)))
  }

  // ---------- one step ----------

  function Start(w: World, pc: Pc): Option<World> {
    if w.pc == Idle && !w.locked then Some(w.(pc := pc, locked := true)) else None
  }

  function Step(d: Deal, w: World, e: Event): Option<World> {
    match e
    case BeginReconcile => Start(w, LoadJournal(Finish))
    case BeginFund(role) => if role in d.mine then Start(w, LoadJournal(FundNext(role))) else None
    case BeginExecute(mode, id) => Start(w, LoadJournal(ExecuteNext(mode, id)))
    case BeginPrepare(mode) => Start(w, Inspect(ToPrepare(mode)))
    case Proceed => ProceedFrom(d, w)
    case SendReturns(hash) =>
      if w.pc.Sending? && w.log != [] && w.pc.mem.pending.Some? && HashIsFresh(w.log, hash) then
        var n := |w.log| - 1;
        Some(w.(log := w.log[n := w.log[n].(hash := Some(hash))],
                pc := SaveHash(w.pc.mem.(pending := Some(w.pc.mem.pending.value.(hash := Some(hash)))))))
      else None
    case Throw => if Running(w.pc) then Some(Release(w)) else None
    case Crash => if Running(w.pc) then Some(w.(pc := Crashed)) else None
    case Unlock => if w.pc == Crashed then Some(Release(w)) else None
    case Tick(delta) => Some(w.(chain := w.chain.(time := w.chain.time + delta)))
    case Land(k, ok, leftA, leftB) => LandAt(d, w, k, ok, leftA, leftB)
    case ForeignRegister =>
      if w.chain.time < d.deadline && !w.chain.settled then Some(w.(chain := w.chain.(registered := true))) else None
    case ForeignSettle(leftA, leftB) =>
      if MaySettle(d, w.chain, leftA, leftB)
      then Some(w.(chain := w.chain.(settled := true, balanceA := leftA, balanceB := leftB))) else None
    case ForeignBalance(role, value) =>
      if role in d.mine then None else Some(w.(chain := WithBalance(w.chain, role, value)))
  }

  /** A session with an empty journal and no side of this client's over-funded. */
  predicate Initial(d: Deal, w: World) {
    && w.disk == Journal(None, []) && !w.locked && w.pc == Idle
    && w.log == [] && w.counted == 0 && w.decided == []
    && forall role :: role in d.mine ==> Balance(w.chain, role) <= Agreed(d, role)
  }

  /** The world after a run; None when some event was not possible. */
  function Run(d: Deal, w: World, events: seq<Event>): Option<World> {
    if events == [] then Some(w)
    else
      var before := Run(d, w, events[..|events| - 1]);
      if before.None? then None else Step(d, before.value, events[|events| - 1])
  }
}
