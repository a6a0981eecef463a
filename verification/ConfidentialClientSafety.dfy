/** What every run of the confidential client keeps, whatever crashes and errors it meets. */
module ConfidentialClientSafety {
  import opened Wrappers
  import opened ConfidentialPolicy
  import opened ConfidentialClient

  function AttemptOf(s: Submission): Attempt {
    Attempt(s.id, s.mode, s.hash)
  }

  /** The attempts of the submissions that succeeded, in the order they were sent. */
  function SuccessfulAttempts(log: seq<Submission>): seq<Attempt> {
    if log == [] then []
    else
      var last := log[|log| - 1];
      SuccessfulAttempts(log[..|log| - 1]) + if last.outcome == Succeeded then [AttemptOf(last)] else []
  }

  predicate Final(s: Submission) {
    s.outcome != InFlight && s.hash.Some?
  }

  /** The journal's pending attempt speaks of this submission; its hash may not be recorded. */
  predicate SpeaksOf(a: Attempt, s: Submission) {
    a.id == s.id && a.mode == s.mode && (a.hash.Some? ==> a.hash == s.hash)
  }

  /**
   The journal accounts for everything ever sent: all but possibly the last submission are final,
   `confirmed` lists exactly the successful ones in order, and a submission not yet counted is the
   pending attempt.
   */
  predicate Accounted(w: World) {
    && w.counted <= |w.log| <= w.counted + 1
    && (forall k :: 0 <= k < w.counted ==> Final(w.log[k]))
    && w.disk.confirmed == SuccessfulAttempts(w.log[..w.counted])
    && (w.counted < |w.log| ==> w.disk.pending.Some? && SpeaksOf(w.disk.pending.value, w.log[w.counted]))
    && (w.disk.pending.Some? && w.disk.pending.value.hash.Some? ==> w.counted < |w.log|)
  }

  /** An attempt that was sent and whose hash is on disk. */
  predicate KnownPending(w: World) {
    && w.disk.pending.Some? && w.disk.pending.value.hash.Some?
    && w.counted < |w.log| && w.log[w.counted].hash == w.disk.pending.value.hash
  }

  /** How memory relates to disk at each await. */
  predicate InMemory(w: World) {
    && (w.pc != Idle ==> w.locked)
    && match w.pc
       case LoadJournal(next) => next.WriteNext? ==> w.disk.pending.None?
       case ReadReceipt(mem, next) => mem == w.disk && KnownPending(w) && !next.WriteNext?
       case CheckSettled(mem, next) =>
         mem == w.disk && KnownPending(w) && !next.WriteNext? && w.log[w.counted].outcome == Succeeded
       case SaveClosed(mem, next) =>
         && KnownPending(w) && !next.WriteNext? && w.log[w.counted].outcome != InFlight
         && mem == Closed(w.disk, w.log[w.counted].outcome)
       case Inspect(ToFund(_)) => w.disk.pending.None?
       case ReadRegistration(ToFund(_), _) => w.disk.pending.None?
       case ReadNotes(ToFund(_), _, _) => w.disk.pending.None?
       case Decide(ToFund(_), _) => w.disk.pending.None?
       case InspectForExecute(_, _) => w.disk.pending.None?
       case Prove(_, _) => w.disk.pending.None?
       case InspectAgain(_, _) => w.disk.pending.None?
       case LoadForWrite(_, _, _) => w.disk.pending.None?
       case SavePending(mem, _) =>
         w.disk.pending.None? && mem.pending.Some? && mem.pending.value.hash.None? && mem.confirmed == w.disk.confirmed
       case Send(mem, _) =>
         mem == w.disk && mem.pending.Some? && mem.pending.value.hash.None? && w.counted == |w.log|
       case Sending(mem) =>
         && mem == w.disk && mem.pending.Some? && mem.pending.value.hash.None?
         && w.counted < |w.log| && w.log[w.counted].hash.None?
       case SaveHash(mem) =>
         && w.disk.pending.Some? && mem.pending.Some? && w.counted < |w.log|
         && mem.pending.value == w.disk.pending.value.(hash := w.log[w.counted].hash)
         && w.log[w.counted].hash.Some? && mem.confirmed == w.disk.confirmed
       case _ => true
  }

  lemma {:induction false} ReconcileKeepsAccount(w: World)
    requires Accounted(w) && InMemory(w)
    requires w.pc.LoadJournal? || w.pc.ReadReceipt? || w.pc.CheckSettled? || w.pc.SaveClosed?
    ensures Accounted(ProceedReconcile(w)) && InMemory(ProceedReconcile(w))
  {
    if w.pc.SaveClosed? {
      var n := w.counted;
      assert w.log[..n + 1][..n] == w.log[..n] && w.log[..n + 1] == w.log;
    }
  }

  lemma BroadcastKeepsAccount(w: World)
    requires Accounted(w) && InMemory(w)
    requires w.pc.LoadForWrite? || w.pc.SavePending? || w.pc.Send? || w.pc.SaveHash? || w.pc.WaitFor?
    ensures Accounted(ProceedBroadcast(w)) && InMemory(ProceedBroadcast(w))
  {
    if w.pc.Send? {
      assert ProceedBroadcast(w).log[..w.counted] == w.log[..w.counted];
    }
  }

  lemma LandingKeepsAccount(d: Deal, w: World, k: nat, ok: bool, leftA: nat, leftB: nat)
    requires Accounted(w) && InMemory(w) && LandAt(d, w, k, ok, leftA, leftB).Some?
    ensures Accounted(LandAt(d, w, k, ok, leftA, leftB).value) && InMemory(LandAt(d, w, k, ok, leftA, leftB).value)
    ensures k == w.counted == |w.log| - 1
  {
    var w' := LandAt(d, w, k, ok, leftA, leftB).value;
    assert k == w.counted;
    assert w'.log[..w.counted] == w.log[..w.counted];
  }

  lemma ReadingKeepsAccount(d: Deal, w: World)
    requires Accounted(w) && InMemory(w)
    ensures Accounted(ProceedSnapshot(d, w)) && InMemory(ProceedSnapshot(d, w))
    ensures Accounted(ProceedExecute(d, w)) && InMemory(ProceedExecute(d, w))
  {
    hide SuccessfulAttempts;
  }

  lemma ProceedKeepsAccount(d: Deal, w: World)
    requires Accounted(w) && InMemory(w) && ProceedFrom(d, w).Some?
    ensures Accounted(ProceedFrom(d, w).value) && InMemory(ProceedFrom(d, w).value)
  {
    ReadingKeepsAccount(d, w);
    if w.pc.LoadJournal? || w.pc.ReadReceipt? || w.pc.CheckSettled? || w.pc.SaveClosed? {
      ReconcileKeepsAccount(w);
    } else if w.pc.LoadForWrite? || w.pc.SavePending? || w.pc.Send? || w.pc.SaveHash? || w.pc.WaitFor? {
      BroadcastKeepsAccount(w);
    }
    hide ProceedReconcile, ProceedBroadcast, ProceedSnapshot, ProceedExecute, Accounted, InMemory;
  }

  /** An event that only moves the process: a call begins, an error, a crash, the lock cleared. */
  predicate Control(e: Event) {
    e.BeginReconcile? || e.BeginFund? || e.BeginExecute? || e.BeginPrepare? || e.Throw? || e.Crash? || e.Unlock?
  }

  /** An event of the chain that no submission of this client causes. */
  predicate Foreign(e: Event) {
    e.Tick? || e.ForeignRegister? || e.ForeignSettle? || e.ForeignBalance?
  }

  lemma OutsideKeepsAccount(d: Deal, w: World, e: Event)
    ensures Accounted(w) && InMemory(w) && (Control(e) || Foreign(e)) && Step(d, w, e).Some? ==>
      Accounted(Step(d, w, e).value) && InMemory(Step(d, w, e).value)
  {
    hide ProceedFrom, LandAt, SuccessfulAttempts, HashIsFresh, MaySettle;
  }

  lemma HashKeepsAccount(d: Deal, w: World, e: Event)
    requires Accounted(w) && InMemory(w) && e.SendReturns? && Step(d, w, e).Some?
    ensures Accounted(Step(d, w, e).value) && InMemory(Step(d, w, e).value)
  {
    hide ProceedFrom, LandAt, SuccessfulAttempts, HashIsFresh, MaySettle;
    assert Step(d, w, e).value.log[..w.counted] == w.log[..w.counted];
  }

  lemma {:induction false} StepKeepsAccount(d: Deal, w: World, e: Event)
    requires Accounted(w) && InMemory(w) && Step(d, w, e).Some?
    ensures Accounted(Step(d, w, e).value) && InMemory(Step(d, w, e).value)
  {
    hide ProceedFrom, LandAt, Accounted, InMemory, HashIsFresh, MaySettle;
    if Control(e) || Foreign(e) {
      OutsideKeepsAccount(d, w, e);
    } else if e.SendReturns? {
      HashKeepsAccount(d, w, e);
    } else if e.Land? {
      LandingKeepsAccount(d, w, e.k, e.ok, e.leftA, e.leftB);
    } else {
      ProceedKeepsAccount(d, w);
    }
  }

  // ---------- funding ----------

  /** Topping a side up by `amount` would bring it to exactly what was agreed. */
  predicate TopsUp(d: Deal, c: Chain, role: Role, amount: nat) {
    amount > 0 && Balance(c, role) + amount == Agreed(d, role)
  }

  /** The funding that the process is about to write or send. */
  predicate FundingAhead(d: Deal, w: World, role: Role) {
    match w.pc
    case LoadJournal(WriteNext(_, attempt, amount)) => attempt == Funding(role) ==> TopsUp(d, w.chain, role, amount)
    case LoadForWrite(_, attempt, amount) => attempt == Funding(role) ==> TopsUp(d, w.chain, role, amount)
    case SavePending(mem, amount) =>
      mem.pending.Some? && mem.pending.value.mode == Funding(role) ==> TopsUp(d, w.chain, role, amount)
    case Send(mem, amount) =>
      mem.pending.Some? && mem.pending.value.mode == Funding(role) ==> TopsUp(d, w.chain, role, amount)
    case Decide(ToFund(r), s) =>
      r == role && s.registered ==> SideOf(s, role) == Balance(w.chain, role) || SideOf(s, role) >= Agreed(d, role)
    case _ => true
  }

  /** A side that only this client funds never exceeds the agreed amount, nor could any funding on its way. */
  predicate NeverOverfunded(d: Deal, w: World) {
    forall role :: role in d.mine ==>
      && Balance(w.chain, role) <= Agreed(d, role)
      && (forall k :: 0 <= k < |w.log| && w.log[k].outcome == InFlight && w.log[k].mode == Funding(role) ==>
            TopsUp(d, w.chain, role, w.log[k].amount))
      && FundingAhead(d, w, role)
  }

  lemma {:induction false} ProceedKeepsFunding(d: Deal, w: World)
    requires Accounted(w) && InMemory(w) && NeverOverfunded(d, w) && ProceedFrom(d, w).Some?
    ensures NeverOverfunded(d, ProceedFrom(d, w).value)
  {
    hide SuccessfulAttempts;
  }

  /** A landing funding brings its side to exactly the agreed amount. */
  lemma LandingKeepsFunding(d: Deal, w: World, k: nat, ok: bool, leftA: nat, leftB: nat)
    requires Accounted(w) && InMemory(w) && NeverOverfunded(d, w) && LandAt(d, w, k, ok, leftA, leftB).Some?
    ensures NeverOverfunded(d, LandAt(d, w, k, ok, leftA, leftB).value)
    ensures ok && w.log[k].mode.Funding? && w.log[k].mode.role in d.mine ==>
      Balance(LandAt(d, w, k, ok, leftA, leftB).value.chain, w.log[k].mode.role) == Agreed(d, w.log[k].mode.role)
  {
    hide SuccessfulAttempts;
    LandingKeepsAccount(d, w, k, ok, leftA, leftB);
  }

  lemma ControlKeepsFunding(d: Deal, w: World, e: Event)
    ensures NeverOverfunded(d, w) && (Control(e) || e.SendReturns?) && Step(d, w, e).Some? ==>
      NeverOverfunded(d, Step(d, w, e).value)
  {
    hide ProceedFrom, LandAt, HashIsFresh, MaySettle;
  }

  lemma ForeignKeepsFunding(d: Deal, w: World, e: Event)
    requires NeverOverfunded(d, w) && Foreign(e) && Step(d, w, e).Some?
    ensures NeverOverfunded(d, Step(d, w, e).value)
  {
    hide ProceedFrom, LandAt, HashIsFresh, NeverOverfunded, MaySettle;
    if e.ForeignSettle? {
      SettlementKeepsFunding(d, w, e.leftA, e.leftB);
    } else {
      SameBalancesKeepFunding(d, w, Step(d, w, e).value.chain);
    }
  }

  lemma SameBalancesKeepFunding(d: Deal, w: World, c: Chain)
    requires NeverOverfunded(d, w)
    requires forall role :: role in d.mine ==> Balance(c, role) == Balance(w.chain, role)
    ensures NeverOverfunded(d, w.(chain := c))
  {
  }

  /** Settlement finds both sides fully funded, so no funding of a side only this client funds is on its way. */
  lemma SettlementKeepsFunding(d: Deal, w: World, leftA: nat, leftB: nat)
    ensures NeverOverfunded(d, w) && MaySettle(d, w.chain, leftA, leftB) ==>
      NeverOverfunded(d, w.(chain := w.chain.(settled := true, balanceA := leftA, balanceB := leftB)))
  {
  }

  lemma {:induction false} StepKeepsFunding(d: Deal, w: World, e: Event)
    requires Accounted(w) && InMemory(w) && NeverOverfunded(d, w) && Step(d, w, e).Some?
    ensures NeverOverfunded(d, Step(d, w, e).value)
  {
    hide ProceedFrom, LandAt, Accounted, InMemory, HashIsFresh, MaySettle, NeverOverfunded;
    if Control(e) || e.SendReturns? {
      ControlKeepsFunding(d, w, e);
    } else if Foreign(e) {
      ForeignKeepsFunding(d, w, e);
    } else if e.Land? {
      LandingKeepsFunding(d, w, e.k, e.ok, e.leftA, e.leftB);
    } else {
      ProceedKeepsFunding(d, w);
    }
  }

  // ---------- phases ----------

  /** A snapshot's readings were true of the chain at some moment up to now. */
  predicate Past(c: Chain, seen: Seen, registered: bool) {
    seen.time <= c.time && (seen.settled ==> c.settled) && (registered ==> c.registered)
  }

  /** A decision respects its phase, both on its snapshot and on the chain from then on. */
  predicate InPhase(d: Deal, c: Chain, x: Decision) {
    var s := x.snapshot;
    && Past(c, s.seen, s.registered)
    && match x.attempt
       case Operation(Setup) => !s.registered && !s.seen.settled && s.seen.time < d.deadline
       case Operation(Settle) =>
         s.registered && !s.seen.settled && s.seen.time < d.deadline
         && s.balanceA >= d.amountA && s.balanceB >= d.amountB
       case Operation(RefundA) => c.registered && d.deadline <= s.seen.time <= c.time && s.balanceA > 0
       case Operation(RefundB) => c.registered && d.deadline <= s.seen.time <= c.time && s.balanceB > 0
       case Funding(role) =>
         c.registered && !s.seen.settled && s.seen.time < d.deadline && SideOf(s, role) < Agreed(d, role)
  }

  /** What lasts, on the chain, of the phase in which an attempt was started. */
  predicate Lasting(d: Deal, c: Chain, attempt: AttemptMode) {
    match attempt
    case Funding(_) => c.registered
    case Operation(RefundA) => c.time >= d.deadline
    case Operation(RefundB) => c.time >= d.deadline
    case _ => true
  }

  predicate PhaseAtPc(d: Deal, w: World) {
    match w.pc
    case ReadRegistration(_, seen) => Past(w.chain, seen, false)
    case ReadNotes(_, seen, registered) => Past(w.chain, seen, registered)
    case Decide(_, s) => Past(w.chain, s.seen, s.registered)
    case Prove(m, _) => Lasting(d, w.chain, Operation(m))
    case InspectAgain(m, _) => Lasting(d, w.chain, Operation(m))
    case LoadJournal(WriteNext(_, attempt, _)) => Lasting(d, w.chain, attempt)
    case LoadForWrite(_, attempt, _) => Lasting(d, w.chain, attempt)
    case SavePending(mem, _) => mem.pending.Some? ==> Lasting(d, w.chain, mem.pending.value.mode)
    case Send(mem, _) => mem.pending.Some? ==> Lasting(d, w.chain, mem.pending.value.mode)
    case _ => true
  }

  predicate Phased(d: Deal, w: World) {
    && (forall k :: 0 <= k < |w.decided| ==> InPhase(d, w.chain, w.decided[k]))
    && (forall k :: 0 <= k < |w.log| ==> Lasting(d, w.chain, w.log[k].mode))
    && PhaseAtPc(d, w)
  }

  /** The clock does not go back, registration and settlement are not undone. */
  predicate Later(c: Chain, c': Chain) {
    c.time <= c'.time && (c.settled ==> c'.settled) && (c.registered ==> c'.registered)
  }

  lemma ReconcileKeepsPhases(d: Deal, w: World)
    ensures InMemory(w) && Phased(d, w) ==> Phased(d, ProceedReconcile(w))
  {
    hide InPhase;
  }

  lemma SnapshotKeepsPhases(d: Deal, w: World)
    ensures Phased(d, w) ==> Phased(d, ProceedSnapshot(d, w))
  {
  }

  lemma SendingKeepsPhases(d: Deal, w: World)
    ensures Phased(d, w) ==> Phased(d, ProceedExecute(d, w)) && Phased(d, ProceedBroadcast(w))
  {
    hide InPhase;
  }

  lemma {:induction false} ProceedKeepsPhases(d: Deal, w: World)
    requires InMemory(w) && Phased(d, w) && ProceedFrom(d, w).Some?
    ensures Phased(d, ProceedFrom(d, w).value)
  {
    hide InMemory, Phased, ProceedReconcile, ProceedSnapshot, ProceedExecute, ProceedBroadcast;
    ReconcileKeepsPhases(d, w);
    SnapshotKeepsPhases(d, w);
    SendingKeepsPhases(d, w);
  }

  lemma LandingKeepsPhases(d: Deal, w: World, k: nat, ok: bool, leftA: nat, leftB: nat)
    ensures Phased(d, w) && LandAt(d, w, k, ok, leftA, leftB).Some? ==>
      Phased(d, LandAt(d, w, k, ok, leftA, leftB).value)
  {
    hide MayLand;
  }

  lemma ControlKeepsPhases(d: Deal, w: World, e: Event)
    ensures Phased(d, w) && (Control(e) || e.SendReturns?) && Step(d, w, e).Some? ==> Phased(d, Step(d, w, e).value)
  {
    hide ProceedFrom, LandAt, HashIsFresh, MaySettle;
  }

  lemma ForeignKeepsPhases(d: Deal, w: World, e: Event)
    requires Phased(d, w) && Foreign(e) && Step(d, w, e).Some?
    ensures Phased(d, Step(d, w, e).value)
  {
    hide ProceedFrom, LandAt, HashIsFresh;
    assert Later(w.chain, Step(d, w, e).value.chain);
  }

  lemma {:induction false} StepKeepsPhases(d: Deal, w: World, e: Event)
    requires InMemory(w) && Phased(d, w) && Step(d, w, e).Some?
    ensures Phased(d, Step(d, w, e).value)
  {
    hide ProceedFrom, LandAt, HashIsFresh, MaySettle, InMemory, Phased;
    if Control(e) || e.SendReturns? {
      ControlKeepsPhases(d, w, e);
    } else if Foreign(e) {
      ForeignKeepsPhases(d, w, e);
    } else if e.Land? {
      LandingKeepsPhases(d, w, e.k, e.ok, e.leftA, e.leftB);
    } else {
      ProceedKeepsPhases(d, w);
    }
  }

  // ---------- runs ----------

  predicate Safe(d: Deal, w: World) {
    Accounted(w) && InMemory(w) && NeverOverfunded(d, w) && Phased(d, w)
  }

  /** Every world that any run reaches is safe. */
  lemma {:induction false} EveryRunIsSafe(d: Deal, start: World, events: seq<Event>)
    requires Initial(d, start) && Run(d, start, events).Some?
    ensures Safe(d, Run(d, start, events).value)
  {
    hide Step, Accounted, InMemory, NeverOverfunded, Phased;
    if events == [] {
      StartIsSafe(d, start);
    } else {
      var n := |events| - 1;
      EveryRunIsSafe(d, start, events[..n]);
      var w := Run(d, start, events[..n]).value;
      StepKeepsAccount(d, w, events[n]);
      StepKeepsFunding(d, w, events[n]);
      StepKeepsPhases(d, w, events[n]);
    }
  }

  lemma StartIsSafe(d: Deal, start: World)
    requires Initial(d, start)
    ensures Safe(d, start)
  {
  }

  /**
   Every submission ever handed to `send` is confirmed with a successful receipt, or was dropped
   after a reverted one, or is the latest and the journal's pending attempt speaks of it.
   */
  lemma {:induction false} EverySubmissionIsAccountedFor(d: Deal, start: World, events: seq<Event>, k: nat)
    requires Initial(d, start) && Run(d, start, events).Some?
    requires k < |Run(d, start, events).value.log|
    ensures var w := Run(d, start, events).value;
      || (w.log[k].outcome == Succeeded && AttemptOf(w.log[k]) in w.disk.confirmed)
      || w.log[k].outcome == Reverted
      || (k == |w.log| - 1 && w.disk.pending.Some? && SpeaksOf(w.disk.pending.value, w.log[k]))
  {
    hide Run, Initial, NeverOverfunded, Phased;
    EveryRunIsSafe(d, start, events);
    var w := Run(d, start, events).value;
    if k < w.counted && w.log[k].outcome == Succeeded {
      SuccessIsListed(w.log[..w.counted], k);
    }
  }

  /** Every decision of every run was taken in its phase. */
  lemma {:induction false} EveryDecisionIsInPhase(d: Deal, start: World, events: seq<Event>, k: nat)
    requires Initial(d, start) && Run(d, start, events).Some?
    requires k < |Run(d, start, events).value.decided|
    ensures InPhase(d, Run(d, start, events).value.chain, Run(d, start, events).value.decided[k])
  {
    hide Run, Initial, InPhase, Accounted, InMemory, NeverOverfunded;
    EveryRunIsSafe(d, start, events);
  }

  lemma {:induction false} SuccessIsListed(log: seq<Submission>, k: nat)
    requires k < |log| && log[k].outcome == Succeeded
    ensures AttemptOf(log[k]) in SuccessfulAttempts(log)
  {
    if k < |log| - 1 {
      SuccessIsListed(log[..|log| - 1], k);
    }
  }

  /**
   A step that sends does so only when everything sent before has a final receipt and is
   accounted for in `confirmed`, and after persisting exactly this attempt, without a hash.
   */
  lemma {:induction false} SendsOnlyWhenQuiet(d: Deal, start: World, events: seq<Event>, e: Event)
    requires Initial(d, start) && Run(d, start, events).Some?
    requires Step(d, Run(d, start, events).value, e).Some?
    ensures var w, w' := Run(d, start, events).value, Step(d, Run(d, start, events).value, e).value;
      w.log <= w'.log && w.log != w'.log ==>
        && |w'.log| == |w.log| + 1
        && (forall k :: 0 <= k < |w.log| ==> Final(w.log[k]))
        && w.disk.confirmed == SuccessfulAttempts(w.log)
        && w.disk.pending == Some(Attempt(w'.log[|w.log|].id, w'.log[|w.log|].mode, None))
        && w'.disk == w.disk
  {
    EveryRunIsSafe(d, start, events);
    var w := Run(d, start, events).value;
    hide SuccessfulAttempts, NeverOverfunded, Phased, MayLand, Landed;
    if w.counted == |w.log| {
      assert w.log[..w.counted] == w.log;
    }
  }

  lemma {:induction false} StepKeepsConfirmed(d: Deal, w: World, e: Event)
    requires Accounted(w) && InMemory(w) && Step(d, w, e).Some?
    ensures w.disk.confirmed <= Step(d, w, e).value.disk.confirmed
  {
    hide MayLand, Landed;
  }

  /** Nothing is ever removed from `confirmed`. */
  lemma {:induction false} ConfirmedOnlyGrows(d: Deal, start: World, events: seq<Event>, more: seq<Event>)
    requires Initial(d, start) && Run(d, start, events + more).Some?
    ensures Run(d, start, events).Some?
    ensures Run(d, start, events).value.disk.confirmed <= Run(d, start, events + more).value.disk.confirmed
    decreases |more|
  {
    hide Step, Accounted, InMemory;
    if more == [] {
      assert events + more == events;
    } else {
      var n := |more| - 1;
      assert (events + more)[..|events + more| - 1] == events + more[..n];
      ConfirmedOnlyGrows(d, start, events, more[..n]);
      EveryRunIsSafe(d, start, events + more[..n]);
      StepKeepsConfirmed(d, Run(d, start, events + more[..n]).value, (events + more)[|events + more| - 1]);
    }
  }

  /** A successful funding by the side's only funder brings that side to exactly the agreed amount. */
  lemma {:induction false} FundingLandsExactly(d: Deal, start: World, events: seq<Event>,
        k: nat, leftA: nat, leftB: nat)
    requires Initial(d, start) && Run(d, start, events + [Land(k, true, leftA, leftB)]).Some?
    requires Run(d, start, events).Some? && k < |Run(d, start, events).value.log|
    requires var s := Run(d, start, events).value.log[k]; s.mode.Funding? && s.mode.role in d.mine
    ensures var role := Run(d, start, events).value.log[k].mode.role;
      Balance(Run(d, start, events + [Land(k, true, leftA, leftB)]).value.chain, role) == Agreed(d, role)
  {
    var all := events + [Land(k, true, leftA, leftB)];
    assert all[..|all| - 1] == events;
    EveryRunIsSafe(d, start, events);
    LandingKeepsFunding(d, Run(d, start, events).value, k, true, leftA, leftB);
  }

  // ---------- an unknown outcome blocks ----------

  /** A persisted attempt without a hash, and no process that still remembers it. */
  predicate Blocked(w: World) {
    && w.disk.pending.Some? && w.disk.pending.value.hash.None?
    && match w.pc
       case Idle => true
       case Crashed => true
       case LoadJournal(_) => true
       case Inspect(ToPrepare(_)) => true
       case ReadRegistration(ToPrepare(_), _) => true
       case ReadNotes(ToPrepare(_), _, _) => true
       case Decide(ToPrepare(_), _) => true
       case _ => false
  }

  /** Until the journal is repaired by hand, nothing more is sent, confirmed or decided. */
  lemma {:induction false} UnknownOutcomeBlocks(d: Deal, w: World, events: seq<Event>)
    requires Blocked(w) && Run(d, w, events).Some?
    ensures Blocked(Run(d, w, events).value)
    ensures var w' := Run(d, w, events).value;
      w'.disk == w.disk && |w'.log| == |w.log| && w'.decided == w.decided
  {
    if events == [] {
    } else {
      UnknownOutcomeBlocks(d, w, events[..|events| - 1]);
      BlockedStays(d, Run(d, w, events[..|events| - 1]).value, events[|events| - 1]);
    }
  }

  lemma BlockedStays(d: Deal, w: World, e: Event)
    requires Blocked(w) && Step(d, w, e).Some?
    ensures var w' := Step(d, w, e).value;
      Blocked(w') && w'.disk == w.disk && |w'.log| == |w.log| && w'.decided == w.decided
  {
    hide MayLand, Landed;
  }
}
