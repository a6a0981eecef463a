/** The cross-chain lifecycle: stages, allowed transitions, expiry gates, and what every run obeys. */
module CrossChainLifecycle {
  import opened Wrappers

  datatype Stage =
    | Draft | Validating | PreflightPolicy | Quoting | AwaitingReview | Building | AwaitingFinalPolicy
    | AwaitingSignature | Submitting | Submitted | SourceConfirming | SourceFinalized | SettlementPending
    | DestinationConfirming | Completed | AwaitingPrerequisite | Blocked | ManualReview | Expired | Cancelled
    | FailedRetryable | FailedFinal | SubmissionUnknown | RefundPending | Refunded | Reorged

  /** `terms` stands for every other field of the intent; the digest is taken over all of them. */
  datatype Intent = Intent(id: nat, revision: nat, expiresAt: int, deadline: int, terms: nat, wellFormed: bool)

  datatype Lifecycle = Lifecycle(stage: Stage, intentId: nat, revision: nat, digest: nat, expiresAt: int, deadline: int)

  datatype LifecycleError =
    | BadIntent | AlreadyExpired | StaleRevision | TermsChanged | ExpiryMismatch | TerminalStage | InvalidTransition
    | IntentExpired | NotExpired

  predicate Terminal(s: Stage) {
    s in [Completed, Expired, Cancelled, FailedFinal, Refunded]
  }

  predicate PreSubmission(s: Stage) {
    s in [Draft, Validating, PreflightPolicy, Quoting, AwaitingReview, Building, AwaitingFinalPolicy,
          AwaitingSignature, AwaitingPrerequisite, Blocked, FailedRetryable]
  }

  predicate RevisionGated(next: Stage) {
    next in [Validating, PreflightPolicy, Quoting, Building, AwaitingFinalPolicy, AwaitingSignature, Submitting]
  }

  function AllowedTransitions(s: Stage): seq<Stage> {
    match s
    case Draft => [Validating, Expired, Cancelled]
    case Validating => [PreflightPolicy, AwaitingPrerequisite, Blocked, Expired, FailedFinal, Cancelled]
    case PreflightPolicy => [Quoting, Blocked, ManualReview, Expired, Cancelled]
    case Quoting => [AwaitingReview, AwaitingPrerequisite, Expired, Blocked, FailedRetryable, Cancelled]
    case AwaitingReview => [Building, Validating, Expired, Cancelled]
    case Building => [AwaitingFinalPolicy, AwaitingPrerequisite, FailedRetryable, Expired, Cancelled]
    case AwaitingFinalPolicy => [AwaitingSignature, Blocked, ManualReview, Expired, Cancelled]
    case AwaitingSignature => [Submitting, Expired, Cancelled]
    case Submitting => [Submitted, SubmissionUnknown, FailedRetryable, FailedFinal]
    case Submitted => [SourceConfirming, FailedFinal, Reorged]
    case SourceConfirming => [SourceFinalized, FailedFinal, Reorged]
    case SourceFinalized => [SettlementPending, RefundPending, FailedFinal, Reorged]
    case SettlementPending => [DestinationConfirming, RefundPending, FailedFinal, ManualReview]
    case DestinationConfirming => [Completed, RefundPending, FailedFinal, Reorged]
    case Completed => []
    case AwaitingPrerequisite => [Validating, Expired, Cancelled, FailedFinal]
    case Blocked => [Validating, Expired, Cancelled, FailedFinal]
    case ManualReview => [Validating, RefundPending, Expired, FailedFinal, Cancelled]
    case Expired => []
    case Cancelled => []
    case FailedRetryable => [Validating, Expired, FailedFinal, Cancelled]
    case FailedFinal => []
    case SubmissionUnknown => [Submitted, ManualReview, FailedFinal]
    case RefundPending => [Refunded, ManualReview, FailedFinal, Reorged]
    case Refunded => []
    case Reorged => [SourceConfirming, DestinationConfirming, RefundPending, ManualReview, FailedFinal]
  }

  function TransitionStage(current: Stage, next: Stage): Result<Stage, LifecycleError> {
    if Terminal(current) then Failure(TerminalStage)
    else if next !in AllowedTransitions(current) then Failure(InvalidTransition)
    else Success(next)
  }

  predicate HasExpired(i: Intent, now: int) {
    i.expiresAt <= now || i.deadline <= now
  }

  function Create(digest: Intent -> nat, i: Intent, now: int): Result<Lifecycle, LifecycleError> {
    if !i.wellFormed then Failure(BadIntent)
    else if HasExpired(i, now) then Failure(AlreadyExpired)
    else Success(Lifecycle(Draft, i.id, i.revision, digest(i), i.expiresAt, i.deadline))
  }

  function Transition(digest: Intent -> nat, s: Lifecycle, i: Intent, next: Stage, now: int)
    : Result<Lifecycle, LifecycleError>
  {
    if !i.wellFormed then Failure(BadIntent)
    else if s.intentId != i.id || s.revision != i.revision then Failure(StaleRevision)
    else if s.digest != digest(i) then Failure(TermsChanged)
    else if s.expiresAt != i.expiresAt || s.deadline != i.deadline then Failure(ExpiryMismatch)
    else
      var stage := TransitionStage(s.stage, next);
      if stage.Failure? then Failure(stage.error)
      else if HasExpired(i, now) && next != Expired && (PreSubmission(s.stage) || RevisionGated(next))
      then Failure(IntentExpired)
      else if !HasExpired(i, now) && next == Expired then Failure(NotExpired)
      else Success(s.(stage := next))
  }

  // ---------- runs ----------

  datatype Attempt = Attempt(intent: Intent, next: Stage, now: int)

  /** A stage entered, when, and with which intent. */
  datatype Entry = Entry(stage: Stage, now: int, intent: Intent)

  datatype Run = Run(state: Lifecycle, entries: seq<Entry>)

  function Start(digest: Intent -> nat, i: Intent, now: int): (r: Run)
    requires Create(digest, i, now).Success?
  {
    Run(Create(digest, i, now).value, [Entry(Draft, now, i)])
  }

  /** Refused attempts change nothing; accepted ones are recorded. */
  function RunAll(digest: Intent -> nat, start: Run, attempts: seq<Attempt>): Run {
    if attempts == [] then start
    else
      var before, a := RunAll(digest, start, attempts[..|attempts| - 1]), attempts[|attempts| - 1];
      var next := Transition(digest, before.state, a.intent, a.next, a.now);
      if next.Failure? then before else Run(next.value, before.entries + [Entry(a.next, a.now, a.intent)])
  }

  /** What holds of two neighbouring entries: an allowed move that no expiry gate forbids. */
  predicate Follows(digest: Intent -> nat, s: Lifecycle, previous: Entry, entry: Entry) {
    && entry.stage in AllowedTransitions(previous.stage)
    && entry.intent.id == s.intentId && entry.intent.revision == s.revision && digest(entry.intent) == s.digest
    && entry.intent.expiresAt == s.expiresAt && entry.intent.deadline == s.deadline
    && (entry.stage != Expired && (PreSubmission(previous.stage) || RevisionGated(entry.stage)) ==>
          entry.now < s.expiresAt && entry.now < s.deadline)
    && (entry.stage == Expired ==> HasExpired(entry.intent, entry.now))
  }

  ghost predicate Traced(digest: Intent -> nat, r: Run) {
    && r.entries != [] && r.entries[0].stage == Draft && r.entries[|r.entries| - 1].stage == r.state.stage
    && (forall k :: 1 <= k < |r.entries| ==> Follows(digest, r.state, r.entries[k - 1], r.entries[k]))
  }

  predicate SameBinding(a: Lifecycle, b: Lifecycle) {
    a.intentId == b.intentId && a.revision == b.revision && a.digest == b.digest
    && a.expiresAt == b.expiresAt && a.deadline == b.deadline
  }

  lemma {:induction false} EveryRunIsTraced(digest: Intent -> nat, start: Run, attempts: seq<Attempt>)
    requires Traced(digest, start)
    ensures Traced(digest, RunAll(digest, start, attempts))
    ensures SameBinding(RunAll(digest, start, attempts).state, start.state)
    ensures start.entries <= RunAll(digest, start, attempts).entries
  {
    hide Traced, Transition;
    if attempts == [] {
    } else {
      var front, a := attempts[..|attempts| - 1], attempts[|attempts| - 1];
      EveryRunIsTraced(digest, start, front);
      StepIsTraced(digest, RunAll(digest, start, front), a);
    }
  }

  lemma StepIsTraced(digest: Intent -> nat, r: Run, a: Attempt)
    ensures Traced(digest, r) ==>
      var next := Transition(digest, r.state, a.intent, a.next, a.now);
      next.Success? ==>
        && Traced(digest, Run(next.value, r.entries + [Entry(a.next, a.now, a.intent)]))
        && SameBinding(next.value, r.state)
  {
    hide AllowedTransitions, PreSubmission, RevisionGated, Terminal;
  }

  // ---------- submission ----------

  /** The eight stages of one pass, ending in submission. */
  function Approach(step: nat): Stage
    requires step < 8
  {
    match step
    case 0 => Validating
    case 1 => PreflightPolicy
    case 2 => Quoting
    case 3 => AwaitingReview
    case 4 => Building
    case 5 => AwaitingFinalPolicy
    case 6 => AwaitingSignature
    case _ => Submitting
  }

  /** Each stage of the approach can be entered from the one before it only. */
  lemma OneWayIn(step: nat, from: Stage)
    ensures 1 <= step < 8 && Approach(step) in AllowedTransitions(from) ==> from == Approach(step - 1)
  {
  }

  lemma {:induction false} ApproachEndsAt(digest: Intent -> nat, r: Run, k: nat, step: nat)
    requires Traced(digest, r) && k < |r.entries| && step < 8 && r.entries[k].stage == Approach(step)
    ensures k >= step && (k > 0) && forall i :: 0 <= i <= step ==> r.entries[k - step + i].stage == Approach(i)
    decreases step
  {
    hide AllowedTransitions;
    assert Approach(step) != Draft;
    if step == 0 {
    } else {
      assert Follows(digest, r.state, r.entries[k - 1], r.entries[k]);
      OneWayIn(step, r.entries[k - 1].stage);
      ApproachEndsAt(digest, r, k - 1, step - 1);
      forall i | 0 <= i <= step
        ensures r.entries[k - step + i].stage == Approach(i)
      {
        assert i < step ==> r.entries[(k - 1) - (step - 1) + i].stage == Approach(i);
      }
    }
  }

  lemma GatedBeforeExpiry(digest: Intent -> nat, s: Lifecycle, previous: Entry, entry: Entry, step: nat)
    requires Follows(digest, s, previous, entry) && step < 8 && entry.stage == Approach(step)
    requires step > 0 ==> previous.stage == Approach(step - 1)
    ensures entry.now < s.expiresAt && entry.now < s.deadline
  {
  }

  /**
   Every entry into submission, first or retried, ends a fresh pass through validation, both policy
   checks, quote, review, build and signature; the whole pass lies before expiry and deadline and
   under the digest the lifecycle was created with.
   */
  lemma SubmissionNeedsAFreshPass(digest: Intent -> nat, intent: Intent, created: int, attempts: seq<Attempt>, k: nat)
    requires Create(digest, intent, created).Success?
    requires var r := RunAll(digest, Start(digest, intent, created), attempts);
      k < |r.entries| && r.entries[k].stage == Submitting
    ensures created < intent.expiresAt && created < intent.deadline
    ensures var entries := RunAll(digest, Start(digest, intent, created), attempts).entries;
      && k >= 8
      && forall i :: 0 <= i <= 7 ==>
           && entries[k - 7 + i].stage == Approach(i)
           && entries[k - 7 + i].now < intent.expiresAt && entries[k - 7 + i].now < intent.deadline
           && digest(entries[k - 7 + i].intent) == digest(intent)
  {
    hide AllowedTransitions, PreSubmission, RevisionGated, RunAll;
    var start := Start(digest, intent, created);
    EveryRunIsTraced(digest, start, attempts);
    var r := RunAll(digest, start, attempts);
    assert Approach(7) == Submitting && Approach(0) == Validating;
    ApproachEndsAt(digest, r, k, 7);
    assert r.entries[k - 7 + 0].stage == Validating;
    forall i | 0 <= i <= 7
      ensures r.entries[k - 7 + i].stage == Approach(i)
      ensures r.entries[k - 7 + i].now < intent.expiresAt && r.entries[k - 7 + i].now < intent.deadline
      ensures digest(r.entries[k - 7 + i].intent) == digest(intent)
    {
      var at := k - 7 + i;
      assert Follows(digest, r.state, r.entries[at - 1], r.entries[at]);
      assert i > 0 ==> r.entries[k - 7 + (i - 1)].stage == Approach(i - 1);
      GatedBeforeExpiry(digest, r.state, r.entries[at - 1], r.entries[at], i);
    }
  }

  predicate Collision(digest: Intent -> nat, x: Intent, y: Intent) {
    x != y && digest(x) == digest(y)
  }

  /** The intent used at each step is the one the lifecycle was created for, or the digest has a collision. */
  lemma SameTermsThroughout(digest: Intent -> nat, intent: Intent, created: int, attempts: seq<Attempt>, k: nat)
    requires Create(digest, intent, created).Success?
    requires k < |RunAll(digest, Start(digest, intent, created), attempts).entries|
    ensures var used := RunAll(digest, Start(digest, intent, created), attempts).entries[k].intent;
      used == intent || Collision(digest, used, intent)
  {
    hide AllowedTransitions, PreSubmission, RevisionGated;
    var start := Start(digest, intent, created);
    EveryRunIsTraced(digest, start, attempts);
    if k > 0 {
      var r := RunAll(digest, start, attempts);
      assert Follows(digest, r.state, r.entries[k - 1], r.entries[k]);
    }
  }

  // ---------- expiry and endings ----------

  predicate Bound(digest: Intent -> nat, s: Lifecycle, i: Intent) {
    i.wellFormed && s.intentId == i.id && s.revision == i.revision && s.digest == digest(i)
    && s.expiresAt == i.expiresAt && s.deadline == i.deadline
  }

  /** Once expired, a stage before submission can move to EXPIRED and nowhere else. */
  lemma ExpiredStagesOnlyExpire(digest: Intent -> nat, s: Lifecycle, i: Intent, next: Stage, now: int)
    requires PreSubmission(s.stage) && Bound(digest, s, i) && HasExpired(i, now)
    ensures Transition(digest, s, i, next, now).Success? <==> next == Expired
  {
  }

  /** Endings are final. */
  lemma TerminalStagesAbsorb(digest: Intent -> nat, s: Lifecycle, i: Intent, next: Stage, now: int)
    requires Terminal(s.stage)
    ensures Transition(digest, s, i, next, now).Failure?
    ensures AllowedTransitions(s.stage) == []
  {
  }

  /** Nothing else is: at any time, every other stage has a move, so reconciliation outlives expiry. */
  lemma OtherStagesCanAlwaysMove(digest: Intent -> nat, s: Lifecycle, i: Intent, now: int)
    requires !Terminal(s.stage) && Bound(digest, s, i)
    ensures exists next :: Transition(digest, s, i, next, now).Success?
  {
    var next := if HasExpired(i, now) && PreSubmission(s.stage) then Expired
                else if s.stage.SettlementPending? then RefundPending
                else if FailedFinal in AllowedTransitions(s.stage) then FailedFinal else Cancelled;
    assert Transition(digest, s, i, next, now).Success?;
  }

  /** A terminal run never changes again. */
  lemma {:induction false} EndedRunsStayEnded(digest: Intent -> nat, r: Run, attempts: seq<Attempt>)
    requires Terminal(r.state.stage)
    ensures RunAll(digest, r, attempts) == r
  {
    hide AllowedTransitions, PreSubmission, RevisionGated;
    if attempts == [] {
    } else {
      EndedRunsStayEnded(digest, r, attempts[..|attempts| - 1]);
    }
  }

  /** With a clock that never goes back, nothing is submitted after expiry. */
  lemma NoSubmissionAfterExpiry(digest: Intent -> nat, s: Lifecycle, i: Intent, now: int, later: int)
    requires HasExpired(i, now) && now <= later
    ensures Transition(digest, s, i, Submitting, later).Failure?
  {
  }

  /** Around from a submission of unknown outcome, through manual review, to the next submission. */
  function LoopStage(n: nat): Stage
    requires n <= 10
  {
    if n == 0 then Submitting else if n == 1 then SubmissionUnknown
    else if n == 2 then ManualReview else Approach(n - 3)
  }

  function LoopAttempts(intent: Intent, now: int, n: nat): seq<Attempt>
    requires n <= 10
  {
    if n == 0 then [] else LoopAttempts(intent, now, n - 1) + [Attempt(intent, LoopStage(n), now)]
  }

  lemma LoopMoves(n: nat)
    requires 1 <= n <= 10
    ensures LoopStage(n) in AllowedTransitions(LoopStage(n - 1)) && !Terminal(LoopStage(n - 1))
          && LoopStage(n) != Expired
  {
  }

  /**
   An unknown submission is not final: before expiry, manual review may send it through another full
   pass, so one lifecycle can enter submission twice.
   */
  lemma {:induction false} SubmissionCanRepeat(digest: Intent -> nat, r: Run, intent: Intent, now: int, n: nat)
    requires n <= 10 && r.state.stage == Submitting && Bound(digest, r.state, intent) && !HasExpired(intent, now)
    ensures RunAll(digest, r, LoopAttempts(intent, now, n)).state == r.state.(stage := LoopStage(n))
    ensures |RunAll(digest, r, LoopAttempts(intent, now, n)).entries| == |r.entries| + n
    ensures LoopStage(10) == Submitting
  {
    hide AllowedTransitions, PreSubmission, RevisionGated, Terminal;
    if n == 0 {
    } else {
      SubmissionCanRepeat(digest, r, intent, now, n - 1);
      LoopMoves(n);
      var attempts := LoopAttempts(intent, now, n);
      assert attempts[..|attempts| - 1] == LoopAttempts(intent, now, n - 1);
    }
  }
}
