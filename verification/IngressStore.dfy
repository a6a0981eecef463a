/**
 The envelope reservation store: concurrent callers queue on one promise chain, each consuming a
 nonce and an RFQ together or not at all.
 */
module IngressStore {
  import opened Wrappers

  datatype Request = Request(directory: nat, maker: nat, nonce: nat, rfq: nat, digest: nat)

  datatype NonceKey = NonceKey(directory: nat, maker: nat, nonce: nat)
  datatype RfqKey = RfqKey(directory: nat, maker: nat, rfq: nat)

  function NonceOf(r: Request): NonceKey {
    NonceKey(r.directory, r.maker, r.nonce)
  }

  function RfqOf(r: Request): RfqKey {
    RfqKey(r.directory, r.maker, r.rfq)
  }

  /** What the caller's reservation returned. */
  datatype Outcome = Reserved(reservation: nat) | Failed(error: nat)

  datatype Reply = Accepted(reservation: nat) | Idempotent(reservation: nat) | Conflict | Rejected(error: nat)

  /** A terminal is identified by its place, as an object is by its reference. */
  datatype Terminal = Terminal(owner: Request, reservation: nat)

  datatype Store = Store(terminals: seq<Terminal>, byNonce: map<NonceKey, nat>, byRfq: map<RfqKey, nat>)

  const EMPTY := Store([], map[], map[])

  // ---------- one caller at a time ----------

  predicate Known(s: Store, r: Request) {
    NonceOf(r) in s.byNonce || RfqOf(r) in s.byRfq
  }

  predicate Sound(s: Store) {
    && (forall k :: k in s.byNonce ==> s.byNonce[k] < |s.terminals|)
    && (forall k :: k in s.byRfq ==> s.byRfq[k] < |s.terminals|)
  }

  function ReplyToKnown(s: Store, r: Request): Reply
    requires Sound(s)
  {
    if NonceOf(r) in s.byNonce && RfqOf(r) in s.byRfq && s.byNonce[NonceOf(r)] == s.byRfq[RfqOf(r)]
       && s.terminals[s.byNonce[NonceOf(r)]].owner.digest == r.digest
    then Idempotent(s.terminals[s.byNonce[NonceOf(r)]].reservation)
    else Conflict
  }

  function Record(s: Store, r: Request, reservation: nat): Store {
    Store(s.terminals + [Terminal(r, reservation)], s.byNonce[NonceOf(r) := |s.terminals|],
          s.byRfq[RfqOf(r) := |s.terminals|])
  }

  /** The sequential store: the outcome is consulted only when neither key is known. */
  function Serve(s: Store, r: Request, outcome: Outcome): (Store, Reply)
    requires Sound(s)
  {
    if Known(s, r) then (s, ReplyToKnown(s, r))
    else match outcome
      case Reserved(reservation) => (Record(s, r, reservation), Accepted(reservation))
      case Failed(error) => (s, Rejected(error))
  }

  /** Every terminal owns exactly one nonce and one RFQ, and nothing else is in the maps. */
  ghost predicate Paired(s: Store) {
    && Sound(s)
    && (forall t :: 0 <= t < |s.terminals| ==>
          && NonceOf(s.terminals[t].owner) in s.byNonce && s.byNonce[NonceOf(s.terminals[t].owner)] == t
          && RfqOf(s.terminals[t].owner) in s.byRfq && s.byRfq[RfqOf(s.terminals[t].owner)] == t)
    && (forall k :: k in s.byNonce ==> NonceOf(s.terminals[s.byNonce[k]].owner) == k)
    && (forall k :: k in s.byRfq ==> RfqOf(s.terminals[s.byRfq[k]].owner) == k)
  }

  lemma ServeKeepsPaired(s: Store, r: Request, outcome: Outcome)
    requires Paired(s)
    ensures Paired(Serve(s, r, outcome).0)
  {
    var next := Serve(s, r, outcome).0;
    if next != s {
      forall t | 0 <= t < |next.terminals|
        ensures NonceOf(next.terminals[t].owner) in next.byNonce && next.byNonce[NonceOf(next.terminals[t].owner)] == t
        ensures RfqOf(next.terminals[t].owner) in next.byRfq && next.byRfq[RfqOf(next.terminals[t].owner)] == t
      {
        if t < |s.terminals| {
          assert NonceOf(s.terminals[t].owner) in s.byNonce && RfqOf(s.terminals[t].owner) in s.byRfq;
        }
      }
    }
  }

  datatype Call = Call(request: Request, outcome: Outcome)

  datatype Served = Served(store: Store, replies: seq<Reply>)

  lemma ServeKeepsSound(s: Store, r: Request, outcome: Outcome)
    requires Sound(s)
    ensures Sound(Serve(s, r, outcome).0)
  {
  }

  /** The calls one after another, in the order given. */
  ghost function Sequential(calls: seq<Call>): (s: Served)
    ensures Sound(s.store) && |s.replies| == |calls|
  {
    if calls == [] then Served(EMPTY, [])
    else
      var before, last := Sequential(calls[..|calls| - 1]), calls[|calls| - 1];
      var (store, reply) := Serve(before.store, last.request, last.outcome);
      ServeKeepsSound(before.store, last.request, last.outcome);
      Served(store, before.replies + [reply])
  }

  lemma SequentialNext(calls: seq<Call>, call: Call)
    ensures var before := Sequential(calls);
      var (store, reply) := Serve(before.store, call.request, call.outcome);
      Sequential(calls + [call]) == Served(store, before.replies + [reply])
  {
    hide Serve, Sound;
    assert (calls + [call])[..|calls|] == calls;
  }

  lemma {:induction false} SequentialIsPaired(calls: seq<Call>)
    ensures Paired(Sequential(calls).store)
  {
    hide Serve, Paired;
    if calls == [] {
      EmptyIsPaired();
    } else {
      var front, last := calls[..|calls| - 1], calls[|calls| - 1];
      SequentialIsPaired(front);
      ServeKeepsPaired(Sequential(front).store, last.request, last.outcome);
    }
  }

  lemma EmptyIsPaired()
    ensures Paired(EMPTY)
  {
  }

  // ---------- the store under concurrent callers ----------

  /** A caller arrives; the first in line is looked at; the running reservation comes back. */
  datatype Event = Arrive(request: Request) | Begin | Settle(outcome: Outcome)

  datatype State = State(
    store: Store, waiting: seq<Request>, reserving: Option<Request>,
    arrived: seq<Request>, calls: seq<Call>, replies: seq<Reply>)

  const START := State(EMPTY, [], None, [], [], [])

  function Step(s: State, e: Event): State
    requires Sound(s.store)
  {
    match e
    case Arrive(r) => s.(waiting := s.waiting + [r], arrived := s.arrived + [r])
    case Begin =>
      if s.reserving.Some? || s.waiting == [] then s
      else
        var r := s.waiting[0];
        if Known(s.store, r) then
          s.(waiting := s.waiting[1..], calls := s.calls + [Call(r, Failed(0))],
             replies := s.replies + [ReplyToKnown(s.store, r)])
        else s.(waiting := s.waiting[1..], reserving := Some(r))
    case Settle(outcome) =>
      if s.reserving.None? then s
      else
        var r := s.reserving.value;
        var next := s.(reserving := None, calls := s.calls + [Call(r, outcome)]);
        match outcome
        case Reserved(reservation) =>
          next.(store := Record(s.store, r, reservation), replies := s.replies + [Accepted(reservation)])
        case Failed(error) => next.(replies := s.replies + [Rejected(error)])
  }

  function InLine(s: State): seq<Request> {
    (if s.reserving.Some? then [s.reserving.value] else []) + s.waiting
  }

  function Requests(calls: seq<Call>): seq<Request> {
    seq(|calls|, i requires 0 <= i < |calls| => calls[i].request)
  }

  /** What has happened so far is what the sequential store does to the same callers in order of arrival. */
  ghost predicate Refines(s: State) {
    && s.store == Sequential(s.calls).store && s.replies == Sequential(s.calls).replies
    && s.arrived == Requests(s.calls) + InLine(s)
    && (s.reserving.Some? ==> !Known(s.store, s.reserving.value))
  }

  class EnvelopeStore {
    var byNonce: map<NonceKey, nat>
    var byRfq: map<RfqKey, nat>
    var terminals: seq<Terminal>
    var waiting: seq<Request>
    var reserving: Option<Request>
    ghost var arrived: seq<Request>
    ghost var calls: seq<Call>
    ghost var replies: seq<Reply>

    ghost function Contents(): State
      reads this
    {
      State(Store(terminals, byNonce, byRfq), waiting, reserving, arrived, calls, replies)
    }

    ghost predicate Valid()
      reads this
    {
      Refines(Contents())
    }

    constructor ()
      ensures Valid() && Contents() == START
    {
      byNonce, byRfq, terminals, waiting, reserving := map[], map[], [], [], None;
      arrived, calls, replies := [], [], [];
    }

    /** A caller joins the promise chain. */
    method ConsumeAndReserve(r: Request)
      requires Valid()
      modifies this
      ensures Valid() && Contents() == Step(old(Contents()), Arrive(r))
    {
      hide Refines, Sound, Known;
      StepRefines(Contents(), Arrive(r));
      waiting := waiting + [r];
      arrived := arrived + [r];
    }

    /** The check made when the caller's turn comes: a reply, or nothing while its reservation runs. */
    method TakeTurn() returns (reply: Option<Reply>)
      requires Valid() && reserving.None? && waiting != []
      modifies this
      ensures Valid() && Contents() == Step(old(Contents()), Begin)
      ensures replies == old(replies) + (if reply.Some? then [reply.value] else [])
    {
      hide Refines;
      StepRefines(Contents(), Begin);
      var r := waiting[0];
      var noncePrior, rfqPrior := NonceOf(r) in byNonce, RfqOf(r) in byRfq;
      waiting := waiting[1..];
      if noncePrior || rfqPrior {
        reply := Some(Conflict);
        if noncePrior && rfqPrior && byNonce[NonceOf(r)] == byRfq[RfqOf(r)] {
          var prior := terminals[byNonce[NonceOf(r)]];
          if prior.owner.digest == r.digest { reply := Some(Idempotent(prior.reservation)); }
        }
        calls, replies := calls + [Call(r, Failed(0))], replies + [reply.value];
      } else {
        reserving := Some(r);
        reply := None;
      }
    }

    /** The reservation resolves or rejects, and the next caller may take its turn. */
    method FinishTurn(outcome: Outcome) returns (reply: Reply)
      requires Valid() && reserving.Some?
      modifies this
      ensures Valid() && Contents() == Step(old(Contents()), Settle(outcome))
      ensures replies == old(replies) + [reply]
    {
      hide Refines, Sound, Known;
      StepRefines(Contents(), Settle(outcome));
      var r := reserving.value;
      match outcome {
        case Reserved(reservation) =>
          terminals := terminals + [Terminal(r, reservation)];
          byNonce := byNonce[NonceOf(r) := |terminals| - 1];
          byRfq := byRfq[RfqOf(r) := |terminals| - 1];
          reply := Accepted(reservation);
        case Failed(error) =>
          reply := Rejected(error);
      }
      reserving := None;
      calls, replies := calls + [Call(r, outcome)], replies + [reply];
    }
  }

  lemma RequestsNext(calls: seq<Call>, call: Call)
    ensures Requests(calls + [call]) == Requests(calls) + [call.request]
  {
  }

  lemma StepRefines(s: State, e: Event)
    requires Refines(s)
    ensures Sound(s.store) && Refines(Step(s, e)) && Sound(Step(s, e).store)
  {
    hide Sound, Record, Sequential, Known, ReplyToKnown, Requests;
    match e
    case Arrive(r) =>
      assert InLine(Step(s, e)) == InLine(s) + [r];
      assert s.arrived + [r] == Requests(s.calls) + (InLine(s) + [r]);
    case Begin =>
      if s.reserving.None? && s.waiting != [] {
        var r := s.waiting[0];
        assert s.waiting == [r] + s.waiting[1..];
        if Known(s.store, r) {
          SequentialNext(s.calls, Call(r, Failed(0)));
          RequestsNext(s.calls, Call(r, Failed(0)));
        }
      }
    case Settle(outcome) =>
      if s.reserving.Some? {
        SequentialNext(s.calls, Call(s.reserving.value, outcome));
        RequestsNext(s.calls, Call(s.reserving.value, outcome));
        assert InLine(s) == [s.reserving.value] + s.waiting;
      }
  }
}
