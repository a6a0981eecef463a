/**
 The wallet-side review of a prepared operation: a cursor walks the flat stream once and
 refuses at the first violation. It is proved to accept exactly the serialized operations
 that the policy allows.
 */
module ConfidentialReview {
  import opened Wrappers
  import opened ConfidentialActions
  import opened ConfidentialPolicy

  datatype Rejection =
    | NotNormal | NotDeployed | Envelope | WrongPool | Identity | ActionCount | Truncated
    | Registration | Recipient | Asset | SetupMoves | Amount | Surplus | Callback | Unsupported
    | TrailingOrMissingCallback | SwapAmounts | EmptyRefund | DigestMismatch

  datatype Review = Review(
    mode: Mode, digest: nat, commitment: nat, account: nat, chainId: nat, pool: nat,
    deadline: nat, terms: Terms, requiredSigners: set<Role>, inputs: nat, outputs: nat)

  // ---------- what acceptance means ----------

  /** The stream says: this account, this viewing key, these actions, and nothing more. */
  ghost predicate Reads(inner: seq<nat>, account: nat, key: int, actions: seq<Action>) {
    key >= 0 && inner == [account, key, |actions|] + SerializeAll(actions)
  }

  /** One bounded compile call carrying a stream of field elements. */
  predicate Enveloped(c: seq<nat>) {
    && 7 <= |c| <= 4096 && c[0] == 1 && c[3] == |c| - 4
    && forall i :: 4 <= i < |c| ==> c[i] < FIELD
  }

  predicate CompilesOnPool(p: Primitives, a: Agreement, call: Invocation)
    requires |call.calldata| >= 3
  {
    call.sender == a.pool && call.calldata[1] == a.pool && call.calldata[2] == p.compileSelector
  }

  predicate CanonicalKey(p: Primitives, key: int) {
    0 < key <= p.curveOrder / 2
  }

  ghost predicate Acceptable(p: Primitives, op: Prepared, key: int, actions: seq<Action>) {
    var a, c := op.agreement, op.invocation.calldata;
    && Normal(p, a) && a.address != 0 && CanonicalKey(p, key)
    && Enveloped(c) && CompilesOnPool(p, a, op.invocation)
    && Reads(c[4..], a.address, key, actions)
    && OperationAllowed(a.terms, a.address, key, op.mode, actions)
    && op.digest == Digest(p, a, op.mode, c[4..])
  }

  function ReviewOf(op: Prepared, actions: seq<Action>): Review {
    var a := op.agreement;
    Review(op.mode, op.digest, a.commitment, a.address, a.chainId, a.pool, a.deadline, a.terms,
           RequiredSigners(op.mode), Spent(actions), Created(actions))
  }

  /** An operation reads in at most one way. */
  lemma AcceptableIsUnique(p: Primitives, op: Prepared, key: int, left: seq<Action>, right: seq<Action>)
    requires Acceptable(p, op, key, left) && Acceptable(p, op, key, right)
    ensures left == right
  {
    var inner := op.invocation.calldata[4..];
    assert SerializeAll(left) == inner[3..] == SerializeAll(right);
    SerializeAllInjective(left, right);
  }

  // ---------- running totals ----------

  datatype Tally = Tally(tradedA: nat, tradedB: nat, refunded: nat, callback: bool, inputs: nat, outputs: nat)

  /** The totals that the loop keeps, as sums over the actions read so far. */
  predicate Totals(t: Terms, m: Mode, done: seq<Action>, y: Tally) {
    && y.tradedA == (if m == Settle then Paid(done, t.tokenA, t.partyB) else 0)
    && y.tradedB == (if m == Settle then Paid(done, t.tokenB, t.partyA) else 0)
    && y.refunded == (if m == Settle then 0 else Issued(done))
    && y.inputs == Spent(done) && y.outputs == Created(done)
    && (y.callback <==> done != [] && done[|done| - 1].ComputeAndInvoke?)
  }

  lemma SumsOverOneMore(done: seq<Action>, a: Action, token: nat, recipient: nat)
    ensures Paid(done + [a], token, recipient) ==
            Paid(done, token, recipient)
            + if a.CreateNote? && a.token == token && a.recipient == recipient then a.amount else 0
    ensures Issued(done + [a]) == Issued(done) + if a.CreateNote? then a.amount else 0
    ensures Spent(done + [a]) == Spent(done) + if a.UseNote? then 1 else 0
    ensures Created(done + [a]) == Created(done) + if a.CreateNote? then 1 else 0
  {
    assert (done + [a])[..|done|] == done;
  }

  lemma TotalsWithoutValue(t: Terms, m: Mode, done: seq<Action>, y: Tally, a: Action)
    requires Totals(t, m, done, y) && !a.CreateNote?
    ensures Totals(t, m, done + [a],
                   y.(inputs := y.inputs + (if a.UseNote? then 1 else 0), callback := a.ComputeAndInvoke?))
  {
    SumsOverOneMore(done, a, t.tokenA, t.partyB);
    SumsOverOneMore(done, a, t.tokenB, t.partyA);
  }

  // ---------- the reader ----------

  function Take(inner: seq<nat>, at: nat): Result<nat, Rejection> {
    if at < |inner| then Success(inner[at]) else Failure(Truncated)
  }

  method Skip(inner: seq<nat>, at: nat, n: nat) returns (r: Result<nat, Rejection>)
    requires at <= |inner|
    ensures r == if at + n <= |inner| then Success(at + n) else Failure(Truncated)
  {
    var cursor := at;
    for i := 0 to n
      invariant cursor == at + i <= |inner|
    {
      var _ :- Take(inner, cursor);
      cursor := cursor + 1;
    }
    return Success(cursor);
  }

  /** The policy of one action at its place in the list. */
  predicate AllowedHere(t: Terms, account: nat, key: nat, m: Mode, last: bool, a: Action) {
    ActionAllowed(t, account, key, m, a) && (a.ComputeAndInvoke? ==> last)
  }

  /** The note case: recipient, one field, token, amount, two fields. */
  method ReviewNote(
      inner: seq<nat>, start: nat, t: Terms, account: nat, m: Mode, ghost done: seq<Action>, y: Tally)
    returns (r: Result<(nat, Tally), Rejection>)
    requires start <= |inner| && t.tokenA != t.tokenB && t.partyA != t.partyB
    requires Totals(t, m, done, y) && !y.callback
    ensures r.Success? <==>
      && start + 6 <= |inner| && m != Setup && inner[start + 3] < U128_LIMIT
      && TokenAllowed(t, m, inner[start + 2]) && RecipientAllowed(t, account, m, inner[start])
    ensures r.Success? ==>
      && r.value.0 == start + 6
      && Totals(t, m, done + [CreateNote(inner[start], inner[start + 1], inner[start + 2],
                                         inner[start + 3], inner[start + 4], inner[start + 5])], r.value.1)
  {
    if m == Setup { return Failure(SetupMoves); }
    var recipient :- Take(inner, start);
    var at :- Skip(inner, start + 1, 1);
    var token :- Take(inner, at);
    var value :- Take(inner, at + 1);
    at :- Skip(inner, at + 2, 2);
    if !TokenAllowed(t, m, token) { return Failure(Asset); }
    if value >= U128_LIMIT { return Failure(Amount); }
    var z := y.(outputs := y.outputs + 1);
    if m == Settle {
      if token == t.tokenA && recipient == t.partyB {
        z := z.(tradedA := z.tradedA + value);
      } else if token == t.tokenB && recipient == t.partyA {
        z := z.(tradedB := z.tradedB + value);
      } else if !(token == t.tokenA && recipient == t.partyA) && !(token == t.tokenB && recipient == t.partyB) {
        return Failure(Surplus);
      }
    } else {
      if !RecipientAllowed(t, account, m, recipient) { return Failure(Recipient); }
      z := z.(refunded := z.refunded + value);
    }
    ghost var note := CreateNote(recipient, inner[start + 1], token, value, inner[start + 4], inner[start + 5]);
    SumsOverOneMore(done, note, t.tokenA, t.partyB);
    SumsOverOneMore(done, note, t.tokenB, t.partyA);
    return Success((at, z));
  }

  /** The callback case: last place, this account, two compute fields, key, mode, no invoke fields. */
  method ReviewCallback(inner: seq<nat>, at: nat, account: nat, key: nat, m: Mode, last: bool, seen: bool)
    returns (r: Result<nat, Rejection>)
    requires at <= |inner| && !seen
    ensures r.Success? <==>
      && last && at + 5 <= |inner| && inner[at] == account && inner[at + 1] == 2
      && inner[at + 2] == key && inner[at + 3] == m.Code() && inner[at + 4] == 0
    ensures r.Success? ==> r.value == at + 5
  {
    if !last || seen { return Failure(Callback); }
    var target :- Take(inner, at);
    if target != account { return Failure(Callback); }
    var length :- Take(inner, at + 1);
    if length != 2 { return Failure(Callback); }
    var k :- Take(inner, at + 2);
    if k != key { return Failure(Callback); }
    var mode :- Take(inner, at + 3);
    if mode != m.Code() { return Failure(Callback); }
    var rest :- Take(inner, at + 4);
    if rest != 0 { return Failure(Callback); }
    return Success(at + 5);
  }

  /** The cases that move no value: key registration and the two channel openings. */
  method ReviewOpening(inner: seq<nat>, start: nat, t: Terms, account: nat, m: Mode, tag: nat)
    returns (r: Result<nat, Rejection>)
    requires start < |inner| && inner[start] == tag <= 2
    ensures r.Success? <==>
      DecodeAt(inner, start).Some? && ActionAllowed(t, account, 0, m, DecodeAt(inner, start).value)
    ensures r.Success? ==> r.value == start + |Serialize(DecodeAt(inner, start).value)|
  {
    var at := start + 1;
    if tag == 0 {
      if m != Setup { return Failure(Registration); }
      at :- Skip(inner, at, 1);
      return Success(at);
    }
    var recipient :- Take(inner, at);
    if !RecipientAllowed(t, account, m, recipient) { return Failure(Recipient); }
    at :- Skip(inner, at + 1, 3);
    if tag == 2 {
      var token :- Take(inner, at);
      if !TokenAllowed(t, m, token) { return Failure(Asset); }
      at :- Skip(inner, at + 1, 1);
    }
    return Success(at);
  }

  /** The input case: one field, token, one field. */
  method ReviewInput(inner: seq<nat>, start: nat, t: Terms, m: Mode) returns (r: Result<nat, Rejection>)
    requires start <= |inner|
    ensures r.Success? <==> start + 3 <= |inner| && m != Setup && TokenAllowed(t, m, inner[start + 1])
    ensures r.Success? ==> r.value == start + 3
  {
    if m == Setup { return Failure(SetupMoves); }
    var at :- Skip(inner, start, 1);
    var token :- Take(inner, at);
    if !TokenAllowed(t, m, token) { return Failure(Asset); }
    at :- Skip(inner, at + 1, 1);
    return Success(at);
  }

  /** Reads and judges one action, returning the cursor after it and the new totals. */
  method ReviewAction(
      inner: seq<nat>, start: nat, t: Terms, account: nat, key: nat, m: Mode, last: bool,
      ghost done: seq<Action>, y: Tally)
    returns (r: Result<(nat, Tally), Rejection>)
    requires start <= |inner| && t.tokenA != t.tokenB && t.partyA != t.partyB
    requires Totals(t, m, done, y) && !y.callback
    ensures r.Success? <==>
      DecodeAt(inner, start).Some? && AllowedHere(t, account, key, m, last, DecodeAt(inner, start).value)
    ensures r.Success? ==>
      && r.value.0 == start + |Serialize(DecodeAt(inner, start).value)|
      && Totals(t, m, done + [DecodeAt(inner, start).value], r.value.1)
  {
    hide Paid, Issued, Spent, Created;
    var tag :- Take(inner, start);
    if tag <= 2 {
      var at :- ReviewOpening(inner, start, t, account, m, tag);
      TotalsWithoutValue(t, m, done, y, DecodeAt(inner, start).value);
      return Success((at, y));
    } else if tag == 3 {
      r := ReviewNote(inner, start + 1, t, account, m, done, y);
    } else if tag == 6 {
      var at :- ReviewInput(inner, start + 1, t, m);
      TotalsWithoutValue(t, m, done, y, DecodeAt(inner, start).value);
      return Success((at, y.(inputs := y.inputs + 1)));
    } else if tag == 9 {
      var at :- ReviewCallback(inner, start + 1, account, key, m, last, y.callback);
      TotalsWithoutValue(t, m, done, y, DecodeAt(inner, start).value);
      return Success((at, y.(callback := true)));
    } else {
      return Failure(Unsupported);
    }
  }

  /** Under the right header, a list of actions reads as the stream exactly when it decodes from it. */
  lemma ReadsMeansDecoded(inner: seq<nat>, account: nat, key: nat)
    requires |inner| >= 3 && inner[0] == account && inner[1] == key
    ensures forall actions :: Reads(inner, account, key, actions) <==> DecodeAll(inner, 3, inner[2]) == Some(actions)
  {
    forall actions
      ensures Reads(inner, account, key, actions) <==> DecodeAll(inner, 3, inner[2]) == Some(actions)
    {
      hide SerializeAll, DecodeAll;
      DecodeAllLength(inner, 3, inner[2]);
      if |actions| == inner[2] {
        DecodeAllInvertsSerialize(inner, 3, actions);
        SplitAt(inner, 0, [account, key, |actions|], SerializeAll(actions));
        assert [account, key, |actions|] <= inner[0..];
      }
    }
  }

  /** Every action is allowed where it stands; only the last may be the callback. */
  predicate ListAllowed(t: Terms, account: nat, key: nat, m: Mode, actions: seq<Action>, count: nat) {
    forall k :: 0 <= k < |actions| ==> AllowedHere(t, account, key, m, k == count - 1, actions[k])
  }

  /** Reading one more action; if it is unreadable or forbidden, so is the whole list. */
  lemma OneMoreAction(
      inner: seq<nat>, t: Terms, account: nat, key: nat, m: Mode, count: nat, done: seq<Action>, at: nat)
    requires |done| < count
    requires DecodeAll(inner, 3, count) == Prepend(done, DecodeAll(inner, at, count - |done|))
    ensures var head, whole := DecodeAt(inner, at), DecodeAll(inner, 3, count);
      && (head.None? || !AllowedHere(t, account, key, m, |done| == count - 1, head.value) ==>
          whole.None? || !ListAllowed(t, account, key, m, whole.value, count))
      && (head.Some? ==>
          whole == Prepend(done + [head.value], DecodeAll(inner, at + |Serialize(head.value)|, count - |done| - 1)))
  {
    hide DecodeAt, Serialize, ActionAllowed;
    var head, whole := DecodeAt(inner, at), DecodeAll(inner, 3, count);
    if head.Some? {
      var rest := DecodeAll(inner, at + |Serialize(head.value)|, count - |done| - 1);
      if rest.Some? {
        assert done + ([head.value] + rest.value) == (done + [head.value]) + rest.value;
        assert whole.value[|done|] == head.value;
      }
    }
  }

  lemma PrependUnits(done: seq<Action>, rest: Option<seq<Action>>)
    ensures Prepend([], rest) == rest
    ensures Prepend(done, Some([])) == Some(done)
    ensures Prepend(done, None) == None
  {
    assert rest.Some? ==> [] + rest.value == rest.value;
    assert done + [] == done;
  }

  /** Walks `count` actions from index 3 on; a refusal means that no full reading is allowed. */
  method ReviewActions(inner: seq<nat>, count: nat, t: Terms, account: nat, key: nat, m: Mode)
    returns (r: Result<(nat, Tally), Rejection>, ghost done: seq<Action>)
    requires |inner| >= 3 && t.tokenA != t.tokenB && t.partyA != t.partyB
    ensures r.Failure? ==>
      DecodeAll(inner, 3, count).None? || !ListAllowed(t, account, key, m, DecodeAll(inner, 3, count).value, count)
    ensures r.Success? ==>
      && |done| == count && ListAllowed(t, account, key, m, done, count) && Totals(t, m, done, r.value.1)
      && DecodeAll(inner, 3, count) == if r.value.0 == |inner| then Some(done) else None
  {
    hide Serialize, DecodeAt, ActionAllowed, Prepend;
    var at, y := 3, Tally(0, 0, 0, false, 0, 0);
    done := [];
    PrependUnits(done, DecodeAll(inner, 3, count));
    for i := 0 to count
      invariant |done| == i && 3 <= at <= |inner|
      invariant DecodeAll(inner, 3, count) == Prepend(done, DecodeAll(inner, at, count - i))
      invariant ListAllowed(t, account, key, m, done, count)
      invariant Totals(t, m, done, y)
    {
      OneMoreAction(inner, t, account, key, m, count, done, at);
      var step := ReviewAction(inner, at, t, account, key, m, i == count - 1, done, y);
      if step.Failure? {
        return Failure(step.error), done;
      }
      done := done + [DecodeAt(inner, at).value];
      at, y := step.value.0, step.value.1;
    }
    PrependUnits(done, None);
    return Success((at, y)), done;
  }

  /** The wallet reviews every private field before a signing callback may run. */
  method ReviewConfidentialOperation(p: Primitives, op: Prepared, viewingKey: int)
    returns (r: Result<Review, Rejection>)
    ensures r.Success? <==> exists actions :: Acceptable(p, op, viewingKey, actions)
    ensures r.Success? ==>
      forall actions :: Acceptable(p, op, viewingKey, actions) ==> r.value == ReviewOf(op, actions)
  {
    hide SerializeAll, DecodeAll, ActionAllowed;
    var a, m, c := op.agreement, op.mode, op.invocation.calldata;
    if !Normal(p, a) { return Failure(NotNormal); }
    if a.address == 0 || !CanonicalKey(p, viewingKey) { return Failure(NotDeployed); }
    if !Enveloped(c) { return Failure(Envelope); }
    if !CompilesOnPool(p, a, op.invocation) { return Failure(WrongPool); }
    var inner, key: nat := c[4..], viewingKey;
    if inner[0] != a.address || inner[1] != key { return Failure(Identity); }
    var count := inner[2];
    if count < 1 || count > MAX_ACTIONS { return Failure(ActionCount); }
    ReadsMeansDecoded(inner, a.address, key);
    var walk, done := ReviewActions(inner, count, a.terms, a.address, key, m);
    if walk.Failure? { return Failure(walk.error); }
    var (at, y) := walk.value;
    if at != |inner| || !y.callback { return Failure(TrailingOrMissingCallback); }
    if m == Settle && (y.inputs == 0 || y.tradedA != a.terms.amountA || y.tradedB != a.terms.amountB) {
      return Failure(SwapAmounts);
    }
    if m.Code() >= 2 && (y.inputs == 0 || y.refunded == 0) { return Failure(EmptyRefund); }
    if Digest(p, a, m, inner) != op.digest { return Failure(DigestMismatch); }
    assert Acceptable(p, op, viewingKey, done);
    return Success(Review(m, op.digest, a.commitment, a.address, a.chainId, a.pool, a.deadline, a.terms,
                          RequiredSigners(m), y.inputs, y.outputs));
  }
}
