/**
 The on-chain side of the same policy: the escrow account checks the compiled call itself,
 with 128-bit totals that abort on overflow. It is proved to agree with the wallet-side
 review, except for refunds whose outputs add up to 2^128 or more.
 */
module EscrowContract {
  import opened Wrappers
  import opened ConfidentialActions
  import opened ConfidentialPolicy
  import opened ConfidentialReview
  import opened ConfidentialAuthorization

  datatype Walk = Walk(tradedA: nat, tradedB: nat, refunded: nat, used: bool, callback: bool)

  /** A u128 addition, which aborts instead of wrapping around. */
  function Add128(x: nat, y: nat): Option<nat> {
    if x + y < U128_LIMIT then Some(x + y) else None
  }

  /** The effect of one action that passed its checks; None is an abort. */
  function Apply(t: Terms, m: Mode, w: Walk, a: Action): Option<Walk> {
    if a.UseNote? then Some(w.(used := true))
    else if a.ComputeAndInvoke? then Some(w.(callback := true))
    else if !a.CreateNote? then Some(w)
    else if m != Settle then
      var sum := Add128(w.refunded, a.amount);
      if sum.None? then None else Some(w.(refunded := sum.value))
    else if a.token == t.tokenA && a.recipient == t.partyB then
      var sum := Add128(w.tradedA, a.amount);
      if sum.None? then None else Some(w.(tradedA := sum.value))
    else if a.token == t.tokenB && a.recipient == t.partyA then
      var sum := Add128(w.tradedB, a.amount);
      if sum.None? then None else Some(w.(tradedB := sum.value))
    else Some(w)
  }

  /** The loop of check_actions from index `at` on, with `remaining` actions to read. */
  predicate CheckFrom(data: seq<nat>, at: nat, remaining: nat, t: Terms, self: nat, key: nat, m: Mode, w: Walk)
    decreases remaining
  {
    if remaining == 0 then
      && at == |data| && w.callback
      && (m == Settle ==> w.used && w.tradedA == t.amountA && w.tradedB == t.amountB)
      && (m == RefundA || m == RefundB ==> w.used && w.refunded > 0)
    else
      var head := DecodeAt(data, at);
      && head.Some? && AllowedHere(t, self, key, m, remaining == 1, head.value)
      && var next := Apply(t, m, w, head.value);
      next.Some? && CheckFrom(data, at + |Serialize(head.value)|, remaining - 1, t, self, key, m, next.value)
  }

  predicate CheckActions(data: seq<nat>, t: Terms, self: nat, m: Mode) {
    && |data| >= 3 && data[0] == self && 1 <= data[2] <= MAX_ACTIONS
    && CheckFrom(data, 3, data[2], t, self, data[1], m, Walk(0, 0, 0, false, false))
  }

  // ---------- agreement with the wallet ----------

  predicate WalkOf(t: Terms, m: Mode, done: seq<Action>, w: Walk) {
    && w.tradedA == (if m == Settle then Paid(done, t.tokenA, t.partyB) else 0)
    && w.tradedB == (if m == Settle then Paid(done, t.tokenB, t.partyA) else 0)
    && w.refunded == (if m == Settle then 0 else Issued(done)) && w.refunded < U128_LIMIT
    && (w.used <==> Spent(done) > 0)
    && (w.callback <==> exists i :: 0 <= i < |done| && done[i].ComputeAndInvoke?)
  }

  /** What the whole list must satisfy for the contract's final assertions to hold. */
  predicate Outcome(t: Terms, m: Mode, actions: seq<Action>) {
    && ValueMoves(t, m, actions)
    && (exists i :: 0 <= i < |actions| && actions[i].ComputeAndInvoke?)
    && (m == RefundA || m == RefundB ==> Issued(actions) < U128_LIMIT)
  }

  lemma {:induction false} SumsOnlyGrow(done: seq<Action>, rest: seq<Action>, token: nat, recipient: nat)
    ensures Paid(done, token, recipient) <= Paid(done + rest, token, recipient)
    ensures Issued(done) <= Issued(done + rest)
  {
    if rest == [] {
      assert done + rest == done;
    } else {
      var front, last := rest[..|rest| - 1], rest[|rest| - 1];
      SumsOnlyGrow(done, front, token, recipient);
      SumsOverOneMore(done + front, last, token, recipient);
      assert done + rest == (done + front) + [last];
    }
  }

  lemma ApplyKeepsWalk(t: Terms, self: nat, key: nat, m: Mode, done: seq<Action>, w: Walk, a: Action)
    requires t.tokenA != t.tokenB && WalkOf(t, m, done, w) && ActionAllowed(t, self, key, m, a)
    ensures Apply(t, m, w, a).Some? ==> WalkOf(t, m, done + [a], Apply(t, m, w, a).value)
    ensures Apply(t, m, w, a).None? ==>
      if m == Settle then Paid(done + [a], t.tokenA, t.partyB) >= U128_LIMIT
        || Paid(done + [a], t.tokenB, t.partyA) >= U128_LIMIT
      else Issued(done + [a]) >= U128_LIMIT
  {
    hide Paid, Issued, Spent, Created;
    SumsOverOneMore(done, a, t.tokenA, t.partyB);
    SumsOverOneMore(done, a, t.tokenB, t.partyA);
    assert (done + [a])[|done|] == a;
    assert forall i :: 0 <= i < |done| ==> (done + [a])[i] == done[i];
  }

  /** A total that overflows on the way can only end in a list that the policy refuses. */
  lemma OverflowRefuses(t: Terms, self: nat, key: nat, m: Mode, done: seq<Action>,
        w: Walk, a: Action, rest: seq<Action>)
    requires ValidTerms(t) && WalkOf(t, m, done, w) && ActionAllowed(t, self, key, m, a)
    requires Apply(t, m, w, a).None?
    ensures !Outcome(t, m, done + ([a] + rest))
  {
    ApplyKeepsWalk(t, self, key, m, done, w, a);
    assert done + ([a] + rest) == (done + [a]) + rest;
    SumsOnlyGrow(done + [a], rest, t.tokenA, t.partyB);
    SumsOnlyGrow(done + [a], rest, t.tokenB, t.partyA);
  }

  lemma ListAllowedCons(t: Terms, self: nat, key: nat, m: Mode, a: Action, rest: seq<Action>, count: nat)
    requires count > 0
    ensures ListAllowed(t, self, key, m, [a] + rest, count) <==>
      AllowedHere(t, self, key, m, count == 1, a) && ListAllowed(t, self, key, m, rest, count - 1)
  {
    hide ActionAllowed;
    var all := [a] + rest;
    if ListAllowed(t, self, key, m, all, count) {
      assert AllowedHere(t, self, key, m, 0 == count - 1, all[0]);
      forall k | 0 <= k < |rest| ensures AllowedHere(t, self, key, m, k == count - 2, rest[k]) {
        assert AllowedHere(t, self, key, m, k + 1 == count - 1, all[k + 1]);
      }
    }
  }

  /** With nothing left to read, the final assertions are about the whole list. */
  lemma CheckEnds(data: seq<nat>, at: nat, t: Terms, self: nat, key: nat, m: Mode, done: seq<Action>, w: Walk)
    requires ValidTerms(t) && at <= |data| && WalkOf(t, m, done, w)
    ensures CheckFrom(data, at, 0, t, self, key, m, w) <==>
      var rest := DecodeAll(data, at, 0);
      && rest.Some? && ListAllowed(t, self, key, m, rest.value, 0) && Outcome(t, m, done + rest.value)
  {
    assert done + [] == done;
  }

  /** The loop accepts exactly when what remains decodes, is allowed and completes the outcome. */
  lemma {:induction false} CheckFromMeaning(
      data: seq<nat>, at: nat, remaining: nat, t: Terms, self: nat, key: nat, m: Mode, done: seq<Action>, w: Walk)
    requires ValidTerms(t) && at <= |data| && WalkOf(t, m, done, w)
    ensures CheckFrom(data, at, remaining, t, self, key, m, w) <==>
      var rest := DecodeAll(data, at, remaining);
      && rest.Some? && ListAllowed(t, self, key, m, rest.value, remaining) && Outcome(t, m, done + rest.value)
    decreases remaining
  {
    hide DecodeAt, Serialize, ActionAllowed, Apply, WalkOf, Outcome, ListAllowed;
    if remaining == 0 {
      CheckEnds(data, at, t, self, key, m, done, w);
    } else {
      var head := DecodeAt(data, at);
      if head.Some? {
        var a, next := head.value, at + |Serialize(head.value)|;
        var rest := DecodeAll(data, next, remaining - 1);
        if rest.Some? {
          ListAllowedCons(t, self, key, m, a, rest.value, remaining);
        }
        if AllowedHere(t, self, key, m, remaining == 1, a) {
          if Apply(t, m, w, a).Some? {
            ApplyKeepsWalk(t, self, key, m, done, w, a);
            CheckFromMeaning(data, next, remaining - 1, t, self, key, m, done + [a], Apply(t, m, w, a).value);
            assert rest.Some? ==> done + ([a] + rest.value) == (done + [a]) + rest.value;
          } else if rest.Some? {
            OverflowRefuses(t, self, key, m, done, w, a, rest.value);
          }
        }
      }
    }
  }

  ghost predicate ContractReading(data: seq<nat>, t: Terms, self: nat, m: Mode, key: nat, actions: seq<Action>) {
    && Reads(data, self, key, actions) && OperationAllowed(t, self, key, m, actions)
    && (m == RefundA || m == RefundB ==> Issued(actions) < U128_LIMIT)
  }

  lemma OutcomeAndPlacesAreThePolicy(t: Terms, self: nat, key: nat, m: Mode, actions: seq<Action>)
    requires 1 <= |actions| <= MAX_ACTIONS
    ensures ListAllowed(t, self, key, m, actions, |actions|) && Outcome(t, m, actions) <==>
      && OperationAllowed(t, self, key, m, actions)
      && (m == RefundA || m == RefundB ==> Issued(actions) < U128_LIMIT)
  {
    hide Paid, Issued, Spent, ActionAllowed;
    if ListAllowed(t, self, key, m, actions, |actions|) && Outcome(t, m, actions) {
      var i :| 0 <= i < |actions| && actions[i].ComputeAndInvoke?;
      assert AllowedHere(t, self, key, m, i == |actions| - 1, actions[i]);
    }
    if OperationAllowed(t, self, key, m, actions) {
      assert actions[|actions| - 1].ComputeAndInvoke?;
    }
  }

  /**
   The contract accepts a stream exactly when it is the serialization of an allowed operation
   under the key it names and, for a refund, the outputs add up to less than 2^128.
   */
  lemma ContractAcceptsAllowedOperations(data: seq<nat>, t: Terms, self: nat, m: Mode, key: nat, actions: seq<Action>)
    requires ValidTerms(t)
    requires Reads(data, self, key, actions)
    ensures CheckActions(data, t, self, m) <==> ContractReading(data, t, self, m, key, actions)
  {
    hide CheckFrom, DecodeAll, SerializeAll, Outcome, ListAllowed, ValueMoves, ActionAllowed;
    assert data[0] == self && data[1] == key && data[2] == |actions|;
    ReadsMeansDecoded(data, self, key);
    CheckFromMeaning(data, 3, |actions|, t, self, key, m, [], Walk(0, 0, 0, false, false));
    assert [] + actions == actions;
    if 1 <= |actions| <= MAX_ACTIONS {
      OutcomeAndPlacesAreThePolicy(t, self, key, m, actions);
    }
  }

  /** A stream that is no serialization at all is refused. */
  lemma ContractRefusesOtherStreams(data: seq<nat>, t: Terms, self: nat, m: Mode)
    requires ValidTerms(t)
    requires CheckActions(data, t, self, m)
    ensures exists actions :: Reads(data, self, data[1], actions)
  {
    hide DecodeAll, Outcome, ListAllowed;
    ReadsMeansDecoded(data, self, data[1]);
    CheckFromMeaning(data, 3, data[2], t, self, data[1], m, [], Walk(0, 0, 0, false, false));
    assert Reads(data, self, data[1], DecodeAll(data, 3, data[2]).value);
  }

  /** A refund to party A in two notes of 2^127 each. */
  function LargeRefund(t: Terms, self: nat, key: nat): seq<Action> {
    var note := CreateNote(t.partyA, 0, t.tokenA, U128_LIMIT / 2, 0, 0);
    [UseNote(0, t.tokenA, 0), note, note, ComputeAndInvoke(self, 2, key, RefundA.Code(), 0)]
  }

  lemma LargeRefundTotals(t: Terms, self: nat, key: nat)
    ensures Spent(LargeRefund(t, self, key)) > 0 && Issued(LargeRefund(t, self, key)) == U128_LIMIT
  {
    hide Paid;
    var s := LargeRefund(t, self, key);
    forall k | 0 <= k < 4 ensures s[..k + 1] == s[..k] + [s[k]] {}
    forall k | 0 <= k < 4 {
      SumsOverOneMore(s[..k], s[k], 0, 0);
    }
    assert s[..4] == s;
  }

  /** The gap is real: the wallet's policy allows the large refund, and the contract refuses it. */
  lemma LargeRefundIsRefused(t: Terms, self: nat, key: nat)
    requires ValidTerms(t)
    ensures var actions := LargeRefund(t, self, key);
      && OperationAllowed(t, self, key, RefundA, actions)
      && !CheckActions([self, key, 4] + SerializeAll(actions), t, self, RefundA)
  {
    hide SerializeAll, CheckActions, Paid, Issued, Spent;
    LargeRefundTotals(t, self, key);
    var actions := LargeRefund(t, self, key);
    ContractAcceptsAllowedOperations([self, key, 4] + SerializeAll(actions), t, self, RefundA, key, actions);
  }

  // ---------- the whole signature check ----------

  /** What the account stored at deployment. */
  datatype Deployment = Deployment(
    self: nat, chainId: nat, pool: nat, poolClass: nat, commitment: nat, signerA: nat, signerB: nat, deadline: nat)

  /** What validation finds on chain: the class the pool has now, and the network's signature check. */
  datatype Chain = Chain(poolClass: nat, checkEcdsa: (nat, nat, nat, nat) -> bool)

  /** The network accepts every signature that the wallet's own library accepts. */
  ghost predicate AcceptsWalletSignatures(chain: Chain, p: Primitives) {
    forall digest, key, odd, r, s :: p.verify(key, odd, digest, r, s) ==> chain.checkEcdsa(digest, key, r, s)
  }

  /** Terms as deserialized from a signature: addresses and 128-bit amounts in range. */
  predicate TermsShape(t: Terms) {
    && t.tokenA < ADDRESS_LIMIT && t.tokenB < ADDRESS_LIMIT && t.partyA < ADDRESS_LIMIT && t.partyB < ADDRESS_LIMIT
    && t.amountA < U128_LIMIT && t.amountB < U128_LIMIT && t.salt < FIELD
  }

  predicate TermsPolicy(t: Terms) {
    t.tokenA != t.tokenB && t.partyA != t.partyB && t.amountA > 0 && t.amountB > 0 && t.salt != 0
  }

  function ModeOf(code: nat): Option<Mode> {
    match code
    case 0 => Some(Setup)
    case 1 => Some(Settle)
    case 2 => Some(RefundA)
    case 3 => Some(RefundB)
    case _ => None
  }

  /** is_custom_signature_valid for one call (to, selector, calldata) and a 12-element signature. */
  predicate SignatureValid(
      p: Primitives, chain: Chain, d: Deployment, to: nat, selector: nat, data: seq<nat>, sig: seq<nat>) {
    && |sig| == 12 && ModeOf(sig[0]).Some?
    && var m, t := ModeOf(sig[0]).value, Terms(sig[1], sig[2], sig[3], sig[4], sig[5], sig[6], sig[7]);
    && TermsShape(t) && TermsPolicy(t)
    && chain.poolClass == d.poolClass
    && p.poseidon([TERMS_DOMAIN, d.chainId, d.pool, d.poolClass, d.signerA, d.signerB, d.deadline] + t.Felts())
       == d.commitment
    && to == d.pool && selector == p.compileSelector
    && CheckActions(data, t, d.self, m)
    && var digest := p.poseidon(
         [AUTH_DOMAIN, d.chainId, d.self, d.pool, d.poolClass, d.commitment, m.Code(), p.poseidon(data)]);
    && (m != RefundB ==> chain.checkEcdsa(digest, d.signerA, sig[8], sig[9]))
    && (m != RefundA ==> chain.checkEcdsa(digest, d.signerB, sig[10], sig[11]))
  }

  predicate DeployedAs(d: Deployment, a: Agreement) {
    d == Deployment(a.address, a.chainId, a.pool, a.poolClassHash, a.commitment, a.signerA, a.signerB, a.deadline)
  }

  /**
   End to end: an invocation that the wallet authorizes passes the account's own check on the
   deployed escrow if and only if the pool still has its deployed class and the invocation is not a
   refund whose outputs reach 2^128.
   */
  lemma {:induction false} AuthorizedInvocationValidates(
      p: Primitives, chain: Chain, op: Prepared, key: nat, approvals: seq<Approval>,
      actions: seq<Action>, d: Deployment)
    requires Authorized(p, op, key, approvals) && Acceptable(p, op, key, actions)
    requires DeployedAs(d, op.agreement) && AcceptsWalletSignatures(chain, p)
    ensures var call := Signed(op, approvals);
      SignatureValid(p, chain, d, call.calldata[1], call.calldata[2], call.calldata[4..], call.signature)
      <==> chain.poolClass == d.poolClass
           && !((op.mode == RefundA || op.mode == RefundB) && Issued(actions) >= U128_LIMIT)
  {
    var a, data, sig := op.agreement, op.invocation.calldata[4..], Signed(op, approvals).signature;
    SignatureLayout(p, chain, op, key, approvals);
    ContractAcceptsAllowedOperations(data, a.terms, a.address, op.mode, key, actions);
    hide CheckActions, OperationAllowed, Issued, Reads;
    assert CommitmentPreimage(a) ==
      [TERMS_DOMAIN, d.chainId, d.pool, d.poolClass, d.signerA, d.signerB, d.deadline] + a.terms.Felts();
  }

  /** The signature of an authorized invocation: mode, terms, then A's and B's two elements. */
  lemma SignatureLayout(p: Primitives, chain: Chain, op: Prepared, key: nat, approvals: seq<Approval>)
    requires Authorized(p, op, key, approvals) && AcceptsWalletSignatures(chain, p)
    ensures var (a, sig) := (op.agreement, Signed(op, approvals).signature);
      && |sig| == 12 && ModeOf(sig[0]) == Some(op.mode)
      && a.terms == Terms(sig[1], sig[2], sig[3], sig[4], sig[5], sig[6], sig[7])
      && (op.mode != RefundB ==> chain.checkEcdsa(op.digest, a.signerA, sig[8], sig[9]))
      && (op.mode != RefundA ==> chain.checkEcdsa(op.digest, a.signerB, sig[10], sig[11]))
  {
    hide Acceptable;
    PlaceOfRole(p, chain, op, approvals, A);
    PlaceOfRole(p, chain, op, approvals, B);
    var x, y := SignatureFor(approvals, A), SignatureFor(approvals, B);
    var felts, sig := op.agreement.terms.Felts(), Signed(op, approvals).signature;
    assert sig == [op.mode.Code()] + felts + x + y;
    assert felts == sig[1..8] && x == sig[8..10] && y == sig[10..12];
    assert forall k :: 0 <= k < 7 ==> sig[k + 1] == felts[k];
  }

  lemma PlaceOfRole(p: Primitives, chain: Chain, op: Prepared, approvals: seq<Approval>, role: Role)
    requires ExactlyOnce(op.mode, approvals) && AcceptsWalletSignatures(chain, p)
    requires forall i :: 0 <= i < |approvals| ==> VerifiedApproval(p, op.agreement, op.digest, approvals[i])
    ensures var s := SignatureFor(approvals, role);
      |s| == 2 && (role in RequiredSigners(op.mode) ==>
        chain.checkEcdsa(op.digest, SignerKey(op.agreement, role), s[0], s[1]))
  {
    if role in RequiredSigners(op.mode) {
      var i :| 0 <= i < |approvals| && approvals[i].role == role;
      SignatureForFindsRole(approvals, i);
      assert VerifiedApproval(p, op.agreement, op.digest, approvals[i]);
    } else {
      SignatureForMissingRole(approvals, role);
    }
  }
}
