/**
 What an escrow agreement is, what its commitment and an operation's digest bind, and
 which lists of private actions each mode may contain.
 Field elements, addresses and amounts are natural numbers; the checks on their ranges
 are the program's own.
 */
module ConfidentialPolicy {
  import opened ConfidentialActions

  const FIELD: nat := 0x800000000000011000000000000000000000000000000000000000000000001
  const ADDRESS_LIMIT: nat := 0x7ffffffffffffffffffffffffffffffffffffffffffffffffffffffffffff00
  const U128_LIMIT: nat := 0x1_0000_0000_0000_0000_0000_0000_0000_0000
  const SAFE_INTEGER_LIMIT: nat := 0x20_0000_0000_0000
  const MAX_ACTIONS: nat := 64
  // The short strings APP20_JOINT_TERMS_V1 and APP20_JOINT_AUTH_V1.
  const TERMS_DOMAIN: nat := 0x41505032305f4a4f494e545f5445524d535f5631
  const AUTH_DOMAIN: nat := 0x41505032305f4a4f494e545f415554485f5631

  /**
   The Starknet library: Poseidon, ECDSA on the Stark curve (public x coordinate, parity of y,
   digest, signature), the curve's order and the selector of compile_actions.
   Nothing is assumed of them.
   */
  datatype Primitives = Primitives(
    poseidon: seq<nat> -> nat,
    verify: (nat, bool, nat, nat, nat) -> bool,
    curveOrder: nat,
    compileSelector: nat)

  datatype Mode = Setup | Settle | RefundA | RefundB {
    function Code(): nat {
      match this
      case Setup => 0
      case Settle => 1
      case RefundA => 2
      case RefundB => 3
    }
  }

  datatype Role = A | B

  datatype Terms = Terms(
    tokenA: nat, tokenB: nat, amountA: nat, amountB: nat, partyA: nat, partyB: nat, salt: nat) {
    function Felts(): seq<nat> {
      [tokenA, tokenB, amountA, amountB, partyA, partyB, salt]
    }
  }

  datatype Agreement = Agreement(
    chainId: nat, pool: nat, poolClassHash: nat, escrowClassHash: nat,
    signerA: nat, signerB: nat, deadline: nat, terms: Terms,
    commitment: nat, address: nat)

  datatype Invocation = Invocation(sender: nat, calldata: seq<nat>, signature: seq<nat>)

  datatype Prepared = Prepared(agreement: Agreement, mode: Mode, invocation: Invocation, digest: nat)

  predicate IsFelt(n: nat) {
    0 < n < FIELD
  }

  predicate IsAddress(n: nat) {
    0 < n < ADDRESS_LIMIT
  }

  predicate IsAmount(n: nat) {
    0 < n < U128_LIMIT
  }

  predicate ValidTerms(t: Terms) {
    && IsAddress(t.tokenA) && IsAddress(t.tokenB) && t.tokenA != t.tokenB
    && IsAmount(t.amountA) && IsAmount(t.amountB)
    && IsAddress(t.partyA) && IsAddress(t.partyB) && t.partyA != t.partyB
    && IsFelt(t.salt)
  }

  /** The checks of createConfidentialAgreement; address 0 is an account not deployed yet. */
  predicate ValidConfiguration(a: Agreement) {
    && ValidTerms(a.terms)
    && 0 < a.deadline < SAFE_INTEGER_LIMIT
    && IsFelt(a.chainId) && IsAddress(a.pool) && IsFelt(a.poolClassHash) && IsFelt(a.escrowClassHash)
    && IsFelt(a.signerA) && IsFelt(a.signerB) && a.signerA != a.signerB
    && (a.address == 0 || IsAddress(a.address))
  }

  function CommitmentPreimage(a: Agreement): seq<nat> {
    [TERMS_DOMAIN, a.chainId, a.pool, a.poolClassHash, a.signerA, a.signerB, a.deadline] + a.terms.Felts()
  }

  function Commitment(p: Primitives, a: Agreement): nat {
    p.poseidon(CommitmentPreimage(a))
  }

  /** normalizeConfidentialAgreement accepts, and then returns the same values. */
  predicate Normal(p: Primitives, a: Agreement) {
    ValidConfiguration(a) && a.commitment == Commitment(p, a)
  }

  function DigestPreimage(p: Primitives, a: Agreement, m: Mode, inner: seq<nat>): seq<nat> {
    [AUTH_DOMAIN, a.chainId, a.address, a.pool, a.poolClassHash, a.commitment, m.Code(), p.poseidon(inner)]
  }

  function Digest(p: Primitives, a: Agreement, m: Mode, inner: seq<nat>): nat {
    p.poseidon(DigestPreimage(p, a, m, inner))
  }

  function RequiredSigners(m: Mode): set<Role> {
    match m
    case RefundA => {A}
    case RefundB => {B}
    case _ => {A, B}
  }

  // ---------- the policy, action by action ----------

  predicate TokenAllowed(t: Terms, m: Mode, token: nat) {
    (token == t.tokenA && m != RefundB) || (token == t.tokenB && m != RefundA)
  }

  predicate RecipientAllowed(t: Terms, account: nat, m: Mode, recipient: nat) {
    || (recipient == t.partyA && m != RefundB)
    || (recipient == t.partyB && m != RefundA)
    || (m == Setup && recipient == account)
  }

  predicate ActionAllowed(t: Terms, account: nat, key: nat, m: Mode, act: Action) {
    match act
    case SetViewingKey(_) => m == Setup
    case OpenChannel(r, _, _, _) => RecipientAllowed(t, account, m, r)
    case OpenSubchannel(r, _, _, _, token, _) => RecipientAllowed(t, account, m, r) && TokenAllowed(t, m, token)
    case CreateNote(r, _, token, amount, _, _) =>
      && m != Setup && amount < U128_LIMIT && TokenAllowed(t, m, token) && RecipientAllowed(t, account, m, r)
    case UseNote(_, token, _) => m != Setup && TokenAllowed(t, m, token)
    case ComputeAndInvoke(target, length, k, mode, rest) =>
      target == account && length == 2 && k == key && mode == m.Code() && rest == 0
  }

  /** The amount of `token` that a list of actions emits to `recipient`. */
  function Paid(actions: seq<Action>, token: nat, recipient: nat): nat {
    if actions == [] then 0
    else
      var last := actions[|actions| - 1];
      Paid(actions[..|actions| - 1], token, recipient) +
      if last.CreateNote? && last.token == token && last.recipient == recipient then last.amount else 0
  }

  /** Everything a list of actions emits, over all tokens and recipients. */
  function Issued(actions: seq<Action>): nat {
    if actions == [] then 0
    else
      var last := actions[|actions| - 1];
      Issued(actions[..|actions| - 1]) + if last.CreateNote? then last.amount else 0
  }

  function Spent(actions: seq<Action>): nat {
    if actions == [] then 0
    else Spent(actions[..|actions| - 1]) + if actions[|actions| - 1].UseNote? then 1 else 0
  }

  function Created(actions: seq<Action>): nat {
    if actions == [] then 0
    else Created(actions[..|actions| - 1]) + if actions[|actions| - 1].CreateNote? then 1 else 0
  }

  /** The value policy of each mode, in terms of what the whole list pays to whom. */
  predicate ValueMoves(t: Terms, m: Mode, actions: seq<Action>) {
    match m
    case Setup => true
    case Settle =>
      && Spent(actions) > 0
      && Paid(actions, t.tokenA, t.partyB) == t.amountA
      && Paid(actions, t.tokenB, t.partyA) == t.amountB
    case _ => Spent(actions) > 0 && Issued(actions) > 0
  }

  predicate OperationAllowed(t: Terms, account: nat, key: nat, m: Mode, actions: seq<Action>) {
    && 1 <= |actions| <= MAX_ACTIONS
    && (forall i :: 0 <= i < |actions| ==> ActionAllowed(t, account, key, m, actions[i]))
    && (forall i :: 0 <= i < |actions| ==> (actions[i].ComputeAndInvoke? <==> i == |actions| - 1))
    && ValueMoves(t, m, actions)
  }

  // ---------- what an allowed operation does ----------

  /** A list whose notes all go to `token` and `recipient` pays nobody else anything. */
  lemma {:induction false} PaysNothingElsewhere(actions: seq<Action>, token: nat, recipient: nat)
    requires forall i :: 0 <= i < |actions| && actions[i].CreateNote? ==>
      !(actions[i].token == token && actions[i].recipient == recipient)
    ensures Paid(actions, token, recipient) == 0
  {
    if actions == [] {
    } else {
      PaysNothingElsewhere(actions[..|actions| - 1], token, recipient);
    }
  }

  lemma {:induction false} PaidToOneIsIssued(actions: seq<Action>, token: nat, recipient: nat)
    requires forall i :: 0 <= i < |actions| && actions[i].CreateNote? ==>
      actions[i].token == token && actions[i].recipient == recipient
    ensures Paid(actions, token, recipient) == Issued(actions)
  {
    if actions == [] {
    } else {
      PaidToOneIsIssued(actions[..|actions| - 1], token, recipient);
    }
  }

  /**
   Settlement: party B gets exactly amountA of token A and party A exactly amountB of token B;
   anything else paid is surplus of an asset going back to that asset's owner.
   */
  lemma SettlementPaysExactly(t: Terms, account: nat, key: nat, actions: seq<Action>, token: nat, recipient: nat)
    requires ValidTerms(t)
    requires OperationAllowed(t, account, key, Settle, actions)
    ensures Paid(actions, t.tokenA, t.partyB) == t.amountA
    ensures Paid(actions, t.tokenB, t.partyA) == t.amountB
    ensures Paid(actions, token, recipient) > 0 ==>
      || (token == t.tokenA && recipient == t.partyB)
      || (token == t.tokenB && recipient == t.partyA)
      || (token == t.tokenA && recipient == t.partyA)
      || (token == t.tokenB && recipient == t.partyB)
  {
    if !(token in {t.tokenA, t.tokenB} && recipient in {t.partyA, t.partyB}) {
      PaysNothingElsewhere(actions, token, recipient);
    }
  }

  /** A refund pays something, all of it the refunded party's own asset, all to that party. */
  lemma RefundPaysOnlyTheOwner(t: Terms, account: nat, key: nat, m: Mode, actions: seq<Action>, token: nat,
                               recipient: nat)
    requires m == RefundA || m == RefundB
    requires OperationAllowed(t, account, key, m, actions)
    ensures var (own, party) := if m == RefundA then (t.tokenA, t.partyA) else (t.tokenB, t.partyB);
      && Paid(actions, own, party) == Issued(actions) > 0
      && (Paid(actions, token, recipient) > 0 ==> token == own && recipient == party)
  {
    var (own, party) := if m == RefundA then (t.tokenA, t.partyA) else (t.tokenB, t.partyB);
    PaidToOneIsIssued(actions, own, party);
    if !(token == own && recipient == party) {
      PaysNothingElsewhere(actions, token, recipient);
    }
  }

  /** Setup neither spends a note nor creates one. */
  lemma SetupMovesNothing(t: Terms, account: nat, key: nat, actions: seq<Action>, token: nat, recipient: nat)
    requires OperationAllowed(t, account, key, Setup, actions)
    ensures forall a :: a in actions ==> !a.UseNote? && !a.CreateNote?
    ensures Paid(actions, token, recipient) == 0
  {
    PaysNothingElsewhere(actions, token, recipient);
  }

  // ---------- what a digest binds ----------

  predicate Collision(p: Primitives, x: seq<nat>, y: seq<nat>) {
    x != y && p.poseidon(x) == p.poseidon(y)
  }

  /**
   Commitments are equal exactly for equal terms, signers, deadline, chain and pool, unless the two
   preimages are a Poseidon collision.
   */
  lemma CommitmentBindsTerms(p: Primitives, a: Agreement, b: Agreement)
    ensures Commitment(p, a) == Commitment(p, b) <==>
      || Collision(p, CommitmentPreimage(a), CommitmentPreimage(b))
      || (&& a.terms == b.terms && a.signerA == b.signerA && a.signerB == b.signerB && a.deadline == b.deadline
          && a.chainId == b.chainId && a.pool == b.pool && a.poolClassHash == b.poolClassHash)
  {
    var x, y := CommitmentPreimage(a), CommitmentPreimage(b);
    if x == y {
      assert a.terms.Felts() == x[7..] == y[7..] == b.terms.Felts();
      assert forall k :: 0 <= k < 7 ==> a.terms.Felts()[k] == b.terms.Felts()[k];
      assert a.terms.tokenA == a.terms.Felts()[0] && a.terms.tokenB == a.terms.Felts()[1]
          && a.terms.amountA == a.terms.Felts()[2] && a.terms.amountB == a.terms.Felts()[3]
          && a.terms.partyA == a.terms.Felts()[4] && a.terms.partyB == a.terms.Felts()[5]
          && a.terms.salt == a.terms.Felts()[6];
      assert forall k :: 0 <= k < 7 ==> x[k] == y[k];
    }
  }

  /**
   Equal digests of two operations under normalized agreements mean the same account, mode,
   action stream, terms, signers, deadline, chain and pool: everything but the escrow class hash.
   Otherwise one of three explicit pairs is a Poseidon collision.
   */
  lemma DigestBindsOperation(
      p: Primitives, a: Agreement, m: Mode, inner: seq<nat>, a': Agreement, m': Mode, inner': seq<nat>)
    ensures Normal(p, a) && Normal(p, a') && Digest(p, a, m, inner) == Digest(p, a', m', inner') ==>
      || Collision(p, DigestPreimage(p, a, m, inner), DigestPreimage(p, a', m', inner'))
      || Collision(p, inner, inner')
      || Collision(p, CommitmentPreimage(a), CommitmentPreimage(a'))
      || (a' == a.(escrowClassHash := a'.escrowClassHash) && m == m' && inner == inner')
  {
    var x, y := DigestPreimage(p, a, m, inner), DigestPreimage(p, a', m', inner');
    if Normal(p, a) && Normal(p, a') && x == y {
      assert forall k :: 0 <= k < 8 ==> x[k] == y[k];
      assert a.address == x[2] == y[2] == a'.address;
      assert a.commitment == x[5] == y[5] == a'.commitment;
      assert m.Code() == x[6] == y[6] == m'.Code();
      assert p.poseidon(inner) == x[7] == y[7] == p.poseidon(inner');
      CommitmentBindsTerms(p, a, a');
    }
  }

  /** The escrow class hash is pinned by neither the commitment nor the digest. */
  lemma EscrowClassIsNotBound(p: Primitives, a: Agreement, m: Mode, inner: seq<nat>, other: nat)
    ensures Commitment(p, a.(escrowClassHash := other)) == Commitment(p, a)
    ensures Digest(p, a.(escrowClassHash := other), m, inner) == Digest(p, a, m, inner)
  {
    assert CommitmentPreimage(a.(escrowClassHash := other)) == CommitmentPreimage(a);
    assert DigestPreimage(p, a.(escrowClassHash := other), m, inner) == DigestPreimage(p, a, m, inner);
  }
}
