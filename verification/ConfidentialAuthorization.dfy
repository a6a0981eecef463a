/**
 Approvals and the authorized invocation: who must sign, what a signature is worth, and why
 an approval given for one operation never authorizes another.
 */
module ConfidentialAuthorization {
  import opened Wrappers
  import opened ConfidentialActions
  import opened ConfidentialPolicy
  import opened ConfidentialReview

  datatype Approval = Approval(role: Role, digest: nat, signature: seq<nat>)

  datatype Refusal = NotReviewed(why: Rejection) | NotExactlyOnce | InvalidApproval

  function SignerKey(a: Agreement, role: Role): nat {
    if role == A then a.signerA else a.signerB
  }

  /** A two-element signature on this digest under either y parity of the role's agreed key. */
  predicate VerifiedApproval(p: Primitives, a: Agreement, digest: nat, approval: Approval) {
    && digest == approval.digest && |approval.signature| == 2
    && exists odd :: p.verify(SignerKey(a, approval.role), odd, digest, approval.signature[0], approval.signature[1])
  }

  /** Every required role approves, nobody twice and nobody else. */
  ghost predicate ExactlyOnce(m: Mode, approvals: seq<Approval>) {
    && (forall i, j :: 0 <= i < j < |approvals| ==> approvals[i].role != approvals[j].role)
    && (forall role :: role in RequiredSigners(m) <==> exists i :: 0 <= i < |approvals| && approvals[i].role == role)
  }

  ghost predicate Authorized(p: Primitives, op: Prepared, key: int, approvals: seq<Approval>) {
    && (exists actions :: Acceptable(p, op, key, actions))
    && ExactlyOnce(op.mode, approvals)
    && forall i :: 0 <= i < |approvals| ==> VerifiedApproval(p, op.agreement, op.digest, approvals[i])
  }

  /** The signature of the first approval of a role, or two zeros. */
  function SignatureFor(approvals: seq<Approval>, role: Role): seq<nat> {
    if approvals == [] then [0, 0]
    else if approvals[0].role == role then approvals[0].signature
    else SignatureFor(approvals[1..], role)
  }

  function Signed(op: Prepared, approvals: seq<Approval>): Invocation {
    op.invocation.(signature := [op.mode.Code()] + op.agreement.terms.Felts()
                                + SignatureFor(approvals, A) + SignatureFor(approvals, B))
  }

  function Elements<T>(s: seq<T>): (r: set<T>) {
    set x | x in s
  }

  /** A sequence has as many elements as its set exactly when it repeats none. */
  lemma {:induction false} DistinctWhenAsManyElements<T>(s: seq<T>)
    ensures |Elements(s)| <= |s|
    ensures |Elements(s)| == |s| <==> forall i, j :: 0 <= i < j < |s| ==> s[i] != s[j]
  {
    if s == [] {
    } else {
      var n := |s| - 1;
      var front, last := s[..n], s[n];
      DistinctWhenAsManyElements(front);
      assert s == front + [last];
      assert Elements(s) == Elements(front) + {last};
      if last in front {
        assert Elements(s) == Elements(front);
      } else {
        assert |Elements(s)| == |Elements(front)| + 1;
        assert forall i :: 0 <= i < n ==> s[i] == front[i];
      }
    }
  }

  lemma SameSizeSubset<T>(small: set<T>, large: set<T>)
    requires small <= large && |small| == |large|
    ensures small == large
  {
    assert |large - small| == |large| - |small|;
  }

  function RolesOf(approvals: seq<Approval>): (roles: seq<Role>)
    ensures |roles| == |approvals| && forall i :: 0 <= i < |roles| ==> roles[i] == approvals[i].role
  {
    seq(|approvals|, i requires 0 <= i < |approvals| => approvals[i].role)
  }

  /** The test by counting: no role twice, as many approvals as required signers, none missing. */
  predicate RolesMatch(required: set<Role>, approvals: seq<Approval>) {
    var roles := Elements(RolesOf(approvals));
    |roles| == |approvals| && |approvals| == |required| && forall role :: role in required ==> role in roles
  }

  lemma RolesMatchExactlyOnce(m: Mode, approvals: seq<Approval>)
    ensures RolesMatch(RequiredSigners(m), approvals) <==> ExactlyOnce(m, approvals)
  {
    var required, roles := RequiredSigners(m), RolesOf(approvals);
    DistinctWhenAsManyElements(roles);
    assert forall role :: role in Elements(roles) <==> exists i :: 0 <= i < |approvals| && approvals[i].role == role;
    if RolesMatch(required, approvals) {
      SameSizeSubset(required, Elements(roles));
      assert forall i, j :: 0 <= i < j < |approvals| ==> roles[i] != roles[j];
    }
    if ExactlyOnce(m, approvals) {
      assert Elements(roles) == required;
      assert forall i, j :: 0 <= i < j < |approvals| ==> roles[i] != roles[j];
    }
  }

  method AuthorizeConfidentialOperation(p: Primitives, op: Prepared, viewingKey: int, approvals: seq<Approval>)
    returns (r: Result<Invocation, Refusal>)
    ensures r.Success? <==> Authorized(p, op, viewingKey, approvals)
    ensures r.Success? ==> r.value == Signed(op, approvals)
  {
    hide ExactlyOnce, RolesMatch, Acceptable;
    var review := ReviewConfidentialOperation(p, op, viewingKey);
    if review.Failure? { return Failure(NotReviewed(review.error)); }
    RolesMatchExactlyOnce(op.mode, approvals);
    if !RolesMatch(review.value.requiredSigners, approvals) { return Failure(NotExactlyOnce); }
    for i := 0 to |approvals|
      invariant forall k :: 0 <= k < i ==> VerifiedApproval(p, op.agreement, op.digest, approvals[k])
    {
      if !VerifiedApproval(p, op.agreement, review.value.digest, approvals[i]) { return Failure(InvalidApproval); }
    }
    return Success(Signed(op, approvals));
  }

  /** In an authorized invocation each required role's own signature stands in that role's place. */
  lemma {:induction false} SignatureForFindsRole(approvals: seq<Approval>, i: nat)
    requires i < |approvals|
    requires forall k, l :: 0 <= k < l < |approvals| ==> approvals[k].role != approvals[l].role
    ensures SignatureFor(approvals, approvals[i].role) == approvals[i].signature
  {
    if i == 0 {
    } else {
      assert approvals[0].role != approvals[i].role;
      SignatureForFindsRole(approvals[1..], i - 1);
    }
  }

  lemma {:induction false} SignatureForMissingRole(approvals: seq<Approval>, role: Role)
    requires forall k :: 0 <= k < |approvals| ==> approvals[k].role != role
    ensures SignatureFor(approvals, role) == [0, 0]
  {
    if approvals == [] {
    } else {
      SignatureForMissingRole(approvals[1..], role);
    }
  }

  /**
   Sharing a single approval is enough: two authorized operations that both use it are the same
   account, mode, terms, signers, deadline, chain, pool and action list, or an explicit pair of
   inputs is a Poseidon collision.
   */
  lemma ApprovalAuthorizesOneOperation(
      p: Primitives,
      op: Prepared, key: int, approvals: seq<Approval>, actions: seq<Action>, i: nat,
      op': Prepared, key': int, approvals': seq<Approval>, actions': seq<Action>, i': nat)
    requires Authorized(p, op, key, approvals) && Acceptable(p, op, key, actions)
    requires Authorized(p, op', key', approvals') && Acceptable(p, op', key', actions')
    requires i < |approvals| && i' < |approvals'| && approvals[i] == approvals'[i']
    ensures var (a, a') := (op.agreement, op'.agreement);
      var (inner, inner') := (op.invocation.calldata[4..], op'.invocation.calldata[4..]);
      || Collision(p, DigestPreimage(p, a, op.mode, inner), DigestPreimage(p, a', op'.mode, inner'))
      || Collision(p, inner, inner')
      || Collision(p, CommitmentPreimage(a), CommitmentPreimage(a'))
      || (&& a' == a.(escrowClassHash := a'.escrowClassHash) && op.mode == op'.mode
          && key == key' && actions == actions')
  {
    var inner, inner' := op.invocation.calldata[4..], op'.invocation.calldata[4..];
    DigestBindsOperation(p, op.agreement, op.mode, inner, op'.agreement, op'.mode, inner');
    if inner == inner' {
      assert SerializeAll(actions) == inner[3..] == SerializeAll(actions');
      SerializeAllInjective(actions, actions');
      assert key == inner[1] == inner'[1] == key';
    }
  }
}
