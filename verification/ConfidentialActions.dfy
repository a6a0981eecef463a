/**
 The private actions of a confidential escrow operation and their flat wire form.
 An operation is a stream of field elements; every action is a tag followed by a
 number of fields that the tag fixes.
 */
module ConfidentialActions {
  import opened Wrappers

  datatype Action =
    | SetViewingKey(entropy: nat)
    | OpenChannel(recipient: nat, c0: nat, c1: nat, c2: nat)
    | OpenSubchannel(recipient: nat, s0: nat, s1: nat, s2: nat, token: nat, s3: nat)
    | CreateNote(recipient: nat, n0: nat, token: nat, amount: nat, n1: nat, n2: nat)
    | UseNote(u0: nat, token: nat, u1: nat)
    | ComputeAndInvoke(target: nat, computeLength: nat, key: nat, mode: nat, invokeLength: nat)

  function Serialize(a: Action): (s: seq<nat>) {
    match a
    case SetViewingKey(e) => [0, e]
    case OpenChannel(r, c0, c1, c2) => [1, r, c0, c1, c2]
    case OpenSubchannel(r, s0, s1, s2, t, s3) => [2, r, s0, s1, s2, t, s3]
    case CreateNote(r, n0, t, v, n1, n2) => [3, r, n0, t, v, n1, n2]
    case UseNote(u0, t, u1) => [6, u0, t, u1]
    case ComputeAndInvoke(t, n, k, m, e) => [9, t, n, k, m, e]
  }

  function SerializeAll(actions: seq<Action>): (s: seq<nat>) {
    if actions == [] then [] else Serialize(actions[0]) + SerializeAll(actions[1..])
  }

  /** The number of fields after each tag; None for a tag outside the policy. */
  function Arity(tag: nat): Option<nat> {
    match tag
    case 0 => Some(1)
    case 1 => Some(4)
    case 2 => Some(6)
    case 3 => Some(6)
    case 6 => Some(3)
    case 9 => Some(5)
    case _ => None
  }

  /** Reads the action that starts at index `at` of a stream. */
  function DecodeAt(data: seq<nat>, at: nat): (r: Option<Action>)
    ensures r.Some? ==> 0 < |Serialize(r.value)| && at + |Serialize(r.value)| <= |data|
  {
    if at >= |data| || Arity(data[at]).None? || |data| - at < 1 + Arity(data[at]).value then None
    else match data[at]
      case 0 => Some(SetViewingKey(data[at + 1]))
      case 1 => Some(OpenChannel(data[at + 1], data[at + 2], data[at + 3], data[at + 4]))
      case 2 =>
        Some(OpenSubchannel(data[at + 1], data[at + 2], data[at + 3], data[at + 4], data[at + 5], data[at + 6]))
      case 3 => Some(CreateNote(data[at + 1], data[at + 2], data[at + 3], data[at + 4], data[at + 5], data[at + 6]))
      case 6 => Some(UseNote(data[at + 1], data[at + 2], data[at + 3]))
      case _ => Some(ComputeAndInvoke(data[at + 1], data[at + 2], data[at + 3], data[at + 4], data[at + 5]))
  }

  /** Reads exactly `count` actions from index `at` on, using up the whole stream. */
  function DecodeAll(data: seq<nat>, at: nat, count: nat): (r: Option<seq<Action>>)
    decreases count
  {
    if count == 0 then if at == |data| then Some([]) else None
    else
      var head := DecodeAt(data, at);
      if head.None? then None
      else Prepend([head.value], DecodeAll(data, at + |Serialize(head.value)|, count - 1))
  }

  function Prepend(done: seq<Action>, rest: Option<seq<Action>>): Option<seq<Action>> {
    if rest.None? then None else Some(done + rest.value)
  }

  lemma DecodeAtInvertsSerialize(data: seq<nat>, at: nat, a: Action)
    requires at <= |data|
    ensures DecodeAt(data, at) == Some(a) <==> Serialize(a) <= data[at..]
  {
    if Serialize(a) <= data[at..] {
      assert forall k :: 0 <= k < |Serialize(a)| ==> data[at + k] == data[at..][k] == Serialize(a)[k];
      match a { case SetViewingKey(_) => case _ => }
    }
  }

  lemma SplitAt(data: seq<nat>, at: nat, head: seq<nat>, tail: seq<nat>)
    requires at <= |data|
    ensures data[at..] == head + tail <==>
      head <= data[at..] && at + |head| <= |data| && data[at + |head|..] == tail
  {
    if data[at..] == head + tail {
      assert data[at + |head|..] == data[at..][|head|..];
    } else if head <= data[at..] {
      assert data[at..] == head + data[at..][|head|..];
    }
  }

  /** Decoding is exactly the inverse of serializing: sound, complete and unique. */
  lemma {:induction false} DecodeAllInvertsSerialize(data: seq<nat>, at: nat, actions: seq<Action>)
    requires at <= |data|
    ensures DecodeAll(data, at, |actions|) == Some(actions) <==> data[at..] == SerializeAll(actions)
    decreases |actions|
  {
    hide DecodeAt, Serialize;
    if actions == [] {
    } else {
      var a, rest, head := actions[0], actions[1..], DecodeAt(data, at);
      assert actions == [a] + rest;
      DecodeAtInvertsSerialize(data, at, a);
      SplitAt(data, at, Serialize(a), SerializeAll(rest));
      if head == Some(a) {
        DecodeAllInvertsSerialize(data, at + |Serialize(a)|, rest);
        PrependOne(a, DecodeAll(data, at + |Serialize(a)|, |rest|), a, rest);
      } else if head.Some? {
        PrependOne(head.value, DecodeAll(data, at + |Serialize(head.value)|, |rest|), a, rest);
      }
    }
  }

  lemma PrependOne(head: Action, tail: Option<seq<Action>>, a: Action, rest: seq<Action>)
    ensures Prepend([head], tail) == Some([a] + rest) <==> head == a && tail == Some(rest)
  {
    if tail.Some? && [head] + tail.value == [a] + rest {
      assert head == ([head] + tail.value)[0] == a;
      assert tail.value == ([head] + tail.value)[1..] == rest;
    }
  }

  lemma {:induction false} DecodeAllLength(data: seq<nat>, at: nat, count: nat)
    ensures DecodeAll(data, at, count).Some? ==> |DecodeAll(data, at, count).value| == count
    decreases count
  {
    hide DecodeAt, Serialize;
    var head := DecodeAt(data, at);
    if count != 0 && head.Some? {
      DecodeAllLength(data, at + |Serialize(head.value)|, count - 1);
    }
  }

  /** No stream has two readings, whatever their lengths. */
  lemma {:induction false} SerializeAllInjective(left: seq<Action>, right: seq<Action>)
    requires SerializeAll(left) == SerializeAll(right)
    ensures left == right
  {
    var data := SerializeAll(left);
    if left != [] && right != [] {
      DecodeAtInvertsSerialize(data, 0, left[0]);
      DecodeAtInvertsSerialize(data, 0, right[0]);
      var n := |Serialize(left[0])|;
      assert data[n..] == SerializeAll(left[1..]) == SerializeAll(right[1..]);
      SerializeAllInjective(left[1..], right[1..]);
      assert left == [left[0]] + left[1..] == [right[0]] + right[1..] == right;
    }
  }
}
