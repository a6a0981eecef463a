/** Ordering a conversation so that replies follow what they answer, with a fallback for cycles. */
module ThreadAssembly {
  import opened MailThread
  import opened Wrappers

  function DocumentOf(m: Message): set<Doc> {
    if m.document.Some? then {m.document.value} else {}
  }

  function Documents(messages: seq<Message>): set<Doc> {
    set m | m in messages && m.document.Some? :: m.document.value
  }

  predicate Ready(m: Message, documents: set<Doc>, emitted: set<Doc>) {
    m.replyTo.None? || m.replyTo.value !in documents || m.replyTo.value in emitted
  }

  function FirstReady(remaining: seq<Message>, documents: set<Doc>, emitted: set<Doc>): (index: nat)
    ensures index <= |remaining|
    ensures index < |remaining| ==> Ready(remaining[index], documents, emitted)
    ensures forall i :: 0 <= i < index ==> !Ready(remaining[i], documents, emitted)
  {
    if remaining == [] || Ready(remaining[0], documents, emitted) then 0
    else
      var rest := FirstReady(remaining[1..], documents, emitted);
      assert forall i :: 0 < i < 1 + rest ==> remaining[i] == remaining[1..][i - 1];
      1 + rest
  }

  /** The earliest message that may come next; the earliest of all when a cycle leaves none. */
  function NextIndex(remaining: seq<Message>, documents: set<Doc>, emitted: set<Doc>): (index: nat)
    requires remaining != []
    ensures index < |remaining|
  {
    var ready := FirstReady(remaining, documents, emitted);
    if ready == |remaining| then 0 else ready
  }

  function Without(messages: seq<Message>, index: nat): seq<Message>
    requires index < |messages|
  {
    messages[..index] + messages[index + 1..]
  }

  function Assemble(remaining: seq<Message>, documents: set<Doc>, emitted: set<Doc>): seq<Message>
    decreases |remaining|
  {
    if remaining == [] then []
    else
      var index := NextIndex(remaining, documents, emitted);
      [remaining[index]] + Assemble(Without(remaining, index), documents, emitted + DocumentOf(remaining[index]))
  }

  function AssembleAll(messages: seq<Message>): seq<Message> {
    Assemble(messages, Documents(messages), {})
  }

  function InConversation(newestFirst: seq<Message>, conversation: nat): seq<Message> {
    if newestFirst == [] then []
    else InConversation(newestFirst[1..], conversation)
         + (if newestFirst[0].conversation == conversation then [newestFirst[0]] else [])
  }

  function Find(messages: seq<Message>, id: nat): Option<Message> {
    if messages == [] then None else if messages[0].id == id then Some(messages[0]) else Find(messages[1..], id)
  }

  function Conversation(newestFirst: seq<Message>, selectedId: Option<nat>): seq<Message> {
    if selectedId.None? then []
    else match Find(newestFirst, selectedId.value)
      case None => []
      case Some(selected) => AssembleAll(CollapseAll(InConversation(newestFirst, selected.conversation)).slots)
  }

  method AssembleConversation(newestFirst: seq<Message>, selectedId: Option<nat>) returns (assembled: seq<Message>)
    ensures assembled == Conversation(newestFirst, selectedId)
  {
    hide Assemble, CollapseAll, NextIndex;
    assembled := [];
    if selectedId.None? { return; }
    var selected := Find(newestFirst, selectedId.value);
    if selected.None? { return; }
    var chronological := Chronological(newestFirst, selected.value.conversation);
    var remaining := CollapseSelfMailCopies(chronological);
    var documents := Documents(remaining);
    var emitted: set<Doc> := {};
    ghost var all := Assemble(remaining, documents, {});
    while remaining != []
      invariant all == assembled + Assemble(remaining, documents, emitted)
      decreases |remaining|
    {
      var index := NextIndex(remaining, documents, emitted);
      var message := remaining[index];
      AssembleStep(remaining, documents, emitted);
      assert assembled + ([message] + Assemble(Without(remaining, index), documents, emitted + DocumentOf(message)))
          == (assembled + [message]) + Assemble(Without(remaining, index), documents, emitted + DocumentOf(message));
      remaining := Without(remaining, index);
      assembled := assembled + [message];
      emitted := emitted + DocumentOf(message);
    }
    AssembleNothing(documents, emitted);
    assert assembled + [] == assembled;
  }

  lemma AssembleStep(remaining: seq<Message>, documents: set<Doc>, emitted: set<Doc>)
    requires remaining != []
    ensures var index := NextIndex(remaining, documents, emitted);
      Assemble(remaining, documents, emitted)
      == [remaining[index]] + Assemble(Without(remaining, index), documents, emitted + DocumentOf(remaining[index]))
  {
  }

  lemma AssembleNothing(documents: set<Doc>, emitted: set<Doc>)
    ensures Assemble([], documents, emitted) == []
  {
  }

  method Chronological(newestFirst: seq<Message>, conversation: nat) returns (oldestFirst: seq<Message>)
    ensures oldestFirst == InConversation(newestFirst, conversation)
  {
    oldestFirst := [];
    var index := |newestFirst|;
    while index > 0
      invariant 0 <= index <= |newestFirst| && oldestFirst == InConversation(newestFirst[index..], conversation)
    {
      index := index - 1;
      assert newestFirst[index..][1..] == newestFirst[index + 1..];
      if newestFirst[index].conversation == conversation {
        oldestFirst := oldestFirst + [newestFirst[index]];
      }
    }
    assert newestFirst[0..] == newestFirst;
  }

  // ---------- nothing is lost ----------

  lemma {:induction false} AssemblePermutes(remaining: seq<Message>, documents: set<Doc>, emitted: set<Doc>)
    ensures multiset(Assemble(remaining, documents, emitted)) == multiset(remaining)
    decreases |remaining|
  {
    hide NextIndex;
    if remaining == [] {
    } else {
      var index := NextIndex(remaining, documents, emitted);
      AssemblePermutes(Without(remaining, index), documents, emitted + DocumentOf(remaining[index]));
      assert remaining == remaining[..index] + [remaining[index]] + remaining[index + 1..];
    }
  }

  // ---------- replies follow what they answer ----------

  /** Each message in turn finds its parent already emitted, or not in the conversation at all. */
  predicate Ordered(messages: seq<Message>, documents: set<Doc>, emitted: set<Doc>) {
    messages == []
    || (Ready(messages[0], documents, emitted) && Ordered(messages[1..], documents, emitted + DocumentOf(messages[0])))
  }

  ghost predicate RespectsReplies(messages: seq<Message>) {
    forall i :: 0 <= i < |messages| && messages[i].replyTo.Some? && messages[i].replyTo.value in Documents(messages) ==>
      exists j :: 0 <= j < i && messages[j].document == messages[i].replyTo
  }

  lemma {:induction false} OrderedMeans(messages: seq<Message>, documents: set<Doc>, emitted: set<Doc>)
    ensures Ordered(messages, documents, emitted) <==>
      forall i :: 0 <= i < |messages| ==>
        Ready(messages[i], documents, emitted) || exists j :: 0 <= j < i && messages[j].document == messages[i].replyTo
  {
    if messages == [] {
    } else {
      var rest, more := messages[1..], emitted + DocumentOf(messages[0]);
      OrderedMeans(rest, documents, more);
      assert messages == [messages[0]] + rest;
      if Ordered(messages, documents, emitted) {
        forall i | 0 <= i < |messages|
          ensures Ready(messages[i], documents, emitted) ||
            exists j :: 0 <= j < i && messages[j].document == messages[i].replyTo
        {
          if i > 0 {
            assert rest[i - 1] == messages[i];
            if j :| 0 <= j < i - 1 && rest[j].document == rest[i - 1].replyTo {
              assert messages[j + 1].document == messages[i].replyTo;
            } else {
              assert Ready(messages[i], documents, emitted) || messages[0].document == messages[i].replyTo;
            }
          }
        }
      }
      if forall i :: 0 <= i < |messages| ==>
           Ready(messages[i], documents, emitted) ||
           exists j :: 0 <= j < i && messages[j].document == messages[i].replyTo {
        forall i | 0 <= i < |rest|
          ensures Ready(rest[i], documents, more) || exists j :: 0 <= j < i && rest[j].document == rest[i].replyTo
        {
          assert messages[i + 1] == rest[i];
          if j :| 0 <= j < i + 1 && messages[j].document == messages[i + 1].replyTo {
            assert j > 0 ==> rest[j - 1].document == rest[i].replyTo;
          }
        }
      }
    }
  }

  lemma OrderedIsRespectful(messages: seq<Message>)
    ensures RespectsReplies(messages) <==> Ordered(messages, Documents(messages), {})
  {
    OrderedMeans(messages, Documents(messages), {});
  }

  lemma {:induction false} OrderedGrows(messages: seq<Message>, documents: set<Doc>, emitted: set<Doc>, more: set<Doc>)
    requires Ordered(messages, documents, emitted) && emitted <= more
    ensures Ordered(messages, documents, more)
  {
    if messages == [] {
    } else {
      OrderedGrows(messages[1..], documents, emitted + DocumentOf(messages[0]), more + DocumentOf(messages[0]));
    }
  }

  /** A message that is emitted early can be taken out of any good order of the rest. */
  lemma {:induction false} OrderedWithout(messages: seq<Message>, documents: set<Doc>, emitted: set<Doc>, k: nat)
    requires k < |messages| && Ordered(messages, documents, emitted)
    ensures Ordered(Without(messages, k), documents, emitted + DocumentOf(messages[k]))
  {
    var rest := Without(messages, k);
    if k == 0 {
      assert rest == messages[1..];
    } else {
      var tail, more := messages[1..], emitted + DocumentOf(messages[0]);
      OrderedWithout(tail, documents, more, k - 1);
      assert rest[1..] == Without(tail, k - 1) && rest[0] == messages[0] && tail[k - 1] == messages[k];
      assert more + DocumentOf(messages[k]) == (emitted + DocumentOf(messages[k])) + DocumentOf(messages[0]);
    }
  }

  /** If any order of these messages is good, the assembled one is. */
  lemma {:induction false} AssembledIsOrdered(remaining: seq<Message>, other: seq<Message>, documents: set<Doc>,
                                              emitted: set<Doc>)
    requires multiset(other) == multiset(remaining) && Ordered(other, documents, emitted)
    ensures Ordered(Assemble(remaining, documents, emitted), documents, emitted)
    decreases |remaining|
  {
    if remaining == [] {
    } else {
      assert |other| == |multiset(other)| == |remaining|;
      assert other[0] in multiset(remaining);
      var first :| 0 <= first < |remaining| && remaining[first] == other[0];
      var index := NextIndex(remaining, documents, emitted);
      var x := remaining[index];
      assert Ready(x, documents, emitted);
      assert x in multiset(other);
      var k :| 0 <= k < |other| && other[k] == x;
      OrderedWithout(other, documents, emitted, k);
      SameWithout(remaining, index, other, k);
      AssembledIsOrdered(Without(remaining, index), Without(other, k), documents, emitted + DocumentOf(x));
      AssembleStep(remaining, documents, emitted);
    }
  }

  lemma SameWithout(a: seq<Message>, i: nat, b: seq<Message>, j: nat)
    requires multiset(a) == multiset(b) && i < |a| && j < |b| && a[i] == b[j]
    ensures multiset(Without(a, i)) == multiset(Without(b, j))
  {
    WithoutOne(a, i);
    WithoutOne(b, j);
  }

  lemma WithoutOne(a: seq<Message>, i: nat)
    requires i < |a|
    ensures multiset(Without(a, i)) == multiset(a) - multiset{a[i]}
  {
    assert a == a[..i] + [a[i]] + a[i + 1..];
  }

  lemma SameDocuments(a: seq<Message>, b: seq<Message>)
    requires multiset(a) == multiset(b)
    ensures Documents(a) == Documents(b)
  {
    assert forall m :: m in a <==> m in multiset(a);
    assert forall m :: m in b <==> m in multiset(b);
  }

  /** A chronological order that already respects replies is shown unchanged. */
  lemma {:induction false} OrderedStays(messages: seq<Message>, documents: set<Doc>, emitted: set<Doc>)
    requires Ordered(messages, documents, emitted)
    ensures Assemble(messages, documents, emitted) == messages
  {
    if messages == [] {
    } else {
      assert Without(messages, 0) == messages[1..];
      OrderedStays(messages[1..], documents, emitted + DocumentOf(messages[0]));
    }
  }

  /** Replies end up after their parents whenever some order of the messages manages it. */
  lemma RespectsRepliesWheneverPossible(messages: seq<Message>, other: seq<Message>)
    requires multiset(other) == multiset(messages) && RespectsReplies(other)
    ensures RespectsReplies(AssembleAll(messages))
    ensures RespectsReplies(messages) ==> AssembleAll(messages) == messages
  {
    var documents := Documents(messages);
    SameDocuments(messages, other);
    OrderedIsRespectful(other);
    AssembledIsOrdered(messages, other, documents, {});
    AssemblePermutes(messages, documents, {});
    SameDocuments(messages, AssembleAll(messages));
    OrderedIsRespectful(AssembleAll(messages));
    OrderedIsRespectful(messages);
    if RespectsReplies(messages) {
      OrderedStays(messages, documents, {});
    }
  }

  // ---------- cycles ----------

  /** A rank of documents such that each has a carrier whose own parent ranks lower. */
  ghost predicate Ranks(messages: seq<Message>, documents: set<Doc>, rank: map<Doc, nat>) {
    && rank.Keys == documents
    && forall d :: d in documents ==> exists m :: m in messages && Supports(m, d, documents, rank)
  }

  predicate Supports(m: Message, d: Doc, documents: set<Doc>, rank: map<Doc, nat>)
    requires rank.Keys == documents && d in documents
  {
    m.document == Some(d) && (m.replyTo.None? || m.replyTo.value !in documents || rank[m.replyTo.value] < rank[d])
  }

  ghost predicate Supported(remaining: seq<Message>, documents: set<Doc>, emitted: set<Doc>, rank: map<Doc, nat>) {
    && rank.Keys == documents
    && forall d :: d in documents && d !in emitted ==> exists m :: m in remaining && Supports(m, d, documents, rank)
  }

  lemma {:induction false} LowestRanked(open: set<Doc>, rank: map<Doc, nat>) returns (d: Doc)
    requires open != {} && open <= rank.Keys
    ensures d in open && forall e :: e in open ==> rank[d] <= rank[e]
  {
    var x :| x in open;
    if open == {x} {
      d := x;
    } else {
      var y := LowestRanked(open - {x}, rank);
      d := if rank[x] <= rank[y] then x else y;
      assert forall e :: e in open ==> e == x || e in open - {x};
    }
  }

  lemma SomeoneIsReady(remaining: seq<Message>, documents: set<Doc>, emitted: set<Doc>, rank: map<Doc, nat>)
    requires remaining != [] && Supported(remaining, documents, emitted, rank)
    ensures Ready(remaining[NextIndex(remaining, documents, emitted)], documents, emitted)
  {
    var open := documents - emitted;
    assert forall d :: d in documents ==> d in open || d in emitted;
    if open == {} {
      assert Ready(remaining[0], documents, emitted);
    } else {
      var d := LowestRanked(open, rank);
      var m :| m in remaining && Supports(m, d, documents, rank);
      assert Ready(m, documents, emitted);
      var i :| 0 <= i < |remaining| && remaining[i] == m;
    }
  }

  lemma {:induction false} RankedIsOrdered(remaining: seq<Message>, documents: set<Doc>, emitted: set<Doc>,
                                           rank: map<Doc, nat>)
    requires Supported(remaining, documents, emitted, rank)
    ensures Ordered(Assemble(remaining, documents, emitted), documents, emitted)
    decreases |remaining|
  {
    hide NextIndex, Ready, Supports;
    if remaining == [] {
    } else {
      SomeoneIsReady(remaining, documents, emitted, rank);
      var index := NextIndex(remaining, documents, emitted);
      var x, more := remaining[index], emitted + DocumentOf(remaining[index]);
      forall d | d in documents && d !in more
        ensures exists m :: m in Without(remaining, index) && Supports(m, d, documents, rank)
      {
        var m :| m in remaining && Supports(m, d, documents, rank);
        SupporterCarries(m, d, documents, rank);
        assert m != x;
      }
      RankedIsOrdered(Without(remaining, index), documents, more, rank);
    }
  }

  lemma SupporterCarries(m: Message, d: Doc, documents: set<Doc>, rank: map<Doc, nat>)
    requires rank.Keys == documents && d in documents && Supports(m, d, documents, rank)
    ensures m.document == Some(d)
  {
  }

  function FirstPlace(messages: seq<Message>, d: Doc): (i: nat)
    requires d in Documents(messages)
    ensures i < |messages| && messages[i].document == Some(d)
    ensures forall j :: 0 <= j < i ==> messages[j].document != Some(d)
  {
    if messages[0].document == Some(d) then 0
    else
      assert messages == [messages[0]] + messages[1..];
      1 + FirstPlace(messages[1..], d)
  }

  lemma RespectfulHasARank(messages: seq<Message>) returns (rank: map<Doc, nat>)
    requires RespectsReplies(messages)
    ensures Ranks(messages, Documents(messages), rank)
  {
    var documents := Documents(messages);
    rank := map d | d in documents :: FirstPlace(messages, d);
    forall d | d in documents
      ensures exists m :: m in messages && Supports(m, d, documents, rank)
    {
      var m := messages[FirstPlace(messages, d)];
      assert Supports(m, d, documents, rank);
    }
  }

  /**
   The fallback for cycles is never needed exactly when the documents can be ranked so that each has
   a carrier answering only a lower one; then every reply follows its parent.
   */
  lemma RespectsRepliesExactlyWhenRanked(messages: seq<Message>)
    ensures RespectsReplies(AssembleAll(messages)) <==> exists rank :: Ranks(messages, Documents(messages), rank)
  {
    var documents, all := Documents(messages), AssembleAll(messages);
    AssemblePermutes(messages, documents, {});
    SameDocuments(messages, all);
    if rank :| Ranks(messages, documents, rank) {
      RankedIsOrdered(messages, documents, {}, rank);
      OrderedIsRespectful(all);
    }
    if RespectsReplies(all) {
      var rank := RespectfulHasARank(all);
      assert forall m :: m in all ==> m in multiset(messages);
      assert Ranks(messages, documents, rank);
    }
  }
}
