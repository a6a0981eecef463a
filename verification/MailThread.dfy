/**
 Assembling a conversation: a message sent from this device and its copy found on chain are shown
 once, and every reply comes after what it answers whenever that is possible.
 */
module MailThread {
  import opened Wrappers

  type Doc = nat

  /** `sent` says that this device has its own copy; `evidence` is where the chain has it. */
  datatype Message = Message(
    id: nat, document: Option<Doc>, replyTo: Option<Doc>, conversation: nat, sent: bool, evidence: Option<nat>)

  // ---------- showing sent and chain copies once ----------

  /** `observed` counts the chain copies that each slot stands for. */
  datatype Collapsed = Collapsed(slots: seq<Message>, positions: map<Doc, nat>, observed: seq<nat>)

  function MergeCopies(existing: Message, message: Message): Message {
    var sent, chain := if existing.sent then existing else message, if existing.sent then message else existing;
    sent.(sent := true, evidence := if chain.evidence.Some? then chain.evidence else sent.evidence)
  }

  predicate WellFormed(c: Collapsed) {
    && |c.observed| == |c.slots|
    && forall d :: d in c.positions ==> c.positions[d] < |c.slots| && c.slots[c.positions[d]].document == Some(d)
  }

  function Push(c: Collapsed, m: Message): Collapsed {
    Collapsed(c.slots + [m],
              if m.document.Some? && m.document.value !in c.positions then c.positions[m.document.value := |c.slots|]
              else c.positions,
              c.observed + [if m.sent then 0 else 1])
  }

  function Place(c: Collapsed, m: Message): Collapsed
    requires WellFormed(c)
  {
    if m.document.None? || m.document.value !in c.positions then Push(c, m)
    else
      var at := c.positions[m.document.value];
      if c.slots[at].sent == m.sent then Push(c, m)
      else Collapsed(c.slots[at := MergeCopies(c.slots[at], m)], c.positions,
                     c.observed[at := c.observed[at] + (if m.sent then 0 else 1)])
  }

  function CollapseAll(messages: seq<Message>): (c: Collapsed)
    ensures WellFormed(c)
  {
    if messages == [] then Collapsed([], map[], [])
    else Place(CollapseAll(messages[..|messages| - 1]), messages[|messages| - 1])
  }

  method CollapseSelfMailCopies(messages: seq<Message>) returns (collapsed: seq<Message>)
    ensures collapsed == CollapseAll(messages).slots
  {
    collapsed := [];
    var positions: map<Doc, nat> := map[];
    for i := 0 to |messages|
      invariant collapsed == CollapseAll(messages[..i]).slots && positions == CollapseAll(messages[..i]).positions
    {
      var message := messages[i];
      assert messages[..i + 1][..i] == messages[..i];
      if message.document.None? || message.document.value !in positions {
        collapsed := collapsed + [message];
        if message.document.Some? {
          positions := positions[message.document.value := |collapsed| - 1];
        }
      } else {
        var at := positions[message.document.value];
        if collapsed[at].sent == message.sent {
          collapsed := collapsed + [message];
        } else {
          collapsed := collapsed[at := MergeCopies(collapsed[at], message)];
        }
      }
    }
    assert messages[..|messages|] == messages;
  }

  function SentId(m: Message): multiset<nat> {
    if m.sent then multiset{m.id} else multiset{}
  }

  function SentIds(messages: seq<Message>): multiset<nat> {
    if messages == [] then multiset{}
    else SentIds(messages[..|messages| - 1]) + SentId(messages[|messages| - 1])
  }

  lemma {:induction false} SentIdsAt(slots: seq<Message>, at: nat, m: Message)
    requires at < |slots|
    ensures SentIds(slots[at := m]) + SentId(slots[at]) == SentIds(slots) + SentId(m)
  {
    hide SentId;
    var last, updated := |slots| - 1, slots[at := m];
    assert SentIds(slots) == SentIds(slots[..last]) + SentId(slots[last]);
    assert SentIds(updated) == SentIds(updated[..last]) + SentId(updated[last]);
    if at < last {
      SentIdsAt(slots[..last], at, m);
      assert updated[..last] == slots[..last][at := m];
      var before, after, end := SentIds(slots[..last]), SentIds(updated[..last]), SentId(slots[last]);
      assert (after + end) + SentId(slots[at]) == (after + SentId(slots[at])) + end == (before + end) + SentId(m);
    } else {
      assert updated[..last] == slots[..last];
    }
  }

  lemma PlaceAddsSentId(c: Collapsed, m: Message)
    requires WellFormed(c)
    ensures SentIds(Place(c, m).slots) == SentIds(c.slots) + SentId(m)
  {
    hide SentIds;
    if m.document.None? || m.document.value !in c.positions || c.slots[c.positions[m.document.value]].sent == m.sent {
      SentIdsPush(c.slots, m);
    } else {
      var at := c.positions[m.document.value];
      SentIdsAt(c.slots, at, MergeCopies(c.slots[at], m));
      Cancel(SentIds(Place(c, m).slots), SentIds(c.slots) + SentId(m), SentId(c.slots[at]));
    }
  }

  lemma Cancel(a: multiset<nat>, b: multiset<nat>, c: multiset<nat>)
    requires a + c == b + c
    ensures a == b
  {
    assert a == (a + c) - c && b == (b + c) - c;
  }

  lemma SentIdsPush(slots: seq<Message>, m: Message)
    ensures SentIds(slots + [m]) == SentIds(slots) + SentId(m)
  {
    assert (slots + [m])[..|slots|] == slots;
  }

  /** Nothing sent from this device is ever lost or doubled: each sent copy keeps its own place. */
  lemma {:induction false} CollapseKeepsSentCopies(messages: seq<Message>)
    ensures SentIds(CollapseAll(messages).slots) == SentIds(messages)
  {
    hide Place, SentId;
    if messages == [] {
    } else {
      var front, m := messages[..|messages| - 1], messages[|messages| - 1];
      CollapseKeepsSentCopies(front);
      PlaceAddsSentId(CollapseAll(front), m);
    }
  }

  // ---------- how many chain copies one slot can swallow ----------

  ghost predicate Carries(messages: seq<Message>, i: int, d: Doc) {
    0 <= i < |messages| && messages[i].document == Some(d)
  }

  ghost predicate SentBefore(messages: seq<Message>, i: nat, d: Doc) {
    exists j :: 0 <= j < i && Carries(messages, j, d) && messages[j].sent
  }

  ghost predicate FirstCarrier(messages: seq<Message>, i: nat, d: Doc) {
    Carries(messages, i, d) && forall j :: 0 <= j < i ==> !Carries(messages, j, d)
  }

  /** A chain copy joins its document's slot when it opens the slot or finds a sent copy there. */
  ghost predicate Joins(messages: seq<Message>, i: nat, d: Doc) {
    Carries(messages, i, d) && !messages[i].sent && (FirstCarrier(messages, i, d) || SentBefore(messages, i, d))
  }

  ghost function Joiners(messages: seq<Message>, d: Doc): set<nat> {
    set i | 0 <= i < |messages| && Joins(messages, i, d)
  }

  lemma JoinersStep(front: seq<Message>, m: Message, d: Doc)
    ensures var all, n := front + [m], |front|;
      Joiners(all, d) == Joiners(front, d) + (if Joins(all, n, d) then {n} else {})
    ensures SentBefore(front + [m], |front|, d) == SentBefore(front, |front|, d)
    ensures FirstCarrier(front + [m], |front|, d) <==>
      m.document == Some(d) && forall j :: 0 <= j < |front| ==> !Carries(front, j, d)
  {
    var all, n := front + [m], |front|;
    assert forall j :: 0 <= j < n ==> all[j] == front[j];
    assert forall j :: 0 <= j < n ==> (Carries(all, j, d) <==> Carries(front, j, d));
    forall i | 0 <= i < n
      ensures Joins(all, i, d) <==> Joins(front, i, d)
    {
      assert SentBefore(all, i, d) <==> SentBefore(front, i, d);
    }
  }

  /** No document's copies are collected at this place. */
  ghost predicate Unplaced(c: Collapsed, at: nat) {
    forall d :: d in c.positions ==> c.positions[d] != at
  }

  /** The document's slot holds a sent copy once one has come, and counts exactly its joiners. */
  ghost predicate Counted(messages: seq<Message>, c: Collapsed) {
    && WellFormed(c)
    && (forall d :: d in c.positions <==> exists i :: Carries(messages, i, d))
    && (forall d :: d in c.positions ==>
          && (c.slots[c.positions[d]].sent <==> SentBefore(messages, |messages|, d))
          && c.observed[c.positions[d]] == |Joiners(messages, d)|)
    && (forall at :: 0 <= at < |c.slots| && Unplaced(c, at) ==> c.observed[at] <= 1)
  }

  lemma JoinersOf(front: seq<Message>, c: Collapsed, m: Message, d: Doc)
    requires Counted(front, c)
    ensures m.document != Some(d) ==> Joiners(front + [m], d) == Joiners(front, d)
    ensures m.document == Some(d) && d !in c.positions ==> |Joiners(front + [m], d)| == if m.sent then 0 else 1
    ensures m.document == Some(d) && d in c.positions ==>
      |Joiners(front + [m], d)| == |Joiners(front, d)| + (if !m.sent && c.slots[c.positions[d]].sent then 1 else 0)
    ensures SentBefore(front + [m], |front| + 1, d) <==>
      (m.document == Some(d) && m.sent) || (d in c.positions && c.slots[c.positions[d]].sent)
  {
    hide Joiners;
    JoinersStep(front, m, d);
    NotYetJoined(front, d);
    var all, n := front + [m], |front|;
    assert SentBefore(all, n + 1, d) <==> SentBefore(all, n, d) || (Carries(all, n, d) && m.sent);
    if d !in c.positions {
      assert forall j :: 0 <= j < n ==> !Carries(front, j, d);
      assert !SentBefore(front, n, d);
      NoJoiners(front, d);
    }
  }

  lemma NotYetJoined(front: seq<Message>, d: Doc)
    ensures |front| !in Joiners(front, d)
  {
  }

  lemma NoJoiners(front: seq<Message>, d: Doc)
    requires forall j :: 0 <= j < |front| ==> !Carries(front, j, d)
    ensures Joiners(front, d) == {}
  {
  }

  lemma PlaceKeepsPositions(front: seq<Message>, c: Collapsed, m: Message, d: Doc)
    requires Counted(front, c)
    ensures d in Place(c, m).positions <==> exists i :: Carries(front + [m], i, d)
  {
    hide Joiners, SentBefore, Carries;
    CarriersOf(front, m, d);
  }

  lemma PlaceKeepsCounts(front: seq<Message>, c: Collapsed, m: Message, d: Doc)
    requires Counted(front, c) && d in Place(c, m).positions
    ensures var next := Place(c, m);
      && (next.slots[next.positions[d]].sent <==> SentBefore(front + [m], |front| + 1, d))
      && next.observed[next.positions[d]] == |Joiners(front + [m], d)|
  {
    hide Joiners, SentBefore, Carries;
    JoinersOf(front, c, m, d);
    if d in c.positions {
      assert c.slots[c.positions[d]].document == Some(d);
    }
  }

  lemma PlaceKeepsOthers(front: seq<Message>, c: Collapsed, m: Message, at: nat)
    requires Counted(front, c) && at < |Place(c, m).slots|
    requires forall d :: d in Place(c, m).positions ==> Place(c, m).positions[d] != at
    ensures Place(c, m).observed[at] <= 1
  {
    hide Joiners, SentBefore, Carries;
    if at < |c.slots| {
      forall d | d in c.positions
        ensures c.positions[d] != at
      {
        assert Place(c, m).positions[d] == c.positions[d];
      }
    }
  }

  lemma PlaceIsWellFormed(c: Collapsed, m: Message)
    requires WellFormed(c)
    ensures WellFormed(Place(c, m))
  {
  }

  lemma PlaceKeepsCounted(front: seq<Message>, c: Collapsed, m: Message)
    requires Counted(front, c)
    ensures Counted(front + [m], Place(c, m))
  {
    PlaceIsWellFormed(c, m);
    forall d
      ensures d in Place(c, m).positions <==> exists i :: Carries(front + [m], i, d)
    {
      PlaceKeepsPositions(front, c, m, d);
    }
    forall d | d in Place(c, m).positions
      ensures Place(c, m).slots[Place(c, m).positions[d]].sent <==> SentBefore(front + [m], |front + [m]|, d)
      ensures Place(c, m).observed[Place(c, m).positions[d]] == |Joiners(front + [m], d)|
    {
      PlaceKeepsCounts(front, c, m, d);
    }
    forall at | 0 <= at < |Place(c, m).slots| && Unplaced(Place(c, m), at)
      ensures Place(c, m).observed[at] <= 1
    {
      PlaceKeepsOthers(front, c, m, at);
    }
    hide Joiners, SentBefore, Carries, Place, WellFormed;
  }

  lemma CarriersOf(front: seq<Message>, m: Message, d: Doc)
    ensures (exists i :: Carries(front + [m], i, d)) <==> (exists i :: Carries(front, i, d)) || m.document == Some(d)
  {
    var all := front + [m];
    if i :| Carries(front, i, d) {
      assert Carries(all, i, d);
    }
    if m.document == Some(d) {
      assert Carries(all, |front|, d);
    }
    if i :| Carries(all, i, d) {
      assert i < |front| ==> Carries(front, i, d);
    }
  }

  lemma {:induction false} CollapseIsCounted(messages: seq<Message>)
    ensures Counted(messages, CollapseAll(messages))
  {
    if messages == [] {
    } else {
      var front, m := messages[..|messages| - 1], messages[|messages| - 1];
      CollapseIsCounted(front);
      PlaceKeepsCounted(front, CollapseAll(front), m);
      assert messages == front + [m];
    }
  }

  /**
   Two independently observed chain copies keep separate places exactly when no document has two
   that either open its slot or arrive after a sent copy of it.
   */
  lemma SeparateExactlyWhen(messages: seq<Message>)
    ensures var c := CollapseAll(messages);
      (forall at :: 0 <= at < |c.observed| ==> c.observed[at] <= 1) <==> forall d :: |Joiners(messages, d)| <= 1
  {
    hide Joiners;
    CollapseIsCounted(messages);
    var c := CollapseAll(messages);
    forall d | d !in c.positions
      ensures |Joiners(messages, d)| == 0
    {
      assert forall j :: 0 <= j < |messages| ==> !Carries(messages, j, d);
      NoJoiners(messages, d);
    }
    if forall d :: |Joiners(messages, d)| <= 1 {
      forall at | 0 <= at < |c.observed|
        ensures c.observed[at] <= 1
      {
        if d :| d in c.positions && c.positions[d] == at {
          assert |Joiners(messages, d)| <= 1;
        }
      }
    }
  }

  predicate Separate(c: Collapsed) {
    forall at :: 0 <= at < |c.observed| ==> c.observed[at] <= 1
  }

  /** Where the chain has a message is shown in a slot that stands for a chain copy. */
  ghost predicate Shown(c: Collapsed, m: Message)
    requires WellFormed(c)
  {
    !m.sent && m.evidence.Some? ==>
      exists at :: 0 <= at < |c.slots| && c.slots[at].evidence == m.evidence && c.observed[at] >= 1
  }

  lemma PlaceOnlyAdds(c: Collapsed, m: Message)
    requires WellFormed(c)
    ensures Separate(Place(c, m)) ==> Separate(c)
  {
    var next := Place(c, m);
    assert forall at :: 0 <= at < |c.observed| ==> c.observed[at] <= next.observed[at];
  }

  lemma PlaceKeepsShown(c: Collapsed, m: Message, earlier: Message)
    requires WellFormed(c) && Separate(Place(c, m)) && Shown(c, earlier)
    ensures WellFormed(Place(c, m)) && Shown(Place(c, m), earlier) && Shown(Place(c, m), m)
  {
    var next := Place(c, m);
    PlaceIsWellFormed(c, m);
    if m.document.None? || m.document.value !in c.positions || c.slots[c.positions[m.document.value]].sent == m.sent {
      var last := |c.slots|;
      assert next.slots[last] == m && next.observed[last] == if m.sent then 0 else 1;
      assert forall at :: 0 <= at < |c.slots| ==> next.slots[at] == c.slots[at] && next.observed[at] == c.observed[at];
    } else {
      var at := c.positions[m.document.value];
      assert next.observed[at] <= 1;
      assert !m.sent ==> c.observed[at] == 0 && next.observed[at] == 1;
      assert !m.sent && m.evidence.Some? ==> next.slots[at].evidence == m.evidence;
      if !earlier.sent && earlier.evidence.Some? {
        var was :| 0 <= was < |c.slots| && c.slots[was].evidence == earlier.evidence && c.observed[was] >= 1;
        assert next.slots[was].evidence == earlier.evidence && next.observed[was] >= 1;
      }
    }
  }

  lemma {:induction false} SeparateShowsEverything(messages: seq<Message>, i: nat)
    requires i < |messages| && Separate(CollapseAll(messages))
    ensures Shown(CollapseAll(messages), messages[i])
  {
    hide Place, Separate, Shown;
    var front, m := messages[..|messages| - 1], messages[|messages| - 1];
    PlaceOnlyAdds(CollapseAll(front), m);
    if i < |front| {
      SeparateShowsEverything(front, i);
      PlaceKeepsShown(CollapseAll(front), m, messages[i]);
    } else {
      SentIsShown(CollapseAll(front), m);
      PlaceKeepsShown(CollapseAll(front), m, m.(sent := true));
    }
  }

  lemma SentIsShown(c: Collapsed, m: Message)
    requires WellFormed(c)
    ensures Shown(c, m.(sent := true))
  {
  }

  /** While chain copies keep separate places, none of them loses its place on the chain. */
  lemma NoEvidenceIsLost(messages: seq<Message>, i: nat)
    requires i < |messages| && !messages[i].sent && messages[i].evidence.Some?
    requires forall d :: |Joiners(messages, d)| <= 1
    ensures var slots := CollapseAll(messages).slots;
      exists at :: 0 <= at < |slots| && slots[at].evidence == messages[i].evidence
  {
    hide Joiners, CollapseAll;
    SeparateExactlyWhen(messages);
    SeparateShowsEverything(messages, i);
  }

  /** The order of arrival decides: a sent copy swallows every chain copy that comes after it. */
  lemma SentFirstSwallowsBoth(d: Doc, x: nat, y: nat)
    ensures var sent := Message(1, Some(d), None, 0, true, None);
      var chain := Message(2, Some(d), None, 0, false, Some(x));
      var other := Message(3, Some(d), None, 0, false, Some(y));
      && CollapseAll([chain, other, sent]).slots == [sent.(evidence := Some(x)), other]
      && CollapseAll([sent, chain, other]).slots == [sent.(evidence := Some(y))]
  {
    var sent := Message(1, Some(d), None, 0, true, None);
    var chain := Message(2, Some(d), None, 0, false, Some(x));
    var other := Message(3, Some(d), None, 0, false, Some(y));
    PlacedInTurn(chain, other, sent);
    PlacedInTurn(sent, chain, other);
  }

  lemma PlacedInTurn(a: Message, b: Message, m: Message)
    ensures CollapseAll([a, b, m]) == Place(Place(Place(Collapsed([], map[], []), a), b), m)
  {
    hide Place;
    assert [a, b, m][..2] == [a, b] && [a, b][..1] == [a] && [a][..0] == [];
    assert CollapseAll([a]) == Place(CollapseAll([]), a);
    assert CollapseAll([a, b]) == Place(CollapseAll([a]), b);
  }
}
