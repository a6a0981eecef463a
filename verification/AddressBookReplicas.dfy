/** What merging in any order converges to, and how long a deletion keeps its label out. */
module AddressBookReplicas {
  import opened Collections
  import opened Wrappers
  import opened AddressBook
  import opened AddressBookMerge

  // ---------- merging many snapshots ----------

  function MergedAll(b: Book, snapshots: seq<Snapshot>): Result<Book, BookError> {
    if snapshots == [] then Success(b)
    else
      var before := MergedAll(b, snapshots[..|snapshots| - 1]);
      if before.Failure? then before else Merged(before.value, snapshots[|snapshots| - 1])
  }

  /** The same merges with no limit on the number of entries. */
  function Folded(b: Book, snapshots: seq<Snapshot>): Book {
    if snapshots == [] then b
    else MergedBook(Folded(b, snapshots[..|snapshots| - 1]), snapshots[|snapshots| - 1])
  }

  function TakeAll(slot: Slot, snapshots: seq<Snapshot>, l: Label): Slot {
    if snapshots == [] then slot
    else Take(TakeAll(slot, snapshots[..|snapshots| - 1], l), Offer(snapshots[|snapshots| - 1], l))
  }

  lemma {:induction false} FoldedAt(b: Book, snapshots: seq<Snapshot>, l: Label)
    ensures At(Folded(b, snapshots), l) == TakeAll(At(b, l), snapshots, l)
  {
    hide MergedBook, At, Take;
    if snapshots == [] {
    } else {
      FoldedAt(b, snapshots[..|snapshots| - 1], l);
      MergedAt(Folded(b, snapshots[..|snapshots| - 1]), snapshots[|snapshots| - 1], l);
    }
  }

  lemma MergeKeepsDisjoint(b: Book, s: Snapshot)
    requires b.entries.Keys !! b.tombstones.Keys
    ensures MergedBook(b, s).entries.Keys !! MergedBook(b, s).tombstones.Keys
    ensures MergedBook(b, s).tombstones.Keys <= b.tombstones.Keys
    ensures b.entries.Keys <= MergedBook(b, s).entries.Keys
  {
  }

  lemma MergedIsPlain(b: Book, s: Snapshot)
    requires Tidy(b)
    ensures Merged(b, s)
        == if |MergedBook(b, s).entries| > MAX_ENTRIES then Failure(Full) else Success(MergedBook(b, s))
    ensures |MergedBook(b, s).entries| <= MAX_ENTRIES ==> Tidy(MergedBook(b, s))
  {
    hide MergedBook, Settle;
    MergeKeepsDisjoint(b, s);
    SubsetSize(MergedBook(b, s).tombstones.Keys, b.tombstones.Keys);
    TidyIsSettled(MergedBook(b, s));
  }

  /** A chain of merges fails exactly when its final entry set is too large. */
  lemma {:induction false} MergedAllIsPlain(b: Book, snapshots: seq<Snapshot>)
    requires Tidy(b)
    ensures MergedAll(b, snapshots)
         == if |Folded(b, snapshots).entries| > MAX_ENTRIES then Failure(Full) else Success(Folded(b, snapshots))
    ensures |Folded(b, snapshots).entries| <= MAX_ENTRIES ==> Tidy(Folded(b, snapshots))
    ensures Folded(b, snapshots).entries.Keys !! Folded(b, snapshots).tombstones.Keys
  {
    hide MergedBook, Merged;
    if snapshots == [] {
    } else {
      var front, last := snapshots[..|snapshots| - 1], snapshots[|snapshots| - 1];
      MergedAllIsPlain(b, front);
      var before := Folded(b, front);
      MergeKeepsDisjoint(before, last);
      SubsetSize(before.entries.Keys, MergedBook(before, last).entries.Keys);
      if |before.entries| <= MAX_ENTRIES {
        MergedIsPlain(before, last);
      }
    }
  }

  // ---------- convergence ----------

  ghost predicate Offered(snapshots: seq<Snapshot>, l: Label, card: Card) {
    exists i :: 0 <= i < |snapshots| && Offer(snapshots[i], l) == Some(card)
  }

  /** The last word on a label: the start, when nothing offered is newer, or the newest card offered. */
  lemma {:induction false} NewestWins(slot: Slot, snapshots: seq<Snapshot>, l: Label)
    ensures var end := TakeAll(slot, snapshots, l);
      && (end == slot ==> forall card :: Offered(snapshots, l, card) ==> !Newer(slot, card))
      && (end != slot ==>
            && end.entry.Some? && end.deletion.None?
            && Offered(snapshots, l, end.entry.value) && Newer(slot, end.entry.value)
            && forall card :: Offered(snapshots, l, card) ==> card.updatedAt <= end.entry.value.updatedAt)
  {
    if snapshots == [] {
    } else {
      var front, last := snapshots[..|snapshots| - 1], snapshots[|snapshots| - 1];
      NewestWins(slot, front, l);
      var before, end := TakeAll(slot, front, l), TakeAll(slot, snapshots, l);
      forall card
        ensures Offered(snapshots, l, card) <==> Offered(front, l, card) || Offer(last, l) == Some(card)
      {
        if Offered(front, l, card) {
          var i :| 0 <= i < |front| && Offer(front[i], l) == Some(card);
          assert Offer(snapshots[i], l) == Some(card);
        }
        if Offer(last, l) == Some(card) {
          assert Offer(snapshots[|front|], l) == Some(card);
        }
      }
    }
  }

  /** No two snapshots offer different cards of one date that would be news to the book. */
  ghost predicate NoTies(b: Book, snapshots: seq<Snapshot>) {
    forall l, c, d :: (Offered(snapshots, l, c) && Offered(snapshots, l, d) && c.updatedAt == d.updatedAt
                       && Newer(At(b, l), c)) ==> c == d
  }

  lemma SameOffers(a: seq<Snapshot>, b: seq<Snapshot>, l: Label, card: Card)
    requires forall s :: s in a ==> s in b
    requires Offered(a, l, card)
    ensures Offered(b, l, card)
  {
    var i :| 0 <= i < |a| && Offer(a[i], l) == Some(card);
    assert a[i] in b;
  }

  /**
   Replicas converge: merging the same snapshots in any order, each any number of times, gives one
   book, or one refusal, as long as no two of them offer different news of the same date.
   */
  lemma ReplicasConverge(b: Book, first: seq<Snapshot>, second: seq<Snapshot>)
    requires Tidy(b) && NoTies(b, first)
    requires forall s :: s in first <==> s in second
    ensures MergedAll(b, first) == MergedAll(b, second)
  {
    hide Merged, MergedBook, At, Newer, Offered;
    forall l
      ensures At(Folded(b, first), l) == At(Folded(b, second), l)
    {
      var slot := At(b, l);
      FoldedAt(b, first, l);
      FoldedAt(b, second, l);
      NewestWins(slot, first, l);
      NewestWins(slot, second, l);
      forall card
        ensures Offered(first, l, card) <==> Offered(second, l, card)
      {
        if Offered(first, l, card) { SameOffers(first, second, l, card); }
        if Offered(second, l, card) { SameOffers(second, first, l, card); }
      }
    }
    SameBooks(Folded(b, first), Folded(b, second));
    MergedAllIsPlain(b, first);
    MergedAllIsPlain(b, second);
  }

  ghost predicate ConflictAt(b: Book, s: Snapshot, t: Snapshot, l: Label) {
    l in s && l in t && s[l] != t[l] && s[l].updatedAt == t[l].updatedAt && Newer(At(b, l), s[l])
  }

  ghost predicate Conflict(b: Book, s: Snapshot, t: Snapshot) {
    exists l :: ConflictAt(b, s, t, l)
  }

  /** The labels a snapshot has news of. */
  function News(b: Book, s: Snapshot): set<Label> {
    set l | l in s && Newer(At(b, l), s[l])
  }

  lemma TwoMergedLabels(b: Book, s: Snapshot, t: Snapshot)
    ensures Folded(b, [s, t]).entries.Keys == b.entries.Keys + News(b, s) + News(b, t)
  {
    hide MergedBook;
    var st := Folded(b, [s, t]);
    forall l
      ensures l in st.entries <==> l in b.entries || l in News(b, s) || l in News(b, t)
    {
      TwoAt(b, s, t, l);
      assert l in st.entries <==> At(st, l).entry.Some?;
    }
  }

  lemma TakesAgree(slot: Slot, c: Option<Card>, d: Option<Card>)
    ensures Take(Take(slot, c), d) == Take(Take(slot, d), c)
      <==> !(c.Some? && d.Some? && c != d && c.value.updatedAt == d.value.updatedAt && Newer(slot, c.value))
  {
  }

  lemma FoldsAgreeExactly(b: Book, s: Snapshot, t: Snapshot)
    ensures Folded(b, [s, t]) == Folded(b, [t, s]) <==> !Conflict(b, s, t)
  {
    hide Take, Newer, At, Folded;
    var st, ts := Folded(b, [s, t]), Folded(b, [t, s]);
    forall l
      ensures At(st, l) == At(ts, l) <==> !ConflictAt(b, s, t, l)
    {
      TwoAt(b, s, t, l);
      TwoAt(b, t, s, l);
      TakesAgree(At(b, l), Offer(s, l), Offer(t, l));
    }
    if !Conflict(b, s, t) {
      SameBooks(st, ts);
    }
  }

  /**
   Two merges commute exactly when they do not bring different news of the same date, or bring so
   much news that the book cannot hold it.
   */
  lemma {:induction false} MergesCommuteExactly(b: Book, s: Snapshot, t: Snapshot)
    requires Tidy(b)
    ensures MergedAll(b, [s, t]) == MergedAll(b, [t, s])
      <==> |b.entries.Keys + News(b, s) + News(b, t)| > MAX_ENTRIES || !Conflict(b, s, t)
  {
    hide MergedAll, Folded, News, Conflict;
    MergedAllIsPlain(b, [s, t]);
    MergedAllIsPlain(b, [t, s]);
    TwoMergedLabels(b, s, t);
    TwoMergedLabels(b, t, s);
    FoldsAgreeExactly(b, s, t);
    var st, ts := Folded(b, [s, t]), Folded(b, [t, s]);
    assert st.entries.Keys == ts.entries.Keys;
    assert |st.entries| == |st.entries.Keys| && |ts.entries| == |ts.entries.Keys|;
  }

  lemma TwoAt(b: Book, s: Snapshot, t: Snapshot, l: Label)
    ensures At(Folded(b, [s, t]), l) == Take(Take(At(b, l), Offer(s, l)), Offer(t, l))
  {
    hide MergedBook, At, Take;
    FoldedAt(b, [s, t], l);
    assert [s, t][..1] == [s] && [s][..0] == [];
    assert TakeAll(At(b, l), [s], l) == Take(At(b, l), Offer(s, l));
  }

  /** Combining two snapshots first and merging the result is the same as merging them in turn. */
  lemma MergeIsAssociative(b: Book, s: Snapshot, t: Snapshot)
    requires Tidy(b)
    ensures MergedAll(b, [Folded(EMPTY, [s, t]).entries]) == MergedAll(b, [s, t])
  {
    hide Merged, MergedBook, MergedAll;
    var combined := Folded(EMPTY, [s, t]).entries;
    forall l
      ensures At(Folded(b, [combined]), l) == At(Folded(b, [s, t]), l)
    {
      TwoAt(b, s, t, l);
      TwoAt(EMPTY, s, t, l);
      FoldedAt(b, [combined], l);
      var one: seq<Snapshot> := [combined];
      assert one[..0] == [];
      assert Offer(combined, l) == At(Folded(EMPTY, [s, t]), l).entry;
    }
    SameBooks(Folded(b, [combined]), Folded(b, [s, t]));
    MergedAllIsPlain(b, [combined]);
    MergedAllIsPlain(b, [s, t]);
  }

  // ---------- what one operation changes ----------

  lemma {:induction false} SettlesAsIs(entries: map<Label, Card>, t: map<Label, nat>, b: Book)
    requires Tidy(b) && t.Keys <= b.tombstones.Keys && t.Keys !! entries.Keys
    ensures Settle(Book(entries, t)) == Book(entries, t)
  {
    hide Settle;
    SubsetSize(t.Keys, b.tombstones.Keys);
    TidyIsSettled(Book(entries, t));
  }

  /** Saving sets its own label, forgetting any deletion of it, and touches no other. */
  lemma {:induction false} SaveChangesOneLabel(b: Book, key: Label, address: Address, now: nat, l: Label)
    requires Tidy(b) && Applied(b, Save(key, address, now)).Success?
    ensures At(Step(b, Save(key, address, now)), l)
        == if l == key then Slot(Some(Card(address, now)), None) else At(b, l)
  {
    hide Settle, Loadable, At, Tidy;
    SaveSettles(b, key, Card(address, now));
    SavedAt(b, key, Card(address, now), l);
  }

  lemma {:induction false} SaveSettles(b: Book, key: Label, card: Card)
    requires Tidy(b)
    ensures var saved := Book((b.entries - {key})[key := card], b.tombstones - {key}); Settle(saved) == saved
  {
    hide Settle;
    var entries, t := (b.entries - {key})[key := card], b.tombstones - {key};
    assert entries.Keys == b.entries.Keys - {key} + {key};
    assert t.Keys == b.tombstones.Keys - {key};
    SettlesAsIs(entries, t, b);
  }

  lemma SavedAt(b: Book, key: Label, card: Card, l: Label)
    ensures At(Book((b.entries - {key})[key := card], b.tombstones - {key}), l)
         == if l == key then Slot(Some(card), None) else At(b, l)
  {
  }

  /** Replacing leaves exactly the snapshot's entries, and the deletions of labels it does not list. */
  lemma {:induction false} ReplaceIsExact(b: Book, snapshot: seq<Entry>, now: nat, l: Label)
    requires Tidy(b) && Applied(b, Replace(snapshot, now)).Success?
    ensures var offered := Offer(MapOf(snapshot), l);
      At(Step(b, Replace(snapshot, now)), l)
        == if offered.Some? then Slot(offered, None) else Slot(None, At(b, l).deletion)
  {
    hide Settle, Loadable, MapOf, Sane;
    var entries, t := MapOf(snapshot), b.tombstones - MapOf(snapshot).Keys;
    assert t.Keys <= b.tombstones.Keys && t.Keys !! entries.Keys;
    SettlesAsIs(entries, t, b);
    ReplacedAt(b, entries, l);
  }

  lemma ReplacedAt(b: Book, entries: map<Label, Card>, l: Label)
    ensures At(Book(entries, b.tombstones - entries.Keys), l)
         == if l in entries then Slot(Some(entries[l]), None) else Slot(None, At(b, l).deletion)
  {
  }

  // ---------- a deletion holds ----------

  ghost predicate Guarded(b: Book, l: Label, d: nat) {
    l !in b.entries && l in b.tombstones && b.tombstones[l] >= d
  }

  function DeletedSince(b: Book, d: nat): set<Label> {
    set k | k in b.tombstones && b.tombstones[k] >= d
  }

  /** Two hundred labels deleted at or after `d`: only then can a tombstone of date `d` be missing. */
  ghost predicate Crowded(b: Book, d: nat) {
    |DeletedSince(b, d)| == MAX_TOMBSTONES
  }

  /** The operation brings nothing for this label that is newer than `d`. */
  predicate Spares(op: Op, l: Label, d: nat) {
    match op
    case Save(key, _, _) => key != l
    case Remove(key, _) => key != l
    case Replace(snapshot, _) => forall i :: 0 <= i < |snapshot| ==> snapshot[i].key != l
    case Merge(snapshot, _) =>
      forall i :: 0 <= i < |snapshot| && snapshot[i].key == l ==> snapshot[i].card.updatedAt <= d
  }

  lemma SettleGuards(b: Book, l: Label, d: nat)
    requires Guarded(b, l, d)
    ensures Guarded(Settle(b), l, d) || Crowded(Settle(b), d)
  {
    var t := b.tombstones - Alive(b.entries, b.tombstones).Keys;
    var kept := Evict(t);
    if l !in kept {
      if |t| <= MAX_TOMBSTONES { FewAreKept(t); }
      ManyAreCut(t);
      forall k | k in kept
        ensures kept[k] >= d
      {
        KeptOutranksDropped(t, k, l);
      }
      assert DeletedSince(Settle(b), d) == kept.Keys;
    }
  }

  lemma SparedStep(b: Book, op: Op, l: Label, d: nat)
    requires Tidy(b) && Guarded(b, l, d) && Spares(op, l, d)
    ensures Guarded(Step(b, op), l, d) || Crowded(Step(b, op), d)
  {
    hide Settle, MergedBook, Merged, Crowded;
    if Applied(b, op).Success? {
      match op
      case Save(key, address, now) =>
        SettleGuards(Book((b.entries - {key})[key := Card(address, now)], b.tombstones - {key}), l, d);
      case Remove(key, now) =>
        var others := b.tombstones - {key};
        SettleGuards(Book(b.entries - {key}, if key in b.entries then others[key := now] else others), l, d);
      case Replace(snapshot, now) =>
        MapOfKeys(snapshot);
        SettleGuards(Book(MapOf(snapshot), b.tombstones - MapOf(snapshot).Keys), l, d);
      case Merge(snapshot, now) =>
        MergedIsPlain(b, MapOf(snapshot));
        OldOffer(snapshot, now, l, d);
        MergedAt(b, MapOf(snapshot), l);
        assert At(MergedBook(b, MapOf(snapshot)), l) == At(b, l);
    }
  }

  lemma OldOffer(snapshot: seq<Entry>, now: nat, l: Label, d: nat)
    requires Sane(snapshot, now)
    requires forall i :: 0 <= i < |snapshot| && snapshot[i].key == l ==> snapshot[i].card.updatedAt <= d
    ensures l in MapOf(snapshot) ==> MapOf(snapshot)[l].updatedAt <= d
  {
    MapOfKeys(snapshot);
    if l in MapOf(snapshot) {
      var j :| 0 <= j < |snapshot| && snapshot[j].key == l;
      MapOfEntry(snapshot, now, snapshot[j]);
    }
  }

  lemma SaveKeepsTidy(b: Book, key: Label, card: Card)
    requires Tidy(b) && |b.entries - {key}| < MAX_ENTRIES
    ensures Tidy(Settle(Book((b.entries - {key})[key := card], b.tombstones - {key})))
  {
    hide Settle;
    var next := Book((b.entries - {key})[key := card], b.tombstones - {key});
    assert next.entries.Keys == (b.entries - {key}).Keys + {key};
    SettledIsTidy(next);
  }

  lemma RemoveKeepsTidy(b: Book, key: Label, t: map<Label, nat>)
    requires Tidy(b)
    ensures Tidy(Settle(Book(b.entries - {key}, t)))
  {
    hide Settle;
    var next := Book(b.entries - {key}, t);
    SubsetSize(next.entries.Keys, b.entries.Keys);
    SettledIsTidy(next);
  }

  lemma {:induction false} StepKeepsTidy(b: Book, op: Op)
    requires Tidy(b)
    ensures Tidy(Step(b, op))
  {
    hide Settle, MergedBook, Merged, Tidy, Loadable;
    if Applied(b, op).Success? {
      match op
      case Save(key, address, now) => SaveKeepsTidy(b, key, Card(address, now));
      case Remove(key, now) =>
        RemoveKeepsTidy(b, key, if key in b.entries then (b.tombstones - {key})[key := now] else b.tombstones - {key});
      case Replace(snapshot, now) =>
        MapOfKeys(snapshot);
        SettledIsTidy(Book(MapOf(snapshot), b.tombstones - MapOf(snapshot).Keys));
      case Merge(snapshot, now) =>
        MergedIsPlain(b, MapOf(snapshot));
    }
  }

  lemma {:induction false} RunKeepsTidy(b: Book, ops: seq<Op>)
    requires Tidy(b)
    ensures Tidy(Run(b, ops))
  {
    if ops == [] {
    } else {
      RunKeepsTidy(b, ops[..|ops| - 1]);
      StepKeepsTidy(Run(b, ops[..|ops| - 1]), ops[|ops| - 1]);
    }
  }

  /**
   A label removed at time `d` stays out through every run that brings nothing newer for it, until
   two hundred labels deleted at or after `d` have pushed its tombstone out.
   */
  lemma {:induction false} RemovedStaysRemoved(b: Book, ops: seq<Op>, l: Label, d: nat)
    requires Tidy(b) && Guarded(b, l, d)
    requires forall i :: 0 <= i < |ops| ==> Spares(ops[i], l, d)
    ensures Guarded(Run(b, ops), l, d) || exists n :: 0 < n <= |ops| && Crowded(Run(b, ops[..n]), d)
  {
    hide Step, Spares, Guarded, Crowded;
    if ops == [] {
    } else {
      var front := ops[..|ops| - 1];
      RemovedStaysRemoved(b, front, l, d);
      if Guarded(Run(b, front), l, d) {
        RunKeepsTidy(b, front);
        SparedStep(Run(b, front), ops[|ops| - 1], l, d);
        assert ops[..|ops|] == ops;
      } else {
        var n :| 0 < n <= |front| && Crowded(Run(b, front[..n]), d);
        assert front[..n] == ops[..n];
      }
    }
  }

  /**
   Which removals leave a tombstone: those of a label that has an entry, unless two hundred others
   outrank it at once. Removing a label without an entry forgets any earlier deletion of it.
   */
  lemma {:induction false} RemovalGuardsExactlyPresentLabels(b: Book, l: Label, now: nat)
    requires Tidy(b) && Loadable(b, now)
    ensures var t := b.tombstones[l := now];
      Guarded(Step(b, Remove(l, now)), l, now) <==> l in b.entries && |Ahead(t, l)| < MAX_TOMBSTONES
    ensures l !in b.entries ==> l !in Step(b, Remove(l, now)).tombstones
  {
    hide Evict, Alive, Ahead, Loadable, Tidy;
    var others := b.tombstones - {l};
    var t := if l in b.entries then others[l := now] else others;
    RemovedSettles(b, l, t);
    EvictedIs(t, l);
    assert l in b.entries ==> t == b.tombstones[l := now];
  }

  lemma RemovedSettles(b: Book, l: Label, t: map<Label, nat>)
    requires Tidy(b) && t.Keys <= b.tombstones.Keys + {l}
    ensures Settle(Book(b.entries - {l}, t)) == Book(b.entries - {l}, Evict(t))
  {
    hide Evict;
    var entries := b.entries - {l};
    assert entries.Keys !! t.Keys;
    assert Alive(entries, t) == entries;
    assert t - entries.Keys == t;
  }

  lemma EvictedIs(t: map<Label, nat>, l: Label)
    ensures l in Evict(t) <==> l in t && |Ahead(t, l)| < MAX_TOMBSTONES
    ensures l in Evict(t) ==> Evict(t)[l] == t[l]
  {
    hide Ahead;
  }

  lemma MergedLabels(b: Book, s: Snapshot)
    ensures MergedBook(b, s).entries.Keys == b.entries.Keys + News(b, s)
  {
    hide Newer, At;
  }

  /** When merging a snapshot brings in a label that had no entry. */
  lemma MergeBringsExactly(b: Book, snapshot: seq<Entry>, now: nat, l: Label)
    requires Tidy(b) && l !in b.entries && Loadable(b, now) && Sane(snapshot, now)
    ensures var s := MapOf(snapshot);
      l in Step(b, Merge(snapshot, now)).entries
      <==> l in News(b, s) && |b.entries.Keys + News(b, s)| <= MAX_ENTRIES
  {
    hide MergedBook, Merged, Tidy, Loadable, Sane, MapOf, News;
    MergedIsPlain(b, MapOf(snapshot));
    MergedLabels(b, MapOf(snapshot));
    var merged := MergedBook(b, MapOf(snapshot));
    assert |merged.entries| == |merged.entries.Keys|;
    assert l in merged.entries <==> l in merged.entries.Keys;
  }

  /**
   So an old snapshot, one with an older card of a removed label, brings the label back exactly when
   the removal left no tombstone, because the label had no entry or its tombstone was cut at once,
   and the book has room for all the snapshot's news.
   */
  lemma {:induction false} OldSnapshotReturnsExactly(b: Book, snapshot: seq<Entry>, l: Label, now: nat, later: nat)
    requires Tidy(b) && Loadable(b, now) && now <= later && Sane(snapshot, later)
    requires l in MapOf(snapshot) && MapOf(snapshot)[l].updatedAt <= now
    ensures var removed := Step(b, Remove(l, now));
      l in Step(removed, Merge(snapshot, later)).entries
      <==> !(l in b.entries && |Ahead(b.tombstones[l := now], l)| < MAX_TOMBSTONES)
           && |(b.entries.Keys - {l}) + News(removed, MapOf(snapshot))| <= MAX_ENTRIES
  {
    hide Step, Evict, Ahead, Tidy, MapOf, Sane;
    var removed := Step(b, Remove(l, now));
    RemovalGuardsExactlyPresentLabels(b, l, now);
    StepKeepsTidy(b, Remove(l, now));
    RemovedBook(b, l, now);
    MergeBringsExactly(removed, snapshot, later, l);
    assert removed.entries.Keys == b.entries.Keys - {l};
  }

  lemma {:induction false} RemovedBook(b: Book, l: Label, now: nat)
    requires Tidy(b) && Loadable(b, now)
    ensures var removed := Step(b, Remove(l, now));
      && removed.entries == b.entries - {l}
      && (forall k :: k in removed.tombstones ==> k == l || k in b.tombstones)
      && (l in removed.tombstones ==> l in b.entries && removed.tombstones[l] == now)
      && (forall later: nat :: now <= later ==> Loadable(removed, later))
  {
    hide Ahead, Tidy;
    var others := b.tombstones - {l};
    var t := if l in b.entries then others[l := now] else others;
    RemovedSettles(b, l, t);
  }

  lemma RemoveAlone(b: Book, l: Label, now: nat)
    requires b.entries.Keys <= {l} && b.tombstones.Keys <= {l} && Tidy(b) && Loadable(b, now)
    ensures Step(b, Remove(l, now)) == Book(map[], if l in b.entries then map[l := now] else map[])
  {
    hide Settle;
    var t: map<Label, nat> := if l in b.entries then map[l := now] else map[];
    var others := b.tombstones - {l};
    assert others == map[] && b.entries - {l} == map[];
    assert t == if l in b.entries then others[l := now] else others;
    TidyIsSettled(Book(map[], t));
  }

  lemma MergeAlone(b: Book, l: Label, card: Card, now: nat)
    requires b.entries == map[] && b.tombstones.Keys <= {l} && Loadable(b, now) && card.updatedAt <= now
    ensures Step(b, Merge([Entry(l, card)], now)).entries
         == if l in b.tombstones && card.updatedAt <= b.tombstones[l] then map[] else map[l := card]
  {
    hide Settle, MergedBook;
    var one := [Entry(l, card)];
    assert one[..0] == [] && MapOf(one) == map[l := card];
    assert |b.tombstones.Keys| <= |{l}| by { SubsetSize(b.tombstones.Keys, {l}); }
    MergedIsPlain(b, MapOf(one));
    var merged := MergedBook(b, MapOf(one));
    forall k
      ensures k in merged.entries <==> k == l && Newer(At(b, l), card)
    {
      MergedAt(b, MapOf(one), k);
      assert k in merged.entries <==> At(merged, k).entry.Some?;
    }
    MergedAt(b, MapOf(one), l);
    assert merged.entries == if Newer(At(b, l), card) then map[l := card] else map[];
  }

  /** So a second removal of one label lets an old snapshot bring the label back. */
  lemma SecondRemovalForgets(l: Label, card: Card)
    ensures var b, d := Book(map[l := card], map[]), card.updatedAt;
      && Step(Step(b, Remove(l, d)), Merge([Entry(l, card)], d)).entries == map[]
      && Step(Step(Step(b, Remove(l, d)), Remove(l, d)), Merge([Entry(l, card)], d)).entries == map[l := card]
  {
    hide Step;
    var b, d := Book(map[l := card], map[]), card.updatedAt;
    RemoveAlone(b, l, d);
    RemoveAlone(Step(b, Remove(l, d)), l, d);
    MergeAlone(Step(b, Remove(l, d)), l, card, d);
    MergeAlone(EMPTY, l, card, d);
  }
}
