/**
 The device-local address book: entries and deletion tombstones, newest wins. Labels are ranks of
 already case-folded keys, so their order is that of the folded labels.
 */
module AddressBook {
  import opened Collections

  type Label = nat
  type Address = nat

  const MAX_ENTRIES: nat := 200
  const MAX_TOMBSTONES: nat := MAX_ENTRIES
  const CLOCK_SKEW_MS: nat := 5 * 60 * 1_000

  datatype Card = Card(address: Address, updatedAt: nat)
  datatype Entry = Entry(key: Label, card: Card)
  datatype Tombstone = Tombstone(key: Label, deletedAt: nat)

  datatype Book = Book(entries: map<Label, Card>, tombstones: map<Label, nat>)

  datatype BookError = Corrupt | Full

  const EMPTY := Book(map[], map[])

  // ---------- reconciliation ----------

  predicate Suppressed(card: Card, key: Label, deletions: map<Label, nat>) {
    key in deletions && card.updatedAt <= deletions[key]
  }

  /** `k` ranks before `l`: deleted later, or at the same time with a smaller label. */
  predicate RanksBefore(t: map<Label, nat>, k: Label, l: Label)
    requires k in t && l in t
  {
    t[k] > t[l] || (t[k] == t[l] && k < l)
  }

  function Ahead(t: map<Label, nat>, l: Label): set<Label>
    requires l in t
  {
    set k | k in t && RanksBefore(t, k, l)
  }

  /** The tombstones that fewer than two hundred others outrank. */
  function Evict(t: map<Label, nat>): map<Label, nat> {
    map l | l in t && |Ahead(t, l)| < MAX_TOMBSTONES :: t[l]
  }

  function Alive(entries: map<Label, Card>, deletions: map<Label, nat>): map<Label, Card> {
    map l | l in entries && !Suppressed(entries[l], l, deletions) :: entries[l]
  }

  /** What is kept of a book: unsuppressed entries, and the tombstones no entry has overtaken. */
  function Settle(b: Book): Book {
    var alive := Alive(b.entries, b.tombstones);
    Book(alive, Evict(b.tombstones - alive.Keys))
  }

  /** Disjoint labels and no more tombstones than are kept: what every stored book satisfies. */
  predicate Tidy(b: Book) {
    b.entries.Keys !! b.tombstones.Keys && |b.tombstones| <= MAX_TOMBSTONES && |b.entries| <= MAX_ENTRIES
  }

  function LatestDeletions(tombstones: seq<Tombstone>): map<Label, nat> {
    if tombstones == [] then map[]
    else
      var earlier, last := LatestDeletions(tombstones[..|tombstones| - 1]), tombstones[|tombstones| - 1];
      if last.key in earlier && last.deletedAt <= earlier[last.key] then earlier
      else earlier[last.key := last.deletedAt]
  }

  /** Of several entries with one label, the first that no deletion suppresses. */
  function FirstAlive(entries: seq<Entry>, deletions: map<Label, nat>): map<Label, Card> {
    if entries == [] then map[]
    else
      var earlier, last := FirstAlive(entries[..|entries| - 1], deletions), entries[|entries| - 1];
      if last.key in earlier || Suppressed(last.card, last.key, deletions) then earlier
      else earlier[last.key := last.card]
  }

  function Reconciled(entries: seq<Entry>, tombstones: seq<Tombstone>): Book {
    var deletions := LatestDeletions(tombstones);
    var alive := FirstAlive(entries, deletions);
    Book(alive, Evict(deletions - alive.Keys))
  }

  method ReconcileBookState(entries: seq<Entry>, tombstones: seq<Tombstone>) returns (b: Book)
    ensures b == Reconciled(entries, tombstones)
  {
    var tombstoneByLabel: map<Label, nat> := map[];
    for i := 0 to |tombstones|
      invariant tombstoneByLabel == LatestDeletions(tombstones[..i])
    {
      var item := tombstones[i];
      assert tombstones[..i + 1][..i] == tombstones[..i];
      if item.key !in tombstoneByLabel || item.deletedAt > tombstoneByLabel[item.key] {
        tombstoneByLabel := tombstoneByLabel[item.key := item.deletedAt];
      }
    }
    assert tombstones[..|tombstones|] == tombstones;
    ghost var deletions := tombstoneByLabel;
    var kept: map<Label, Card> := map[];
    for i := 0 to |entries|
      invariant kept == FirstAlive(entries[..i], deletions)
      invariant tombstoneByLabel == deletions - kept.Keys
    {
      var item := entries[i];
      assert entries[..i + 1][..i] == entries[..i];
      if item.key !in kept {
        if !Suppressed(item.card, item.key, tombstoneByLabel) {
          kept := kept[item.key := item.card];
          tombstoneByLabel := tombstoneByLabel - {item.key};
        }
      }
    }
    assert entries[..|entries|] == entries;
    b := Book(kept, Evict(tombstoneByLabel));
  }

  // ---------- eviction keeps the newest ----------

  lemma AheadIsSmaller(t: map<Label, nat>, l: Label)
    requires l in t
    ensures |Ahead(t, l)| < |t|
  {
    assert Ahead(t, l) <= t.Keys - {l};
    SubsetSize(Ahead(t, l), t.Keys - {l});
  }

  lemma FewAreKept(t: map<Label, nat>)
    requires |t| <= MAX_TOMBSTONES
    ensures Evict(t) == t
  {
    forall l | l in t
      ensures |Ahead(t, l)| < MAX_TOMBSTONES
    {
      AheadIsSmaller(t, l);
    }
  }

  lemma {:induction false} LastRanked(t: map<Label, nat>) returns (w: Label)
    requires t != map[]
    ensures w in t && forall k :: k in t && k != w ==> RanksBefore(t, k, w)
    decreases |t|
  {
    var x :| x in t;
    var rest := t - {x};
    assert rest.Keys == t.Keys - {x};
    assert forall k :: k in t && k != x ==> k in rest && rest[k] == t[k];
    if rest == map[] {
      w := x;
    } else {
      var y := LastRanked(rest);
      w := if RanksBefore(t, x, y) then y else x;
    }
  }

  /** Of more than two hundred tombstones exactly two hundred are kept. */
  lemma {:induction false} ManyAreCut(t: map<Label, nat>)
    requires |t| >= MAX_TOMBSTONES
    ensures |Evict(t)| == MAX_TOMBSTONES
    decreases |t|
  {
    if |t| == MAX_TOMBSTONES {
      FewAreKept(t);
    } else {
      var w := LastRanked(t);
      var rest := t - {w};
      assert rest.Keys == t.Keys - {w};
      assert Ahead(t, w) == rest.Keys;
      forall l | l in rest
        ensures Ahead(rest, l) == Ahead(t, l)
      {
      }
      assert Evict(t) == Evict(rest);
      ManyAreCut(rest);
    }
  }

  /** Whatever is kept outranks whatever was dropped. */
  lemma KeptOutranksDropped(t: map<Label, nat>, k: Label, l: Label)
    requires l in t && l !in Evict(t) && k in Evict(t)
    ensures RanksBefore(t, k, l)
  {
    if !RanksBefore(t, k, l) {
      assert Ahead(t, l) <= Ahead(t, k);
      SubsetSize(Ahead(t, l), Ahead(t, k));
    }
  }

  ghost predicate Ranked(list: seq<Tombstone>) {
    forall i, j :: 0 <= i < j < |list| ==>
      list[i].deletedAt > list[j].deletedAt || (list[i].deletedAt == list[j].deletedAt && list[i].key < list[j].key)
  }

  ghost predicate Lists(list: seq<Tombstone>, t: map<Label, nat>) {
    && (forall i :: 0 <= i < |list| ==> list[i].key in t && t[list[i].key] == list[i].deletedAt)
    && (forall l :: l in t ==> Tombstone(l, t[l]) in list)
  }

  function Labels(list: seq<Tombstone>, n: nat): set<Label>
    requires n <= |list|
  {
    if n == 0 then {} else Labels(list, n - 1) + {list[n - 1].key}
  }

  lemma {:induction false} LabelsAre(list: seq<Tombstone>, n: nat, k: Label)
    requires n <= |list|
    ensures k in Labels(list, n) <==> exists i :: 0 <= i < n && list[i].key == k
  {
    if n == 0 {
    } else {
      LabelsAre(list, n - 1, k);
    }
  }

  lemma {:induction false} RankedLabels(list: seq<Tombstone>, t: map<Label, nat>, n: nat)
    requires Ranked(list) && Lists(list, t) && n <= |list|
    ensures |Labels(list, n)| == n
  {
    if n == 0 {
    } else {
      RankedLabels(list, t, n - 1);
      LabelsAre(list, n - 1, list[n - 1].key);
    }
  }

  lemma AheadInList(list: seq<Tombstone>, t: map<Label, nat>, i: nat)
    requires Ranked(list) && Lists(list, t) && i < |list|
    ensures list[i].key in t && |Ahead(t, list[i].key)| == i
  {
    var l := list[i].key;
    forall k
      ensures k in Ahead(t, l) <==> k in Labels(list, i)
    {
      LabelsAre(list, i, k);
      if k in Ahead(t, l) {
        var j :| 0 <= j < |list| && list[j] == Tombstone(k, t[k]);
        assert j < i;
      }
    }
    assert Ahead(t, l) == Labels(list, i);
    RankedLabels(list, t, i);
  }

  /** Sorting the tombstones newest first and cutting the list at two hundred is `Evict`. */
  lemma CuttingTheSortedListEvicts(list: seq<Tombstone>, t: map<Label, nat>)
    requires Ranked(list) && Lists(list, t)
    ensures Evict(t).Keys == Labels(list, if |list| > MAX_TOMBSTONES then MAX_TOMBSTONES else |list|)
  {
    var n := if |list| > MAX_TOMBSTONES then MAX_TOMBSTONES else |list|;
    forall l
      ensures l in Evict(t) <==> l in Labels(list, n)
    {
      LabelsAre(list, n, l);
      if l in t {
        var i :| 0 <= i < |list| && list[i] == Tombstone(l, t[l]);
        AheadInList(list, t, i);
        if l in Labels(list, n) {
          var j :| 0 <= j < n && list[j].key == l;
          AheadInList(list, t, j);
        }
      }
    }
  }

  // ---------- settling ----------

  lemma EvictIsSmall(t: map<Label, nat>)
    ensures |Evict(t)| <= MAX_TOMBSTONES
  {
    if |t| <= MAX_TOMBSTONES { FewAreKept(t); } else { ManyAreCut(t); }
  }

  lemma SettledIsTidy(b: Book)
    requires |b.entries| <= MAX_ENTRIES
    ensures Tidy(Settle(b)) && Settle(b).entries.Keys <= b.entries.Keys
  {
    EvictIsSmall(b.tombstones - Alive(b.entries, b.tombstones).Keys);
    SubsetSize(Settle(b).entries.Keys, b.entries.Keys);
  }

  lemma TidyIsSettled(b: Book)
    requires b.entries.Keys !! b.tombstones.Keys && |b.tombstones| <= MAX_TOMBSTONES
    ensures Settle(b) == b
  {
    assert Alive(b.entries, b.tombstones) == b.entries;
    assert b.tombstones - b.entries.Keys == b.tombstones;
    FewAreKept(b.tombstones);
  }

  lemma {:induction false} FirstAliveIsUnsuppressed(entries: seq<Entry>, deletions: map<Label, nat>)
    ensures forall l :: l in FirstAlive(entries, deletions) ==>
      Entry(l, FirstAlive(entries, deletions)[l]) in entries
      && !Suppressed(FirstAlive(entries, deletions)[l], l, deletions)
  {
    if entries == [] {
    } else {
      FirstAliveIsUnsuppressed(entries[..|entries| - 1], deletions);
    }
  }

  ghost predicate Enumerates(entries: seq<Entry>, tombstones: seq<Tombstone>, b: Book) {
    && (forall e :: e in entries <==> e.key in b.entries && b.entries[e.key] == e.card)
    && (forall s :: s in tombstones <==> s.key in b.tombstones && b.tombstones[s.key] == s.deletedAt)
  }

  lemma {:induction false} LatestOfUnique(tombstones: seq<Tombstone>, t: map<Label, nat>)
    requires forall s :: s in tombstones ==> s.key in t && t[s.key] == s.deletedAt
    ensures forall l :: l in LatestDeletions(tombstones) <==> exists s :: s in tombstones && s.key == l
    ensures forall l :: l in LatestDeletions(tombstones) ==> l in t && LatestDeletions(tombstones)[l] == t[l]
  {
    if tombstones == [] {
    } else {
      var front, last := tombstones[..|tombstones| - 1], tombstones[|tombstones| - 1];
      assert last in tombstones;
      assert forall s :: s in tombstones <==> s in front || s == last;
      LatestOfUnique(front, t);
    }
  }

  lemma {:induction false} FirstOfUnique(entries: seq<Entry>, m: map<Label, Card>, deletions: map<Label, nat>)
    requires forall e :: e in entries ==> e.key in m && m[e.key] == e.card
    ensures forall l :: l in FirstAlive(entries, deletions) <==>
      exists e :: e in entries && e.key == l && !Suppressed(m[l], l, deletions)
    ensures forall l :: l in FirstAlive(entries, deletions) ==> l in m && FirstAlive(entries, deletions)[l] == m[l]
  {
    hide Suppressed;
    if entries == [] {
    } else {
      var front, last := entries[..|entries| - 1], entries[|entries| - 1];
      assert last in entries;
      assert forall e :: e in entries <==> e in front || e == last;
      FirstOfUnique(front, m, deletions);
    }
  }

  /**
   However a book is listed, with or without repetitions, the two loops keep its unsuppressed entries
   and the tombstones that no entry has overtaken, the newest two hundred.
   */
  lemma {:induction false} ReconciledSettles(entries: seq<Entry>, tombstones: seq<Tombstone>, b: Book)
    requires Enumerates(entries, tombstones, b)
    ensures Reconciled(entries, tombstones) == Settle(b)
  {
    hide Suppressed, Evict;
    LatestOfUnique(tombstones, b.tombstones);
    var deletions := LatestDeletions(tombstones);
    forall l
      ensures l in deletions <==> l in b.tombstones
    {
      if l in b.tombstones { assert Tombstone(l, b.tombstones[l]) in tombstones; }
    }
    assert deletions == b.tombstones;
    FirstOfUnique(entries, b.entries, deletions);
    var alive := FirstAlive(entries, deletions);
    forall l
      ensures l in alive <==> l in b.entries && !Suppressed(b.entries[l], l, deletions)
    {
      if l in b.entries { assert Entry(l, b.entries[l]) in entries; }
    }
    assert alive == Alive(b.entries, deletions);
  }

  /** Reconciliation is idempotent: reading back the lists of a tidy book gives the book. */
  lemma {:induction false} ReconcileIsIdempotent(entries: seq<Entry>, tombstones: seq<Tombstone>, b: Book)
    requires Tidy(b) && Enumerates(entries, tombstones, b)
    ensures Reconciled(entries, tombstones) == b
  {
    hide Settle;
    ReconciledSettles(entries, tombstones, b);
    TidyIsSettled(b);
  }

  /** The lists a book is stored as, in some order. */
  method ListBook(b: Book) returns (entries: seq<Entry>, tombstones: seq<Tombstone>)
    ensures Enumerates(entries, tombstones, b)
  {
    entries, tombstones := [], [];
    var left := b.entries.Keys;
    while left != {}
      invariant left <= b.entries.Keys
      invariant forall e :: e in entries <==> e.key in b.entries.Keys - left && b.entries[e.key] == e.card
      decreases |left|
    {
      var l :| l in left;
      entries := entries + [Entry(l, b.entries[l])];
      left := left - {l};
    }
    left := b.tombstones.Keys;
    while left != {}
      invariant left <= b.tombstones.Keys
      invariant forall t :: t in tombstones <==> t.key in b.tombstones.Keys - left && b.tombstones[t.key] == t.deletedAt
      decreases |left|
    {
      var l :| l in left;
      tombstones := tombstones + [Tombstone(l, b.tombstones[l])];
      left := left - {l};
    }
  }

  /** Whatever lists come in, what comes out is label-disjoint, within the limit and unsuppressed. */
  lemma ReconciledIsDisjoint(entries: seq<Entry>, tombstones: seq<Tombstone>)
    ensures var b := Reconciled(entries, tombstones);
      b.entries.Keys !! b.tombstones.Keys && |b.tombstones| <= MAX_TOMBSTONES
  {
    var deletions := LatestDeletions(tombstones);
    EvictIsSmall(deletions - FirstAlive(entries, deletions).Keys);
  }
}
