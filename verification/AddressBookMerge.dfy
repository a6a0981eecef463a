/**
 Saving, removing, replacing and merging: the book's operations, what replicas converge to, and how
 long a deletion holds.
 */
module AddressBookMerge {
  import opened Collections
  import opened Wrappers
  import opened AddressBook

  type Snapshot = map<Label, Card>

  // ---------- operations ----------

  datatype Op =
    | Save(key: Label, address: Address, now: nat)
    | Remove(key: Label, now: nat)
    | Replace(snapshot: seq<Entry>, now: nat)
    | Merge(snapshot: seq<Entry>, now: nat)

  ghost predicate Sane(list: seq<Entry>, now: nat) {
    && |list| <= MAX_ENTRIES
    && (forall i :: 0 <= i < |list| ==> list[i].card.updatedAt <= now + CLOCK_SKEW_MS)
    && (forall i, j :: 0 <= i < j < |list| ==> list[i].key != list[j].key)
  }

  function MapOf(list: seq<Entry>): Snapshot {
    if list == [] then map[] else MapOf(list[..|list| - 1])[list[|list| - 1].key := list[|list| - 1].card]
  }

  /** A stored book is read back only while none of its dates lies more than five minutes ahead. */
  predicate Loadable(b: Book, now: nat) {
    && (forall l :: l in b.entries ==> b.entries[l].updatedAt <= now + CLOCK_SKEW_MS)
    && (forall l :: l in b.tombstones ==> b.tombstones[l] <= now + CLOCK_SKEW_MS)
  }

  datatype Slot = Slot(entry: Option<Card>, deletion: Option<nat>)

  function At(b: Book, l: Label): Slot {
    Slot(if l in b.entries then Some(b.entries[l]) else None, if l in b.tombstones then Some(b.tombstones[l]) else None)
  }

  function Offer(s: Snapshot, l: Label): Option<Card> {
    if l in s then Some(s[l]) else None
  }

  /** Newer than the label's tombstone and newer than the entry it has. */
  predicate Newer(slot: Slot, card: Card) {
    && (slot.deletion.Some? ==> card.updatedAt > slot.deletion.value)
    && (slot.entry.Some? ==> card.updatedAt > slot.entry.value.updatedAt)
  }

  function Take(slot: Slot, offer: Option<Card>): Slot {
    if offer.Some? && Newer(slot, offer.value) then Slot(offer, None) else slot
  }

  function MergedBook(b: Book, s: Snapshot): Book {
    Book(map l | l in b.entries.Keys + s.Keys && (l in b.entries || Newer(At(b, l), s[l])) ::
           if l in s && Newer(At(b, l), s[l]) then s[l] else b.entries[l],
         map l | l in b.tombstones && !(l in s && Newer(At(b, l), s[l])) :: b.tombstones[l])
  }

  function Merged(b: Book, s: Snapshot): Result<Book, BookError> {
    if |MergedBook(b, s).entries| > MAX_ENTRIES then Failure(Full) else Success(Settle(MergedBook(b, s)))
  }

  ghost function Applied(b: Book, op: Op): Result<Book, BookError> {
    if (op.Replace? || op.Merge?) && !Sane(op.snapshot, op.now) then Failure(Corrupt)
    else if !Loadable(b, op.now) then Failure(Corrupt)
    else match op
      case Save(key, address, now) =>
        if |b.entries - {key}| >= MAX_ENTRIES then Failure(Full)
        else Success(Settle(Book((b.entries - {key})[key := Card(address, now)], b.tombstones - {key})))
      case Remove(key, now) =>
        var others := b.tombstones - {key};
        Success(Settle(Book(b.entries - {key}, if key in b.entries then others[key := now] else others)))
      case Replace(snapshot, now) =>
        Success(Settle(Book(MapOf(snapshot), b.tombstones - MapOf(snapshot).Keys)))
      case Merge(snapshot, now) => Merged(b, MapOf(snapshot))
  }

  ghost function Step(b: Book, op: Op): Book {
    if Applied(b, op).Success? then Applied(b, op).value else b
  }

  ghost function Run(b: Book, ops: seq<Op>): Book {
    if ops == [] then b else Step(Run(b, ops[..|ops| - 1]), ops[|ops| - 1])
  }

  // ---------- the stored book ----------

  method SanitizeEntries(list: seq<Entry>, now: nat) returns (r: Option<Snapshot>)
    ensures r == if Sane(list, now) then Some(MapOf(list)) else None
  {
    if |list| > MAX_ENTRIES { return None; }
    var labels: set<Label> := {};
    for i := 0 to |list|
      invariant Sane(list[..i], now)
      invariant forall l :: l in labels <==> exists j :: 0 <= j < i && list[j].key == l
    {
      if list[i].card.updatedAt > now + CLOCK_SKEW_MS || list[i].key in labels { return None; }
      labels := labels + {list[i].key};
    }
    assert list[..|list|] == list;
    return Some(MapOf(list));
  }

  lemma {:induction false} MapOfKeys(list: seq<Entry>)
    ensures forall l :: l in MapOf(list) <==> exists j :: 0 <= j < |list| && list[j].key == l
    ensures |MapOf(list)| <= |list|
  {
    if list == [] {
    } else {
      var front, last := list[..|list| - 1], list[|list| - 1];
      MapOfKeys(front);
      assert MapOf(list).Keys == MapOf(front).Keys + {last.key};
      assert forall j :: 0 <= j < |front| ==> list[j] == front[j];
    }
  }

  lemma {:induction false} MapOfEntry(list: seq<Entry>, now: nat, e: Entry)
    requires Sane(list, now) && e in list
    ensures e.key in MapOf(list) && MapOf(list)[e.key] == e.card
  {
    var front, last := list[..|list| - 1], list[|list| - 1];
    if e == last {
    } else {
      MapOfEntry(front, now, e);
    }
  }

  // ---------- one label at a time ----------

  lemma MergedAt(b: Book, s: Snapshot, l: Label)
    ensures At(MergedBook(b, s), l) == Take(At(b, l), Offer(s, l))
  {
  }

  lemma SameBooks(a: Book, b: Book)
    requires forall l :: At(a, l) == At(b, l)
    ensures a == b
  {
    assert forall l :: l in a.entries <==> At(a, l).entry.Some?;
    assert forall l :: l in b.entries <==> At(b, l).entry.Some?;
    assert forall l :: l in a.tombstones <==> At(a, l).deletion.Some?;
    assert forall l :: l in b.tombstones <==> At(b, l).deletion.Some?;
    forall l | l in a.entries
      ensures a.entries[l] == b.entries[l]
    {
      assert At(a, l) == At(b, l);
    }
    forall l | l in a.tombstones
      ensures a.tombstones[l] == b.tombstones[l]
    {
      assert At(a, l) == At(b, l);
    }
    assert a.entries == b.entries && a.tombstones == b.tombstones;
  }

  lemma MergeOne(b: Book, s: Snapshot, key: Label, card: Card)
    requires key !in s
    ensures var m := MergedBook(b, s);
      MergedBook(b, s[key := card])
      == if Newer(At(m, key), card) then Book(m.entries[key := card], m.tombstones - {key}) else m
  {
    hide MergedBook, Newer;
    var m, next := MergedBook(b, s), MergedBook(b, s[key := card]);
    var expected := if Newer(At(m, key), card) then Book(m.entries[key := card], m.tombstones - {key}) else m;
    forall l
      ensures At(next, l) == At(expected, l)
    {
      MergedAt(b, s, l);
      MergedAt(b, s[key := card], l);
    }
    SameBooks(next, expected);
  }

  method MergeLoop(b: Book, snapshot: seq<Entry>) returns (merged: Book)
    requires forall i, j :: 0 <= i < j < |snapshot| ==> snapshot[i].key != snapshot[j].key
    ensures merged == MergedBook(b, MapOf(snapshot))
  {
    hide MergedBook, Newer;
    var byLabel: map<Label, Card> := b.entries;
    var tombstones: map<Label, nat> := b.tombstones;
    NothingMerged(b);
    for i := 0 to |snapshot|
      invariant Book(byLabel, tombstones) == MergedBook(b, MapOf(snapshot[..i]))
    {
      var e := snapshot[i];
      assert snapshot[..i + 1][..i] == snapshot[..i];
      MapOfKeys(snapshot[..i]);
      MergeOne(b, MapOf(snapshot[..i]), e.key, e.card);
      if Newer(At(Book(byLabel, tombstones), e.key), e.card) {
        byLabel := byLabel[e.key := e.card];
        tombstones := tombstones - {e.key};
      }
    }
    assert snapshot[..|snapshot|] == snapshot;
    merged := Book(byLabel, tombstones);
  }

  class BookStore {
    var book: Book

    predicate Valid()
      reads this
    {
      Tidy(book)
    }

    constructor ()
      ensures Valid() && book == EMPTY
    {
      book := EMPTY;
    }

    /** What every operation ends with: the new book listed, reconciled and stored. */
    method Persist(next: Book)
      requires |next.entries| <= MAX_ENTRIES
      modifies this
      ensures Valid() && book == Settle(next)
    {
      hide Settle;
      var entries, tombstones := ListBook(next);
      book := ReconcileBookState(entries, tombstones);
      ReconciledSettles(entries, tombstones, next);
      SettledIsTidy(next);
    }

    method SaveEntry(key: Label, address: Address, now: nat) returns (r: Result<Book, BookError>)
      requires Valid()
      modifies this
      ensures Valid() && r == Applied(old(book), Save(key, address, now))
      ensures book == Step(old(book), Save(key, address, now))
    {
      hide Settle;
      if !Loadable(book, now) { return Failure(Corrupt); }
      var kept := book.entries - {key};
      if |kept| >= MAX_ENTRIES { return Failure(Full); }
      var next := Book(kept[key := Card(address, now)], book.tombstones - {key});
      assert next.entries.Keys == kept.Keys + {key};
      Persist(next);
      return Success(book);
    }

    method RemoveEntry(key: Label, now: nat) returns (r: Result<Book, BookError>)
      requires Valid()
      modifies this
      ensures Valid() && r == Applied(old(book), Remove(key, now))
      ensures book == Step(old(book), Remove(key, now))
    {
      hide Settle;
      if !Loadable(book, now) { return Failure(Corrupt); }
      var tombstones := book.tombstones - {key};
      if key in book.entries {
        tombstones := tombstones[key := now];
      }
      var next := Book(book.entries - {key}, tombstones);
      assert next.entries.Keys == book.entries.Keys - {key};
      SubsetSize(next.entries.Keys, book.entries.Keys);
      Persist(next);
      return Success(book);
    }

    method ReplaceEntries(snapshot: seq<Entry>, now: nat) returns (r: Result<Book, BookError>)
      requires Valid()
      modifies this
      ensures Valid() && r == Applied(old(book), Replace(snapshot, now))
      ensures book == Step(old(book), Replace(snapshot, now))
    {
      hide Settle;
      var incoming := SanitizeEntries(snapshot, now);
      if incoming.None? { return Failure(Corrupt); }
      if !Loadable(book, now) { return Failure(Corrupt); }
      var next := Book(incoming.value, book.tombstones - incoming.value.Keys);
      MapOfKeys(snapshot);
      Persist(next);
      return Success(book);
    }

    method MergeEntries(snapshot: seq<Entry>, now: nat) returns (r: Result<Book, BookError>)
      requires Valid()
      modifies this
      ensures Valid() && r == Applied(old(book), Merge(snapshot, now))
      ensures book == Step(old(book), Merge(snapshot, now))
    {
      hide Settle, MergedBook;
      var incoming := SanitizeEntries(snapshot, now);
      if incoming.None? { return Failure(Corrupt); }
      if !Loadable(book, now) { return Failure(Corrupt); }
      var merged := MergeLoop(book, snapshot);
      if |merged.entries| > MAX_ENTRIES { return Failure(Full); }
      Persist(merged);
      return Success(book);
    }
  }

  lemma NothingMerged(b: Book)
    ensures MergedBook(b, map[]) == b
  {
    assert MergedBook(b, map[]).entries == b.entries;
    assert MergedBook(b, map[]).tombstones == b.tombstones;
  }
}
