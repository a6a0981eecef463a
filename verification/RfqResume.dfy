/** Running a cut-short restore again: when that finishes the job, and when it cannot. */
module RfqResume {
  import opened Collections
  import opened Wrappers
  import opened RfqRestore
  import opened RfqRestoreSafety
  import opened RfqSteady

  // ---------- a snapshot item by item ----------

  function Count(s: Snapshot): nat {
    |s.tombstones| + |s.records|
  }

  /** The RFQ the k-th item is about: tombstones first, as import takes them. */
  function IdAt(s: Snapshot, k: nat): Id
    requires k < Count(s)
  {
    if k < |s.tombstones| then s.tombstones[k].id else s.records[k - |s.tombstones|].id
  }

  function Ids(s: Snapshot): set<Id> {
    set k | 0 <= k < Count(s) :: IdAt(s, k)
  }

  function VerdictAt(c: Codec, s: Snapshot, now: Time, k: nat, row: Option<Row>): Verdict
    requires k < Count(s) && Incoming(c, s.records, now).Success?
  {
    if k < |s.tombstones| then TombstoneVerdict(c, row, s.tombstones[k], now)
    else
      IncomingLength(c, s.records, now);
      RecordVerdict(c, row, Incoming(c, s.records, now).value[k - |s.tombstones|], now)
  }

  lemma ItemsAt(c: Codec, rows: map<Id, Row>, s: Snapshot, now: Time, k: nat)
    requires Lawful(c) && Incoming(c, s.records, now).Success? && k < Count(s)
    ensures var items := Items(c, rows, s.tombstones, Incoming(c, s.records, now).value, now);
      && |items| == Count(s)
      && items[k] == Item(IdAt(s, k), VerdictAt(c, s, now, k, At(rows, IdAt(s, k))))
  {
    hide Lawful, TombstoneVerdict, RecordVerdict, IncomingEntry, Incoming, At;
    IncomingAt(c, s.records, now);
    if k >= |s.tombstones| {
      EntryKeeps(c, s.records[k - |s.tombstones|], now);
    }
  }

  lemma ItemsCount(c: Codec, rows: map<Id, Row>, s: Snapshot, now: Time)
    ensures Incoming(c, s.records, now).Success? ==>
      |Items(c, rows, s.tombstones, Incoming(c, s.records, now).value, now)| == Count(s)
  {
    hide Incoming;
    if Incoming(c, s.records, now).Success? {
      IncomingLength(c, s.records, now);
    }
  }

  /** Whether a backup row is readable does not depend on when it is read. */
  lemma IncomingAgain(c: Codec, disk: Disk, s: Snapshot, now: Time, later: Time)
    ensures Plan(c, disk, s, now).Success? ==>
      Incoming(c, s.records, now).Success? && Incoming(c, s.records, later).Success?
  {
    hide Incoming, Judge;
    IncomingAt(c, s.records, now);
    IncomingAt(c, s.records, later);
  }

  /** Whether the k-th item is met again as it was met first. */
  ghost predicate ItemSteady(c: Codec, s: Snapshot, k: nat, row: Option<Row>, now: Time, later: Time)
    requires k < Count(s) && ReadableRow(c, row) && Incoming(c, s.records, now).Success?
  {
    if k < |s.tombstones| then TombstoneSteady(c, row, s.tombstones[k], later)
    else
      IncomingAt(c, s.records, now);
      RecordSteady(c, row, s.records[k - |s.tombstones|], now, later)
  }

  lemma ItemResumesExactly(c: Codec, s: Snapshot, k: nat, row: Option<Row>, now: Time, later: Time)
    requires Lawful(c) && k < Count(s) && ReadableRow(c, row)
    requires Incoming(c, s.records, now).Success? && Incoming(c, s.records, later).Success?
    requires !VerdictAt(c, s, now, k, row).Refuse?
    ensures var wanted := Outcome(row, VerdictAt(c, s, now, k, row));
      ItemSteady(c, s, k, row, now, later)
      <==> Redone(c, row, VerdictAt(c, s, later, k, row), wanted)
           && Redone(c, wanted, VerdictAt(c, s, later, k, wanted), wanted)
    ensures Redone(c, row, VerdictAt(c, s, later, k, row), Outcome(row, VerdictAt(c, s, now, k, row))) ==>
      Taken(c, row, VerdictAt(c, s, now, k, row))
  {
    hide Lawful, TombstoneVerdict, RecordVerdict, IncomingEntry, Incoming, Redone, Outcome, RecordSteady, Taken;
    IncomingAt(c, s.records, now);
    IncomingAt(c, s.records, later);
    if k < |s.tombstones| {
      TombstoneResumesExactly(c, row, s.tombstones[k], now, later);
    } else {
      RecordResumesExactly(c, row, s.records[k - |s.tombstones|], now, later);
    }
  }

  // ---------- the disk an import leaves ----------

  /** After so many writes, or fewer if something is refused. */
  ghost function CutShort(c: Codec, disk: Disk, s: Snapshot, now: Time, writes: nat): Disk {
    Restore(c, disk, Attempt(s, now, writes))
  }

  /** With nothing to interrupt it but a refusal. */
  ghost function Finished(c: Codec, disk: Disk, s: Snapshot, now: Time): Disk {
    var plan := Plan(c, disk, s, now);
    if plan.Failure? then disk else CutShort(c, disk, s, now, |plan.value| + 1)
  }

  /** With the whole plan written. */
  ghost function Intended(c: Codec, disk: Disk, s: Snapshot, now: Time): Disk {
    var plan := Plan(c, disk, s, now);
    if plan.Failure? then disk else Disk(Put(disk.rows, plan.value), Some(s.mark))
  }

  /** Nothing is refused, neither by the plan nor by the storage. */
  ghost predicate Completes(c: Codec, disk: Disk, s: Snapshot, now: Time) {
    && Plan(c, disk, s, now).Success?
    && Accepted(c, disk.rows, Plan(c, disk, s, now).value) == |Plan(c, disk, s, now).value|
  }

  lemma CompletedIsIntended(c: Codec, disk: Disk, s: Snapshot, now: Time)
    ensures Completes(c, disk, s, now) ==> Finished(c, disk, s, now) == Intended(c, disk, s, now)
  {
    hide Plan, Accepted;
    var plan := Plan(c, disk, s, now);
    assert plan.Success? ==> plan.value[..|plan.value|] == plan.value;
  }

  lemma DistinctIds(c: Codec, disk: Disk, s: Snapshot, now: Time)
    requires Lawful(c) && Plan(c, disk, s, now).Success?
    ensures forall j, k :: 0 <= j < k < Count(s) ==> IdAt(s, j) != IdAt(s, k)
    ensures UniqueItems(PlanItems(c, disk, s, now))
  {
    hide Lawful, Incoming, Collect, Items, IdAt;
    var items := PlanItems(c, disk, s, now);
    ItemsAreUnique(c, disk.rows, s.tombstones, Incoming(c, s.records, now).value, now);
    forall j, k | 0 <= j < k < Count(s)
      ensures IdAt(s, j) != IdAt(s, k)
    {
      ItemsAt(c, disk.rows, s, now, j);
      ItemsAt(c, disk.rows, s, now, k);
    }
  }

  /** Where a cut-short import leaves an item's row: as it was, or as the item wants it. */
  lemma CutShortAt(c: Codec, disk: Disk, s: Snapshot, now: Time, writes: nat, k: nat)
    requires Lawful(c) && Plan(c, disk, s, now).Success? && k < Count(s)
    ensures var id := IdAt(s, k);
      var row, left := At(disk.rows, id), At(CutShort(c, disk, s, now, writes).rows, id);
      var wanted := Outcome(row, VerdictAt(c, s, now, k, row));
      && At(Intended(c, disk, s, now).rows, id) == wanted
      && (left == row || left == wanted)
      && !VerdictAt(c, s, now, k, row).Refuse?
  {
    hide Lawful, Put, Collect, Items, At, Outcome, UniqueItems, Incoming, UniqueIds, IdAt, VerdictAt, Accepted;
    var items, changes := PlanItems(c, disk, s, now), Plan(c, disk, s, now).value;
    DistinctIds(c, disk, s, now);
    ItemsAt(c, disk.rows, s, now, k);
    NothingPut(disk.rows, changes);
    var n := if writes == 0 then 0 else Done(c, disk.rows, changes, writes - 1);
    PrefixAt(disk.rows, items, n, k);
    PrefixAt(disk.rows, items, |changes|, k);
    assert changes[..|changes|] == changes;
    CollectGives(items);
  }

  /** An import completes exactly when the storage takes each of its writes over the row the device had. */
  lemma CompletesExactly(c: Codec, disk: Disk, s: Snapshot, now: Time)
    requires Lawful(c) && Plan(c, disk, s, now).Success?
    ensures Incoming(c, s.records, now).Success?
    ensures Completes(c, disk, s, now) <==> forall k :: 0 <= k < Count(s) ==>
      Taken(c, At(disk.rows, IdAt(s, k)), VerdictAt(c, s, now, k, At(disk.rows, IdAt(s, k))))
  {
    hide Lawful, Collect, Items, At, Incoming, UniqueIds, IdAt, VerdictAt, Accepted, Accepts, UniqueItems;
    var items, changes := PlanItems(c, disk, s, now), Plan(c, disk, s, now).value;
    DistinctIds(c, disk, s, now);
    CollectIsUnique(items);
    CollectGives(items);
    AcceptedExactly(c, disk.rows, changes);
    ItemsCount(c, disk.rows, s, now);
    forall k | 0 <= k < Count(s)
      ensures items[k] == Item(IdAt(s, k), VerdictAt(c, s, now, k, At(disk.rows, IdAt(s, k))))
    {
      ItemsAt(c, disk.rows, s, now, k);
    }
    forall k | 0 <= k < Count(s) && items[k].verdict.Write?
      ensures Change(items[k].id, items[k].verdict.row) in changes
    {
      assert Listed(items, Change(items[k].id, items[k].verdict.row));
    }
    forall i | 0 <= i < |changes|
      ensures exists k :: 0 <= k < Count(s) && items[k] == Item(changes[i].id, Write(changes[i].row))
    {
      assert changes[i] in changes;
    }
  }

  lemma OtherRowsStay(c: Codec, disk: Disk, s: Snapshot, now: Time, writes: nat, id: Id)
    requires Lawful(c) && Plan(c, disk, s, now).Success? && id !in Ids(s)
    ensures At(CutShort(c, disk, s, now, writes).rows, id) == At(disk.rows, id)
    ensures At(Intended(c, disk, s, now).rows, id) == At(disk.rows, id)
  {
    hide Lawful, Put, Collect, Items, At, UniqueItems, Incoming, UniqueIds, IdAt, VerdictAt, Accepted;
    var items, changes := PlanItems(c, disk, s, now), Plan(c, disk, s, now).value;
    DistinctIds(c, disk, s, now);
    forall k | 0 <= k < |items|
      ensures items[k].id != id
    {
      ItemsCount(c, disk.rows, s, now);
      ItemsAt(c, disk.rows, s, now, k);
    }
    NothingPut(disk.rows, changes);
    var n := if writes == 0 then 0 else Done(c, disk.rows, changes, writes - 1);
    OthersAt(disk.rows, items, n, id);
    OthersAt(disk.rows, items, |changes|, id);
    assert changes[..|changes|] == changes;
  }

  // ---------- the second import ----------

  lemma SnapshotIdsAreUnique(c: Codec, disk: Disk, s: Snapshot, now: Time, later: Time)
    requires Lawful(c) && Plan(c, disk, s, now).Success? && Incoming(c, s.records, later).Success?
    ensures UniqueIds(Incoming(c, s.records, later).value, s.tombstones)
  {
    hide Lawful, Incoming, Collect, Items, VerdictAt, At, Plan;
    var incoming := Incoming(c, s.records, later).value;
    DistinctIds(c, disk, s, now);
    IncomingLength(c, s.records, later);
    forall i | 0 <= i < |incoming|
      ensures incoming[i].record.id == IdAt(s, |s.tombstones| + i)
    {
      IncomingAt(c, s.records, later);
      EntryKeeps(c, s.records[i], later);
    }
    assert forall i :: 0 <= i < |s.tombstones| ==> s.tombstones[i].id == IdAt(s, i);
  }

  lemma WantedIsReadable(c: Codec, s: Snapshot, now: Time, k: nat, row: Option<Row>)
    requires Lawful(c) && Incoming(c, s.records, now).Success? && k < Count(s) && ReadableRow(c, row)
    requires !VerdictAt(c, s, now, k, row).Refuse?
    ensures var wanted := Outcome(row, VerdictAt(c, s, now, k, row));
      && ReadableRow(c, wanted)
      && (k >= |s.tombstones| ==> !(row.Some? && row.value.Gone?) && !(wanted.Some? && wanted.value.Gone?))
  {
    hide Lawful, Incoming, IncomingEntry, Comparable, RestoreRow;
    IncomingAt(c, s.records, now);
    var v := VerdictAt(c, s, now, k, row);
    if k >= |s.tombstones| && v.Write? {
      WrittenParses(c, s.records[k - |s.tombstones|], now, v.row.record.revision, None);
    }
  }

  /** Every row of a cut-short import is readable, and none that the snapshot has a record of is a deletion. */
  lemma CutShortIsSound(c: Codec, disk: Disk, s: Snapshot, now: Time, later: Time, writes: nat)
    requires Lawful(c) && Plan(c, disk, s, now).Success? && Incoming(c, s.records, later).Success?
    ensures var rows := CutShort(c, disk, s, now, writes).rows;
      && Readable(c, rows)
      && !Resurrects(rows, Incoming(c, s.records, later).value)
      && (forall k :: 0 <= k < Count(s) ==> ReadableRow(c, At(rows, IdAt(s, k))))
  {
    hide Lawful, Incoming, IncomingEntry, Collect, Items, VerdictAt, Outcome, CutShort, UniqueIds;
    var rows, incoming := CutShort(c, disk, s, now, writes).rows, Incoming(c, s.records, later).value;
    forall k | 0 <= k < Count(s)
      ensures ReadableRow(c, At(rows, IdAt(s, k)))
      ensures k >= |s.tombstones| ==> !(At(rows, IdAt(s, k)).Some? && At(rows, IdAt(s, k)).value.Gone?)
    {
      CutShortAt(c, disk, s, now, writes, k);
      WantedIsReadable(c, s, now, k, At(disk.rows, IdAt(s, k)));
    }
    forall id | id in rows && rows[id].Live?
      ensures c.parse(rows[id].record).Some?
    {
      if id in Ids(s) {
        var k :| 0 <= k < Count(s) && IdAt(s, k) == id;
        assert ReadableRow(c, At(rows, IdAt(s, k)));
      } else {
        OtherRowsStay(c, disk, s, now, writes, id);
      }
    }
    IncomingLength(c, s.records, later);
    forall i | 0 <= i < |incoming|
      ensures !(incoming[i].record.id in rows && rows[incoming[i].record.id].Gone?)
    {
      IncomingAt(c, s.records, later);
      EntryKeeps(c, s.records[i], later);
      assert !(At(rows, IdAt(s, |s.tombstones| + i)).Some? && At(rows, IdAt(s, |s.tombstones| + i)).value.Gone?);
    }
  }

  /** Importing the snapshot again is refused for too many rows or for an item, and for nothing else. */
  lemma SecondImportAcceptedExactly(c: Codec, disk: Disk, s: Snapshot, now: Time, later: Time, writes: nat)
    requires Lawful(c) && Plan(c, disk, s, now).Success?
    ensures Incoming(c, s.records, later).Success?
    ensures var middle := CutShort(c, disk, s, now, writes);
      Plan(c, middle, s, later).Success?
      <==> |middle.rows| <= MAX_HISTORY
           && forall k :: 0 <= k < Count(s) ==> !VerdictAt(c, s, later, k, At(middle.rows, IdAt(s, k))).Refuse?
  {
    hide Lawful, Incoming, Collect, Items, UniqueIds, Readable, Resurrects, VerdictAt, At, IdAt;
    var middle := CutShort(c, disk, s, now, writes);
    IncomingAgain(c, disk, s, now, later);
    SnapshotIdsAreUnique(c, disk, s, now, later);
    CutShortIsSound(c, disk, s, now, later, writes);
    var items := Items(c, middle.rows, s.tombstones, Incoming(c, s.records, later).value, later);
    forall k | 0 <= k < Count(s)
      ensures |items| == Count(s)
      ensures items[k] == Item(IdAt(s, k), VerdictAt(c, s, later, k, At(middle.rows, IdAt(s, k))))
    {
      ItemsAt(c, middle.rows, s, later, k);
    }
    CollectGives(items);
    ItemsCount(c, middle.rows, s, later);
  }

  // ---------- crash and resume ----------

  /**
   After an import that stopped after `writes` writes or at a refused one, importing the snapshot again
   completes and ends with the rows and the sequence mark that the first import intended, up to the
   time of the restore stamp.
   */
  ghost predicate Resumes(c: Codec, disk: Disk, s: Snapshot, now: Time, later: Time, writes: nat) {
    var middle, whole := CutShort(c, disk, s, now, writes), Intended(c, disk, s, now);
    && Completes(c, middle, s, later)
    && Finished(c, middle, s, later).highWater == whole.highWater
    && forall id :: SameUpToStamp(At(Finished(c, middle, s, later).rows, id), At(whole.rows, id))
  }

  lemma PlannedRowsAreReadable(c: Codec, disk: Disk, s: Snapshot, now: Time)
    ensures Plan(c, disk, s, now).Success? ==> forall id :: ReadableRow(c, At(disk.rows, id))
  {
  }

  /** Every item is met again as it was met first. */
  ghost predicate Steady(c: Codec, disk: Disk, s: Snapshot, now: Time, later: Time)
    requires Plan(c, disk, s, now).Success?
  {
    PlannedRowsAreReadable(c, disk, s, now);
    forall k :: 0 <= k < Count(s) ==> ItemSteady(c, s, k, At(disk.rows, IdAt(s, k)), now, later)
  }

  /** What a resumed import does with one item, whatever row the crash left. */
  lemma ResumedAt(c: Codec, disk: Disk, s: Snapshot, now: Time, later: Time, writes: nat, k: nat)
    requires Lawful(c) && Plan(c, disk, s, now).Success? && k < Count(s)
    requires Resumes(c, disk, s, now, later, writes)
    ensures Incoming(c, s.records, later).Success?
    ensures var id := IdAt(s, k);
      var row, left := At(disk.rows, id), At(CutShort(c, disk, s, now, writes).rows, id);
      Redone(c, left, VerdictAt(c, s, later, k, left), Outcome(row, VerdictAt(c, s, now, k, row)))
  {
    hide Lawful, Incoming, Plan, IdAt, VerdictAt, At, Outcome, CutShort, SameUpToStamp, Accepted, Taken;
    var middle := CutShort(c, disk, s, now, writes);
    SecondImportAcceptedExactly(c, disk, s, now, later, writes);
    CompletesExactly(c, middle, s, later);
    CompletedIsIntended(c, middle, s, later);
    CutShortAt(c, disk, s, now, writes, k);
    CutShortAt(c, middle, s, later, 0, k);
    assert SameUpToStamp(At(Finished(c, middle, s, later).rows, IdAt(s, k)),
                        At(Intended(c, disk, s, now).rows, IdAt(s, k)));
  }

  lemma SteadyResumes(c: Codec, disk: Disk, s: Snapshot, now: Time, later: Time, writes: nat)
    requires Lawful(c) && Plan(c, disk, s, now).Success?
    requires Steady(c, disk, s, now, later) && |disk.rows.Keys + Ids(s)| <= MAX_HISTORY
    ensures Resumes(c, disk, s, now, later, writes)
  {
    hide Lawful, Incoming, Plan, IdAt, VerdictAt, At, Outcome, CutShort, SameUpToStamp;
    hide ItemSteady, Ids, Accepted, Taken;
    var middle, whole := CutShort(c, disk, s, now, writes), Intended(c, disk, s, now);
    IncomingAgain(c, disk, s, now, later);
    PlannedRowsAreReadable(c, disk, s, now);
    forall k | 0 <= k < Count(s)
      ensures var left, row := At(middle.rows, IdAt(s, k)), At(disk.rows, IdAt(s, k));
        Redone(c, left, VerdictAt(c, s, later, k, left), Outcome(row, VerdictAt(c, s, now, k, row)))
    {
      CutShortAt(c, disk, s, now, writes, k);
      ItemResumesExactly(c, s, k, At(disk.rows, IdAt(s, k)), now, later);
    }
    RowsAreFew(c, disk, s, now, writes);
    SecondImportAcceptedExactly(c, disk, s, now, later, writes);
    CompletesExactly(c, middle, s, later);
    CompletedIsIntended(c, middle, s, later);
    forall id
      ensures SameUpToStamp(At(Finished(c, middle, s, later).rows, id), At(whole.rows, id))
    {
      if id in Ids(s) {
        var k := KOf(s, id);
        CutShortAt(c, disk, s, now, writes, k);
        CutShortAt(c, middle, s, later, 0, k);
      } else {
        OtherRowsStay(c, disk, s, now, writes, id);
        OtherRowsStay(c, middle, s, later, 0, id);
        SameIsSame(At(whole.rows, id));
      }
    }
  }

  ghost function KOf(s: Snapshot, id: Id): (k: nat)
    requires id in Ids(s)
    ensures k < Count(s) && IdAt(s, k) == id
  {
    var k :| 0 <= k < Count(s) && IdAt(s, k) == id;
    k
  }

  lemma SameIsSame(row: Option<Row>)
    ensures SameUpToStamp(row, row)
  {
  }

  /** A crash leaves at most the rows of device and snapshot; an import that completes leaves them all. */
  lemma RowsAreFew(c: Codec, disk: Disk, s: Snapshot, now: Time, writes: nat)
    requires Lawful(c) && Plan(c, disk, s, now).Success?
    ensures |CutShort(c, disk, s, now, writes).rows| <= |disk.rows.Keys + Ids(s)|
    ensures |Intended(c, disk, s, now).rows| == |disk.rows.Keys + Ids(s)|
  {
    hide Lawful, Incoming, Plan, CutShort, Intended, Ids, VerdictAt, IdAt;
    var middle, whole := CutShort(c, disk, s, now, writes), Intended(c, disk, s, now);
    IncomingAgain(c, disk, s, now, now);
    forall id
      ensures id in middle.rows ==> id in disk.rows.Keys + Ids(s)
      ensures id in whole.rows <==> id in disk.rows.Keys + Ids(s)
    {
      if id in Ids(s) {
        var k := KOf(s, id);
        CutShortAt(c, disk, s, now, writes, k);
        SkipsHaveRows(c, s, now, k, At(disk.rows, id));
      } else {
        OtherRowsStay(c, disk, s, now, writes, id);
      }
    }
    assert whole.rows.Keys == disk.rows.Keys + Ids(s);
    SubsetSize(middle.rows.Keys, disk.rows.Keys + Ids(s));
  }

  lemma SkipsHaveRows(c: Codec, s: Snapshot, now: Time, k: nat, row: Option<Row>)
    ensures k < Count(s) && Incoming(c, s.records, now).Success? && !VerdictAt(c, s, now, k, row).Refuse? ==>
      Outcome(row, VerdictAt(c, s, now, k, row)).Some?
  {
    hide Comparable, RestoreRow, Incoming;
  }

  /**
   Crash and resume, exactly: an import can be cut short at any write and finished by importing the
   snapshot again at another time precisely when the device has room for everything at once and every
   record and tombstone is taken by the storage and met again as it was met first.
   */
  lemma ResumeReachesTheSameStateExactly(c: Codec, disk: Disk, s: Snapshot, now: Time, later: Time)
    requires Lawful(c) && Plan(c, disk, s, now).Success?
    ensures (forall writes: nat :: Resumes(c, disk, s, now, later, writes))
      <==> |disk.rows.Keys + Ids(s)| <= MAX_HISTORY && Steady(c, disk, s, now, later)
  {
    hide Lawful, Incoming, Resumes, ItemSteady, VerdictAt, IdAt, Ids, At, Outcome, Written;
    if forall writes: nat :: Resumes(c, disk, s, now, later, writes) {
      assert Resumes(c, disk, s, now, later, 0);
      ResumedMeansTaken(c, disk, s, now, later);
      ResumedMeansSteady(c, disk, s, now, later);
    }
    if |disk.rows.Keys + Ids(s)| <= MAX_HISTORY && Steady(c, disk, s, now, later) {
      forall writes: nat
        ensures Resumes(c, disk, s, now, later, writes)
      {
        SteadyResumes(c, disk, s, now, later, writes);
      }
    }
  }

  /** If an import stopped at once can be finished later, the storage refuses none of its writes. */
  lemma ResumedMeansTaken(c: Codec, disk: Disk, s: Snapshot, now: Time, later: Time)
    ensures Lawful(c) && Plan(c, disk, s, now).Success? && Resumes(c, disk, s, now, later, 0) ==>
      Completes(c, disk, s, now)
  {
    hide Lawful, Incoming, Resumes, VerdictAt, IdAt, At, Outcome, Written, Plan, Redone, Taken;
    if Lawful(c) && Plan(c, disk, s, now).Success? && Resumes(c, disk, s, now, later, 0) {
      WritesOf(c, disk, s.mark, Plan(c, disk, s, now).value);
      PlannedRowsAreReadable(c, disk, s, now);
      IncomingAgain(c, disk, s, now, later);
      CompletesExactly(c, disk, s, now);
      forall k | 0 <= k < Count(s)
        ensures Taken(c, At(disk.rows, IdAt(s, k)), VerdictAt(c, s, now, k, At(disk.rows, IdAt(s, k))))
      {
        CutShortAt(c, disk, s, now, 0, k);
        ResumedAt(c, disk, s, now, later, 0, k);
        ItemResumesExactly(c, s, k, At(disk.rows, IdAt(s, k)), now, later);
      }
    }
  }

  lemma ResumedHasRoom(c: Codec, disk: Disk, s: Snapshot, now: Time, later: Time)
    ensures Completes(c, disk, s, now) && Resumes(c, disk, s, now, later, |Plan(c, disk, s, now).value| + 1) ==>
      |Intended(c, disk, s, now).rows| <= MAX_HISTORY
  {
    hide Accepted, Intended;
    CompletedIsIntended(c, disk, s, now);
  }

  /** No write, and only the sequence mark. */
  lemma WritesOf(c: Codec, disk: Disk, mark: Mark, changes: seq<Change>)
    ensures Written(c, disk, mark, changes, 0) == disk
    ensures Written(c, disk, mark, changes, 1) == Disk(disk.rows, Some(mark))
  {
    NothingPut(disk.rows, changes);
  }

  lemma ResumedMeansSteady(c: Codec, disk: Disk, s: Snapshot, now: Time, later: Time)
    ensures
      Lawful(c) && Completes(c, disk, s, now) && (forall writes: nat :: Resumes(c, disk, s, now, later, writes)) ==>
        |disk.rows.Keys + Ids(s)| <= MAX_HISTORY && Steady(c, disk, s, now, later)
  {
    hide Lawful, Incoming, Resumes, ItemSteady, VerdictAt, IdAt, Ids, At, Outcome, Written, Redone;
    if Lawful(c) && Completes(c, disk, s, now) && (forall writes: nat :: Resumes(c, disk, s, now, later, writes)) {
      var all := |Plan(c, disk, s, now).value| + 1;
      assert Resumes(c, disk, s, now, later, 0) && Resumes(c, disk, s, now, later, all);
      CompletedIsIntended(c, disk, s, now);
      RowsAreFew(c, disk, s, now, 0);
      ResumedHasRoom(c, disk, s, now, later);
      PlannedRowsAreReadable(c, disk, s, now);
      WritesOf(c, disk, s.mark, Plan(c, disk, s, now).value);
      forall k | 0 <= k < Count(s)
        ensures ItemSteady(c, s, k, At(disk.rows, IdAt(s, k)), now, later)
      {
        ResumedAt(c, disk, s, now, later, 0, k);
        ResumedAt(c, disk, s, now, later, all, k);
        CutShortAt(c, disk, s, now, all, k);
        ItemResumesExactly(c, s, k, At(disk.rows, IdAt(s, k)), now, later);
      }
    }
  }

  // ---------- when nothing moves ----------

  /** Reading the stored record, as it is or as if it came from a backup, changes nothing. */
  ghost predicate QuietRow(c: Codec, row: Option<Row>, later: Time) {
    row.Some? && row.value.Live? && c.parse(row.value.record).Some? ==>
      var stored := c.parse(row.value.record).value;
      !Moves(c, stored, later) && (Backup(c, stored).Some? ==> !Moves(c, Backup(c, stored).value, later))
  }

  /** No quote of device or snapshot expires by then, and nothing of either is to be quarantined. */
  ghost predicate Quiet(c: Codec, disk: Disk, s: Snapshot, later: Time) {
    && (forall k :: 0 <= k < Count(s) ==> QuietRow(c, At(disk.rows, IdAt(s, k)), later))
    && (forall i :: 0 <= i < |s.records| && Backup(c, s.records[i]).Some? ==>
          QuietBackup(c, Backup(c, s.records[i]).value, later))
  }

  predicate QuietBackup(c: Codec, p: Record, later: Time) {
    !Moves(c, p, later) && p.state != Reorged
  }

  lemma StillUntilThen(c: Codec, p: Record, now: Time, later: Time)
    ensures now <= later && !Moves(c, p, later) ==> !Moves(c, p, now)
  {
  }

  function Bare(r: Record): Record {
    r.(revision := 0, predecessor := None)
  }

  /** A record that reading does not change is compared as it is, but for stamp and revision. */
  lemma ComparableOf(c: Codec, p: Record, now: Time)
    ensures Backup(c, p).None? ==> Comparable(c, p, now).None?
    ensures Backup(c, p).Some? && !Moves(c, Backup(c, p).value, now) ==>
      Comparable(c, p, now) == Some(Bare(MarkRestoredVerifyOnly(Backup(c, p).value, now)))
  {
  }

  /** Whether two records compare equal does not depend on the time while reading changes neither. */
  lemma ComparisonIsTimelessWhenQuiet(c: Codec, x: Record, y: Record, now: Time, later: Time)
    requires Backup(c, x).Some? ==> ReadsAlike(c, Backup(c, x).value, now, later)
    requires Backup(c, y).Some? ==> ReadsAlike(c, Backup(c, y).value, now, later)
    ensures Comparable(c, x, now) == Comparable(c, y, now) <==> Comparable(c, x, later) == Comparable(c, y, later)
  {
    hide Comparable, Moves, MarkRestoredVerifyOnly, Backup, Bare;
    if now != later {
      forall r, t | (r == x || r == y) && (t == now || t == later)
        ensures Backup(c, r).None? ==> Comparable(c, r, t).None?
        ensures Backup(c, r).Some? ==>
          Comparable(c, r, t) == Some(Bare(MarkRestoredVerifyOnly(Backup(c, r).value, t)))
      {
        ComparableOf(c, r, t);
      }
      if Backup(c, x).Some? && Backup(c, y).Some? {
        MarksAgree(Backup(c, x).value, Backup(c, y).value, now, later);
      }
    }
  }

  lemma MarksAgree(x: Record, y: Record, now: Time, later: Time)
    ensures Bare(MarkRestoredVerifyOnly(x, now)) == Bare(MarkRestoredVerifyOnly(y, now))
      <==> Bare(MarkRestoredVerifyOnly(x, later)) == Bare(MarkRestoredVerifyOnly(y, later))
  {
    forall r | r == x || r == y
      ensures Bare(MarkRestoredVerifyOnly(r, later)) == Bare(MarkRestoredVerifyOnly(r, now)).(observedAt := later)
      ensures Bare(MarkRestoredVerifyOnly(r, now)) == Bare(MarkRestoredVerifyOnly(r, later)).(observedAt := now)
    {
    }
  }

  /** It does depend on the time otherwise: a quote and a review of it differ until both have expired. */
  lemma ExpiryHidesADifference()
    ensures var c, quoted := SampleCodec(),
        Blank(7).(state := Quoted, quoteExpiresAt := 200, reservationExpiresAt := 200);
      var reviewed := quoted.(state := Reviewing);
      Comparable(c, quoted, 180) != Comparable(c, reviewed, 180)
      && Comparable(c, quoted, 210) == Comparable(c, reviewed, 210)
  {
  }

  /** How the snapshot's record compares while nothing about it moves. */
  lemma QuietEntryComparable(c: Codec, raw: Record, now: Time)
    requires Lawful(c) && IncomingEntry(c, raw, now).Some? && QuietBackup(c, Backup(c, raw).value, now)
    ensures Comparable(c, IncomingEntry(c, raw, now).value.record, now)
         == Some(Bare(MarkRestoredVerifyOnly(Backup(c, raw).value, now)))
  {
    hide Lawful, Comparable;
    WrittenParses(c, raw, now, IncomingEntry(c, raw, now).value.record.revision,
                  IncomingEntry(c, raw, now).value.record.predecessor);
    ComparableOfRestored(c, IncomingEntry(c, raw, now).value.record, now);
    MarkingMoves(c, raw, now, now);
    JudgedAlike(c, MarkRestoredVerifyOnly(Backup(c, raw).value, now),
                MarkRestoredVerifyOnly(Backup(c, raw).value, now).(predecessor := None), now);
  }

  lemma QuietRecordIsSteady(c: Codec, row: Option<Row>, raw: Record, now: Time, later: Time)
    requires Lawful(c) && now <= later && ReadableRow(c, row)
    requires IncomingEntry(c, raw, now).Some? && IncomingEntry(c, raw, later).Some? && Backup(c, raw).Some?
    requires !RecordVerdict(c, row, IncomingEntry(c, raw, now).value, now).Refuse?
    requires Taken(c, row, RecordVerdict(c, row, IncomingEntry(c, raw, now).value, now))
    requires QuietRow(c, row, later) && QuietBackup(c, Backup(c, raw).value, later)
    ensures RecordSteady(c, row, raw, now, later)
  {
    hide Lawful, Comparable, IncomingEntry, LacksReorgSignal, Lapsed, Taken, Accepts, Replaceable;
    EntryKeeps(c, raw, now);
    SavedAlike(c, row, IncomingEntry(c, raw, now).value.record, Core(IncomingEntry(c, raw, now).value.record));
    if RecordVerdict(c, row, IncomingEntry(c, raw, now).value, now).Write? {
      RecordTakenExactly(c, row, raw, now);
    }
    var b := Backup(c, raw).value;
    StillUntilThen(c, b, now, later);
    BackupIsRestored(c, raw);
    QuietMark(c, raw, now, later);
    if row.Some? && row.value.Live? {
      var stored := c.parse(row.value.record).value;
      StillUntilThen(c, stored, now, later);
      if stored.updatedAt == b.updatedAt {
        EntryKeeps(c, raw, later);
        QuietEntryComparable(c, raw, now);
        QuietEntryComparable(c, raw, later);
        ComparableOf(c, stored, now);
        ComparableOf(c, stored, later);
        if Backup(c, stored).Some? {
          StillUntilThen(c, Backup(c, stored).value, now, later);
          MarksAgree(Backup(c, stored).value, b, now, later);
        }
      }
    }
  }

  lemma QuietMark(c: Codec, raw: Record, now: Time, later: Time)
    requires Lawful(c) && Backup(c, raw).Some? && QuietBackup(c, Backup(c, raw).value, later)
    ensures !Moves(c, MarkRestoredVerifyOnly(Backup(c, raw).value, now), later)
  {
    hide Lawful;
    MarkingMoves(c, raw, now, later);
  }

  /**
   In a quiet time the only obstacle is room: if no quote involved expires by the later import and
   nothing is to be quarantined, an import that would complete can be cut short and finished exactly
   when everything fits.
   */
  lemma QuietImportsResumeExactly(c: Codec, disk: Disk, s: Snapshot, now: Time, later: Time)
    requires Lawful(c) && Plan(c, disk, s, now).Success?
    requires now <= later && Quiet(c, disk, s, later)
    ensures (forall writes: nat :: Resumes(c, disk, s, now, later, writes))
      <==> |disk.rows.Keys + Ids(s)| <= MAX_HISTORY && Completes(c, disk, s, now)
  {
    hide Lawful, Incoming, Resumes, Quiet, Completes, Steady, Plan;
    ResumeReachesTheSameStateExactly(c, disk, s, now, later);
    if Completes(c, disk, s, now) {
      QuietIsSteady(c, disk, s, now, later);
    }
    if forall writes: nat :: Resumes(c, disk, s, now, later, writes) {
      assert Resumes(c, disk, s, now, later, 0);
      ResumedMeansTaken(c, disk, s, now, later);
    }
  }

  lemma QuietIsSteady(c: Codec, disk: Disk, s: Snapshot, now: Time, later: Time)
    ensures Lawful(c) && Completes(c, disk, s, now) && now <= later && Quiet(c, disk, s, later) ==>
      Steady(c, disk, s, now, later)
  {
    hide Lawful, Incoming, IncomingEntry, QuietRow, QuietBackup, TombstoneVerdict, RecordVerdict, At, Plan;
    hide RecordSteady, TombstoneSteady, Taken;
    if Lawful(c) && Completes(c, disk, s, now) && now <= later && Quiet(c, disk, s, later) {
      IncomingAgain(c, disk, s, now, later);
      IncomingAt(c, s.records, now);
      IncomingAt(c, s.records, later);
      PlannedRowsAreReadable(c, disk, s, now);
      CompletesExactly(c, disk, s, now);
      forall k | 0 <= k < Count(s)
        ensures ItemSteady(c, s, k, At(disk.rows, IdAt(s, k)), now, later)
      {
        CutShortAt(c, disk, s, now, 0, k);
        var row := At(disk.rows, IdAt(s, k));
        assert Taken(c, row, VerdictAt(c, s, now, k, row));
        if k < |s.tombstones| {
          QuietTombstoneIsSteady(c, row, s.tombstones[k], now, later);
        } else {
          EntryKeeps(c, s.records[k - |s.tombstones|], now);
          QuietRecordIsSteady(c, row, s.records[k - |s.tombstones|], now, later);
        }
      }
    }
  }

  lemma QuietTombstoneIsSteady(c: Codec, row: Option<Row>, t: Tombstone, now: Time, later: Time)
    requires now <= later && ReadableRow(c, row) && QuietRow(c, row, later)
    requires !TombstoneVerdict(c, row, t, now).Refuse? && Taken(c, row, TombstoneVerdict(c, row, t, now))
    ensures TombstoneSteady(c, row, t, later)
  {
    if row.Some? && row.value.Live? {
      StillUntilThen(c, c.parse(row.value.record).value, now, later);
    }
  }

  // ---------- when it cannot be resumed ----------

  /** A write the storage does not take over the device's row leaves that row as it is, however long the import runs. */
  lemma RefusedRowStays(c: Codec, disk: Disk, s: Snapshot, now: Time, writes: nat, k: nat)
    requires Lawful(c) && Plan(c, disk, s, now).Success? && k < Count(s) && Incoming(c, s.records, now).Success?
    requires var row := At(disk.rows, IdAt(s, k)); !Taken(c, row, VerdictAt(c, s, now, k, row))
    ensures !Completes(c, disk, s, now)
    ensures At(CutShort(c, disk, s, now, writes).rows, IdAt(s, k)) == At(disk.rows, IdAt(s, k))
  {
    hide Lawful, Put, Collect, Items, At, Incoming, UniqueIds, UniqueItems, IdAt, VerdictAt, Accepted, Accepts;
    var items, changes, id := PlanItems(c, disk, s, now), Plan(c, disk, s, now).value, IdAt(s, k);
    CompletesExactly(c, disk, s, now);
    DistinctIds(c, disk, s, now);
    CollectIsUnique(items);
    CollectGives(items);
    ItemsCount(c, disk.rows, s, now);
    ItemsAt(c, disk.rows, s, now, k);
    var n := if writes == 0 then 0 else Done(c, disk.rows, changes, writes - 1);
    AllTaken(c, disk.rows, changes, n);
    forall j | 0 <= j < n
      ensures changes[..n][j].id != id
    {
      assert changes[j] in changes;
      var i :| 0 <= i < |items| && items[i] == Item(changes[j].id, Write(changes[j].row));
      if changes[j].id == id {
        SameIndex(items, i, k);
      }
    }
    NothingPut(disk.rows, changes);
    PutAt(disk.rows, changes[..n], id);
  }

  lemma SameIndex(items: seq<Item>, j: nat, k: nat)
    ensures UniqueItems(items) && j < |items| && k < |items| && items[j].id == items[k].id ==> j == k
  {
  }

  lemma AllTaken(c: Codec, rows: map<Id, Row>, changes: seq<Change>, n: nat)
    requires UniqueChanges(changes) && n <= Accepted(c, rows, changes)
    ensures n <= |changes|
    ensures forall j :: 0 <= j < n ==> Accepts(c, At(rows, changes[j].id), changes[j].row)
  {
    hide Accepts, Put, At;
    forall j | 0 <= j < n
      ensures Accepts(c, At(rows, changes[j].id), changes[j].row)
    {
      assert AcceptsAt(c, rows, changes, j);
      assert forall m :: 0 <= m < j ==> changes[..j][m].id == changes[m].id;
      PutAt(rows, changes[..j], changes[j].id);
    }
  }

  /**
   A stored row that expires or is quarantined on being read gets a revision that the storage does
   not have, so no record is ever written over it: the import fails after raising the sequence mark.
   */
  lemma MovedRowBlocksImport(c: Codec, disk: Disk, s: Snapshot, now: Time, writes: nat, i: nat)
    requires Lawful(c) && Plan(c, disk, s, now).Success? && i < |s.records|
    requires var row := At(disk.rows, s.records[i].id);
      row.Some? && row.value.Live? && c.parse(row.value.record).Some?
      && Moves(c, c.parse(row.value.record).value, now) && now < s.records[i].updatedAt
    ensures !Completes(c, disk, s, now)
    ensures At(CutShort(c, disk, s, now, writes).rows, s.records[i].id) == At(disk.rows, s.records[i].id)
  {
    hide Lawful, Incoming, IncomingEntry, Plan, Completes, CutShort, Moves, Accepts, Taken;
    var k := |s.tombstones| + i;
    IncomingAgain(c, disk, s, now, now);
    IncomingAt(c, s.records, now);
    EntryKeeps(c, s.records[i], now);
    assert IdAt(s, k) == s.records[i].id;
    RecordTakenExactly(c, At(disk.rows, s.records[i].id), s.records[i], now);
    RefusedRowStays(c, disk, s, now, writes, k);
  }

  /** An import of one record completes exactly if the storage takes it. */
  lemma OneRecordCompletes(c: Codec, disk: Disk, mark: Mark, raw: Record, now: Time)
    requires Lawful(c) && IncomingEntry(c, raw, now).Some? && disk.highWater.None?
    requires |disk.rows| <= MAX_HISTORY && Readable(c, disk.rows)
    requires !RecordVerdict(c, At(disk.rows, raw.id), IncomingEntry(c, raw, now).value, now).Refuse?
    ensures var s := Snapshot(mark, [raw], []);
      var v := RecordVerdict(c, At(disk.rows, raw.id), IncomingEntry(c, raw, now).value, now);
      && Plan(c, disk, s, now) == ChangesOf(Item(raw.id, v))
      && (Completes(c, disk, s, now) <==> Taken(c, At(disk.rows, raw.id), v))
  {
    hide Lawful, IncomingEntry, RecordVerdict, Completes, Taken, Readable, Plan;
    var s := Snapshot(mark, [raw], []);
    EntryKeeps(c, raw, now);
    OneRecordPlan(c, disk, mark, raw, now);
    IncomingAt(c, s.records, now);
    CompletesExactly(c, disk, s, now);
    assert VerdictAt(c, s, now, 0, At(disk.rows, raw.id))
        == RecordVerdict(c, At(disk.rows, raw.id), IncomingEntry(c, raw, now).value, now);
    assert IdAt(s, 0) == raw.id;
  }

  lemma IntendedMark(c: Codec, disk: Disk, s: Snapshot, now: Time)
    ensures Plan(c, disk, s, now).Success? ==> Intended(c, disk, s, now).highWater == Some(s.mark)
  {
    hide Plan;
  }

  /** A full device takes a snapshot with one new record once, and never again. */
  lemma FullDeviceCannotResume(c: Codec, disk: Disk, record: Record, mark: Mark, now: Time)
    requires Lawful(c) && |disk.rows| == MAX_HISTORY && Readable(c, disk.rows) && disk.highWater.None?
    requires record.id !in disk.rows && IncomingEntry(c, record, now).Some?
    requires c.saves(IncomingEntry(c, record, now).value.record)
    ensures var s := Snapshot(mark, [record], []);
      && Completes(c, disk, s, now)
      && Plan(c, Finished(c, disk, s, now), s, now) == Failure(TooManyLocal)
  {
    hide Lawful, IncomingEntry, Comparable, CutShort, Intended, Ids, Completes, Accepts, Moves;
    var s := Snapshot(mark, [record], []);
    EntryKeeps(c, record, now);
    RecordTakenExactly(c, None, record, now);
    OneRecordCompletes(c, disk, mark, record, now);
    CompletedIsIntended(c, disk, s, now);
    RowsAreFew(c, disk, s, now, 0);
    assert IdAt(s, 0) == record.id;
    SnapshotIds(s, 0);
    SubsetSize(disk.rows.Keys + {record.id}, disk.rows.Keys + Ids(s));
    assert Intended(c, disk, s, now).highWater == Some(mark) by { IntendedMark(c, disk, s, now); }
    IncomingAgain(c, disk, s, now, now);
    SnapshotIdsAreUnique(c, disk, s, now, now);
  }

  lemma SnapshotIds(s: Snapshot, k: nat)
    ensures k < Count(s) ==> IdAt(s, k) in Ids(s)
  {
  }

  /** A backup quote already expired when it is first imported is stamped anew by every later import. */
  lemma ExpiredBackupQuoteCannotResume(c: Codec, disk: Disk, s: Snapshot, now: Time, later: Time, i: nat)
    requires Lawful(c) && Plan(c, disk, s, now).Success? && now < later
    requires i < |s.records| && s.records[i].id !in disk.rows
    requires IncomingEntry(c, s.records[i], now).Some? && Lapsed(Backup(c, s.records[i]).value, now)
    ensures !(forall writes: nat :: Resumes(c, disk, s, now, later, writes))
  {
    hide Lawful, Incoming, Resumes, Plan;
    ResumeReachesTheSameStateExactly(c, disk, s, now, later);
    PlannedRowsAreReadable(c, disk, s, now);
    IncomingAgain(c, disk, s, now, later);
    var k := |s.tombstones| + i;
    assert IdAt(s, k) == s.records[i].id;
    assert !ItemSteady(c, s, k, At(disk.rows, IdAt(s, k)), now, later);
  }

  /**
   With one row on the device: its quote expires at 200, the backup holds the RFQ as it was at 150. An
   import at 180 takes the backup row, but cut short after the sequence mark and run again at 210 it
   keeps the device's row, which now reads as expired at 210.
   */
  lemma LapsedDeviceQuoteCannotResume()
    ensures var c := SampleCodec();
      var stored := Blank(7).(updatedAt := 100, state := Quoted, quoteExpiresAt := 200, reservationExpiresAt := 200);
      var disk, s := Disk(map[7 := Live(stored)], None), Snapshot(Mark(1, 1), [Blank(7).(updatedAt := 150)], []);
      && Completes(c, disk, s, 180)
      && !Resumes(c, disk, s, 180, 210, 1)
  {
    hide Plan, Written, Incoming, Redone, Outcome, RecordVerdict, Resumes, SampleCodec, IncomingEntry, Taken, Completes;
    var c := SampleCodec();
    var stored := Blank(7).(updatedAt := 100, state := Quoted, quoteExpiresAt := 200, reservationExpiresAt := 200);
    var raw := Blank(7).(updatedAt := 150);
    var disk, s := Disk(map[7 := Live(stored)], None), Snapshot(Mark(1, 1), [raw], []);
    assert disk.rows.Keys == {7};
    LawfulCodecExists();
    KeptInstead();
    OneRecordCompletes(c, disk, s.mark, raw, 180);
    if Resumes(c, disk, s, 180, 210, 1) {
      WritesOf(c, disk, s.mark, Plan(c, disk, s, 180).value);
      ResumedAt(c, disk, s, 180, 210, 1, 0);
      IncomingAgain(c, disk, s, 180, 210);
      IncomingAt(c, s.records, 180);
      IncomingAt(c, s.records, 210);
      assert false;
    }
  }

  lemma KeptInstead()
    ensures var raw := Blank(7).(updatedAt := 150);
      var stored := Blank(7).(updatedAt := 100, state := Quoted, quoteExpiresAt := 200, reservationExpiresAt := 200);
      var c, row := SampleCodec(), Some(Live(stored));
      && c.parse(stored).Some?
      && IncomingEntry(c, raw, 180).Some? && IncomingEntry(c, raw, 210).Some?
      && IncomingEntry(c, raw, 180).value.record.id == 7
      && RecordVerdict(c, row, IncomingEntry(c, raw, 180).value, 180).Write?
      && Taken(c, row, RecordVerdict(c, row, IncomingEntry(c, raw, 180).value, 180))
      && !Redone(c, row, RecordVerdict(c, row, IncomingEntry(c, raw, 210).value, 210),
                 Outcome(row, RecordVerdict(c, row, IncomingEntry(c, raw, 180).value, 180)))
  {
  }
}
