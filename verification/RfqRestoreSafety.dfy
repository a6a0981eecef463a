/** What every restore keeps, wherever it is cut short. */
module RfqRestoreSafety {
  import opened Wrappers
  import opened RfqRestore

  /** What storage holds under an id once a verdict about it is carried out. */
  function Outcome(row: Option<Row>, v: Verdict): Option<Row> {
    if v.Write? then Some(Durable(v.row)) else row
  }

  ghost predicate UniqueItems(items: seq<Item>) {
    forall i, j :: 0 <= i < j < |items| ==> items[i].id != items[j].id
  }

  ghost predicate NoRefusal(items: seq<Item>) {
    forall i :: 0 <= i < |items| ==> !items[i].verdict.Refuse?
  }

  ghost predicate Listed(items: seq<Item>, ch: Change) {
    exists i :: 0 <= i < |items| && items[i] == Item(ch.id, Write(ch.row))
  }

  /** Collecting succeeds exactly when nothing is refused, and gives exactly the writes. */
  lemma {:induction false} CollectGives(items: seq<Item>)
    ensures Collect(items).Success? <==> NoRefusal(items)
    ensures Collect(items).Success? ==> forall ch :: ch in Collect(items).value <==> Listed(items, ch)
  {
    if items == [] {
    } else {
      var rest := items[1..];
      CollectGives(rest);
      assert items == [items[0]] + rest;
      if NoRefusal(items) {
        assert forall i :: 0 <= i < |rest| ==> rest[i] == items[i + 1];
        assert NoRefusal(rest);
        forall ch
          ensures ch in Collect(items).value <==> Listed(items, ch)
        {
          if Listed(rest, ch) {
            var i :| 0 <= i < |rest| && rest[i] == Item(ch.id, Write(ch.row));
            assert items[i + 1] == Item(ch.id, Write(ch.row));
          }
          if items[0] == Item(ch.id, Write(ch.row)) {
            assert Listed(items, ch);
          }
        }
      } else if !items[0].verdict.Refuse? {
        assert !NoRefusal(rest) by {
          var i :| 0 <= i < |items| && items[i].verdict.Refuse?;
          assert rest[i - 1] == items[i];
        }
      }
    }
  }

  ghost predicate UniqueChanges(changes: seq<Change>) {
    forall i, j :: 0 <= i < j < |changes| ==> changes[i].id != changes[j].id
  }

  lemma {:induction false} CollectIsUnique(items: seq<Item>)
    requires UniqueItems(items) && Collect(items).Success?
    ensures UniqueChanges(Collect(items).value)
  {
    if items == [] {
    } else {
      var rest := items[1..];
      assert forall i :: 0 <= i < |rest| ==> rest[i] == items[i + 1];
      CollectIsUnique(rest);
      CollectGives(rest);
      var tail := Collect(rest).value;
      forall i | 0 <= i < |tail|
        ensures tail[i].id != items[0].id
      {
        assert tail[i] in tail;
        var k :| 0 <= k < |rest| && rest[k] == Item(tail[i].id, Write(tail[i].row));
        assert items[k + 1].id == tail[i].id;
      }
    }
  }

  lemma {:induction false} PutAt(rows: map<Id, Row>, changes: seq<Change>, id: Id)
    requires UniqueChanges(changes)
    ensures (forall j :: 0 <= j < |changes| ==> changes[j].id != id) ==> At(Put(rows, changes), id) == At(rows, id)
    ensures forall j :: 0 <= j < |changes| && changes[j].id == id ==>
      At(Put(rows, changes), id) == Some(Durable(changes[j].row))
  {
    if changes == [] {
    } else {
      PutAt(rows, changes[..|changes| - 1], id);
    }
  }

  /**
   The rows after any prefix of the changes: each item's row is still the old one or already its
   outcome, with all changes written it is the outcome, and every other row is untouched.
   */
  lemma PrefixAt(rows: map<Id, Row>, items: seq<Item>, n: nat, k: nat)
    requires UniqueItems(items) && Collect(items).Success? && n <= |Collect(items).value| && k < |items|
    ensures var now := At(Put(rows, Collect(items).value[..n]), items[k].id);
      && (now == At(rows, items[k].id) || now == Outcome(At(rows, items[k].id), items[k].verdict))
      && (n == |Collect(items).value| ==> now == Outcome(At(rows, items[k].id), items[k].verdict))
  {
    hide Put, At;
    var changes, id := Collect(items).value, items[k].id;
    CollectIsUnique(items);
    CollectGives(items);
    PutAt(rows, changes[..n], id);
    forall j | 0 <= j < |changes| && changes[j].id == id
      ensures items[k].verdict == Write(changes[j].row)
    {
      assert changes[j] in changes;
      var i :| 0 <= i < |items| && items[i] == Item(changes[j].id, Write(changes[j].row));
      assert i == k;
    }
    if items[k].verdict.Write? {
      var ch := Change(id, items[k].verdict.row);
      assert Listed(items, ch);
      assert ch in changes;
    }
    if exists j :: 0 <= j < n && changes[j].id == id {
      var j :| 0 <= j < n && changes[j].id == id;
      assert changes[..n][j] == changes[j];
    } else {
      assert forall j :: 0 <= j < |changes[..n]| ==> changes[..n][j].id != id;
    }
  }

  lemma OthersAt(rows: map<Id, Row>, items: seq<Item>, n: nat, id: Id)
    requires UniqueItems(items) && Collect(items).Success? && n <= |Collect(items).value|
    requires forall k :: 0 <= k < |items| ==> items[k].id != id
    ensures At(Put(rows, Collect(items).value[..n]), id) == At(rows, id)
  {
    hide Put, At;
    var changes := Collect(items).value;
    CollectIsUnique(items);
    CollectGives(items);
    forall j | 0 <= j < n
      ensures changes[..n][j].id != id
    {
      assert changes[j] in changes;
    }
    PutAt(rows, changes[..n], id);
  }

  // ---------- the shape of a plan ----------

  lemma {:induction false} IncomingAt(c: Codec, records: seq<Record>, now: Time)
    ensures Incoming(c, records, now).Success? <==>
      forall i :: 0 <= i < |records| ==> IncomingEntry(c, records[i], now).Some?
    ensures Incoming(c, records, now).Success? ==>
      && |Incoming(c, records, now).value| == |records|
      && forall i :: 0 <= i < |records| ==>
           Incoming(c, records, now).value[i] == IncomingEntry(c, records[i], now).value
  {
    hide IncomingEntry;
    if records == [] {
    } else {
      var rest := records[1..];
      IncomingAt(c, rest, now);
      assert forall i :: 0 <= i < |rest| ==> rest[i] == records[i + 1];
      if forall i :: 0 <= i < |records| ==> IncomingEntry(c, records[i], now).Some? {
        assert forall i :: 0 <= i < |rest| ==> IncomingEntry(c, rest[i], now).Some?;
      }
    }
  }

  lemma ItemsAreUnique(c: Codec, rows: map<Id, Row>, tombstones: seq<Tombstone>, incoming: seq<Entry>, now: Time)
    ensures UniqueIds(incoming, tombstones) ==> UniqueItems(Items(c, rows, tombstones, incoming, now))
  {
    hide TombstoneVerdict, RecordVerdict;
  }

  ghost function PlanItems(c: Codec, disk: Disk, s: Snapshot, now: Time): seq<Item>
    requires Plan(c, disk, s, now).Success?
  {
    Items(c, disk.rows, s.tombstones, Incoming(c, s.records, now).value, now)
  }

  // ---------- every prefix of every restore ----------

  /** A deletion stays as it is, and a record stays or is deleted. */
  ghost predicate Advances(before: Option<Row>, after: Option<Row>) {
    match before
    case None => true
    case Some(Gone(_, _)) => after == before
    case Some(Live(_)) => after.Some?
  }

  /** A record that stays gets no older. */
  ghost predicate KeepsPace(before: Option<Row>, after: Option<Row>) {
    before.Some? && before.value.Live? && after.Some? && after.value.Live? ==>
      before.value.record.updatedAt <= after.value.record.updatedAt
  }

  ghost predicate HighWaterAdvances(before: Option<Mark>, after: Option<Mark>) {
    before.None? || (after.Some? && (before == after || before.value.seqNo < after.value.seqNo))
  }

  ghost predicate DiskAdvances(before: Disk, after: Disk) {
    && HighWaterAdvances(before.highWater, after.highWater)
    && forall id :: Advances(At(before.rows, id), At(after.rows, id))
  }

  ghost predicate NeverOlder(before: Disk, after: Disk) {
    forall id :: KeepsPace(At(before.rows, id), At(after.rows, id))
  }

  ghost predicate DatedRow(row: Option<Row>, time: Time) {
    row.Some? && row.value.Live? ==> row.value.record.updatedAt <= time
  }

  /** No stored record is dated ahead of the clock. */
  ghost predicate Dated(rows: map<Id, Row>, time: Time) {
    forall id :: DatedRow(At(rows, id), time)
  }

  /** The backup row as parsed, before the clock judges it. */
  function Backup(c: Codec, raw: Record): Option<Record> {
    Parsed(c, Strip(raw), true)
  }

  lemma VerdictAdvances(c: Codec, row: Option<Row>, t: Tombstone, e: Entry, now: Time)
    ensures Advances(row, Outcome(row, TombstoneVerdict(c, row, t, now)))
    ensures Advances(row, Outcome(row, RecordVerdict(c, row, e, now)))
  {
    hide Comparable, RestoreRow;
  }

  /**
   When the record that replaces a stored one is not older than it: the time a backup row is read
   with is the clock's if reading expires or quarantines it, so a stored row dated ahead of the
   clock can be replaced by an older one.
   */
  lemma ReplacementAgesForwardExactly(c: Codec, stored: Record, raw: Record, now: Time)
    requires Lawful(c) && IncomingEntry(c, raw, now).Some?
    requires RecordVerdict(c, Some(Live(stored)), IncomingEntry(c, raw, now).value, now).Write?
    ensures var row := Some(Live(stored));
      KeepsPace(row, Outcome(row, RecordVerdict(c, row, IncomingEntry(c, raw, now).value, now)))
      <==> stored.updatedAt <= if Moves(c, Backup(c, raw).value, now) then now else raw.updatedAt
  {
    hide Comparable, Moves;
  }

  lemma ReplacementIsDated(c: Codec, row: Option<Row>, raw: Record, now: Time)
    requires Lawful(c) && IncomingEntry(c, raw, now).Some? && DatedRow(row, now)
    ensures var after := Outcome(row, RecordVerdict(c, row, IncomingEntry(c, raw, now).value, now));
      KeepsPace(row, after) && (raw.updatedAt <= now ==> DatedRow(after, now))
  {
    hide Comparable, Moves;
  }

  lemma ItemAdvances(c: Codec, disk: Disk, s: Snapshot, now: Time, k: nat)
    ensures Plan(c, disk, s, now).Success? && k < |PlanItems(c, disk, s, now)| ==>
      var item := PlanItems(c, disk, s, now)[k];
      Advances(At(disk.rows, item.id), Outcome(At(disk.rows, item.id), item.verdict))
  {
    hide TombstoneVerdict, RecordVerdict, Advances, Outcome, At, Incoming, Collect;
    if Plan(c, disk, s, now).Success? && k < |PlanItems(c, disk, s, now)| {
      var incoming := Incoming(c, s.records, now).value;
      var id := PlanItems(c, disk, s, now)[k].id;
      if k < |s.tombstones| {
        VerdictAdvances(c, At(disk.rows, id), s.tombstones[k], Entry(Blank(id), 1), now);
      } else {
        VerdictAdvances(c, At(disk.rows, id), Tombstone(id, 0, 0), incoming[k - |s.tombstones|], now);
      }
    }
  }

  lemma ItemKeepsPace(c: Codec, disk: Disk, s: Snapshot, now: Time, k: nat)
    ensures Lawful(c) && Plan(c, disk, s, now).Success? && k < |PlanItems(c, disk, s, now)| && Dated(disk.rows, now) ==>
      var item := PlanItems(c, disk, s, now)[k];
      var after := Outcome(At(disk.rows, item.id), item.verdict);
      && KeepsPace(At(disk.rows, item.id), after)
      && ((forall i :: 0 <= i < |s.records| ==> s.records[i].updatedAt <= now) ==> DatedRow(after, now))
  {
    hide Lawful, RecordVerdict, At, Incoming, Collect, IncomingEntry;
    if Lawful(c) && Plan(c, disk, s, now).Success? && k < |PlanItems(c, disk, s, now)| && Dated(disk.rows, now) {
      IncomingAt(c, s.records, now);
      var item := PlanItems(c, disk, s, now)[k];
      assert DatedRow(At(disk.rows, item.id), now);
      if k >= |s.tombstones| {
        ReplacementIsDated(c, At(disk.rows, item.id), s.records[k - |s.tombstones|], now);
      }
    }
  }

  /** Either the row is untouched or the item about it has been carried out. */
  lemma WrittenAt(c: Codec, disk: Disk, s: Snapshot, now: Time, writes: nat, id: Id)
    ensures Plan(c, disk, s, now).Success? ==>
      var items := PlanItems(c, disk, s, now);
      var after := At(Written(c, disk, s.mark, Plan(c, disk, s, now).value, writes).rows, id);
      after == At(disk.rows, id)
      || exists k :: 0 <= k < |items| && items[k].id == id && after == Outcome(At(disk.rows, id), items[k].verdict)
  {
    hide Put, Collect, Items, At, Outcome, UniqueItems, Incoming, UniqueIds, Accepted;
    if Plan(c, disk, s, now).Success? {
      var items, changes := PlanItems(c, disk, s, now), Plan(c, disk, s, now).value;
      ItemsAreUnique(c, disk.rows, s.tombstones, Incoming(c, s.records, now).value, now);
      if writes > 0 {
        var n := Done(c, disk.rows, changes, writes - 1);
        if k :| 0 <= k < |items| && items[k].id == id {
          PrefixAt(disk.rows, items, n, k);
        } else {
          OthersAt(disk.rows, items, n, id);
        }
      }
    }
  }

  /** Wherever a restore stops, no deletion is undone and the sequence number has not gone back. */
  lemma RestoreAdvances(c: Codec, disk: Disk, s: Snapshot, now: Time, writes: nat)
    requires Plan(c, disk, s, now).Success?
    ensures DiskAdvances(disk, Written(c, disk, s.mark, Plan(c, disk, s, now).value, writes))
  {
    hide Put, Collect, Items, At, Outcome, Incoming, UniqueIds, Advances, Done;
    var items := PlanItems(c, disk, s, now);
    var after := Written(c, disk, s.mark, Plan(c, disk, s, now).value, writes);
    forall id
      ensures Advances(At(disk.rows, id), At(after.rows, id))
    {
      StaysAdvanced(At(disk.rows, id));
      WrittenAt(c, disk, s, now, writes, id);
      if At(after.rows, id) != At(disk.rows, id) {
        var k :| 0 <= k < |items| && items[k].id == id
          && At(after.rows, id) == Outcome(At(disk.rows, id), items[k].verdict);
        ItemAdvances(c, disk, s, now, k);
      }
    }
  }

  lemma StaysAdvanced(row: Option<Row>)
    ensures Advances(row, row) && KeepsPace(row, row)
  {
  }

  /** With no stored record dated ahead of the clock, no record gets older; none is then dated ahead either. */
  lemma RestoreKeepsPace(c: Codec, disk: Disk, s: Snapshot, now: Time, writes: nat)
    requires Lawful(c) && Plan(c, disk, s, now).Success? && Dated(disk.rows, now)
    ensures var after := Written(c, disk, s.mark, Plan(c, disk, s, now).value, writes);
      && NeverOlder(disk, after)
      && ((forall i :: 0 <= i < |s.records| ==> s.records[i].updatedAt <= now) ==> Dated(after.rows, now))
  {
    hide Lawful, Put, Collect, Items, At, Outcome, Incoming, UniqueIds, KeepsPace, DatedRow, Written;
    var items := PlanItems(c, disk, s, now);
    var after := Written(c, disk, s.mark, Plan(c, disk, s, now).value, writes);
    forall id
      ensures KeepsPace(At(disk.rows, id), At(after.rows, id))
      ensures (forall i :: 0 <= i < |s.records| ==> s.records[i].updatedAt <= now) ==> DatedRow(At(after.rows, id), now)
    {
      StaysAdvanced(At(disk.rows, id));
      WrittenAt(c, disk, s, now, writes, id);
      if At(after.rows, id) != At(disk.rows, id) {
        var k :| 0 <= k < |items| && items[k].id == id
          && At(after.rows, id) == Outcome(At(disk.rows, id), items[k].verdict);
        ItemKeepsPace(c, disk, s, now, k);
      }
    }
  }

  // ---------- every run of restores ----------

  datatype Attempt = Attempt(snapshot: Snapshot, now: Time, writes: nat)

  ghost function Restore(c: Codec, disk: Disk, a: Attempt): Disk {
    var plan := Plan(c, disk, a.snapshot, a.now);
    if plan.Success? then Written(c, disk, a.snapshot.mark, plan.value, a.writes) else disk
  }

  ghost function RestoreAll(c: Codec, disk: Disk, attempts: seq<Attempt>): Disk {
    if attempts == [] then disk
    else Restore(c, RestoreAll(c, disk, attempts[..|attempts| - 1]), attempts[|attempts| - 1])
  }

  /**
   Over any number of restores, each cut short anywhere: sequence numbers never go back, one sequence
   number never stands for two snapshots, forgotten RFQs stay forgotten, and no record is lost
   except to a deletion.
   */
  lemma {:induction false} EveryRestoreRunAdvances(c: Codec, disk: Disk, attempts: seq<Attempt>)
    ensures DiskAdvances(disk, RestoreAll(c, disk, attempts))
  {
    hide Plan, Written;
    if attempts == [] {
    } else {
      var front, last := attempts[..|attempts| - 1], attempts[|attempts| - 1];
      EveryRestoreRunAdvances(c, disk, front);
      var middle := RestoreAll(c, disk, front);
      if Plan(c, middle, last.snapshot, last.now).Success? {
        RestoreAdvances(c, middle, last.snapshot, last.now, last.writes);
        AdvancesIsTransitive(disk, middle, Restore(c, middle, last));
      }
    }
  }

  lemma AdvancesIsTransitive(a: Disk, b: Disk, d: Disk)
    requires DiskAdvances(a, b) && DiskAdvances(b, d)
    ensures DiskAdvances(a, d)
    ensures NeverOlder(a, b) && NeverOlder(b, d) ==> NeverOlder(a, d)
  {
    hide At;
    forall id
      ensures Advances(At(a.rows, id), At(d.rows, id))
      ensures NeverOlder(a, b) && NeverOlder(b, d) ==> KeepsPace(At(a.rows, id), At(d.rows, id))
    {
      assert Advances(At(a.rows, id), At(b.rows, id)) && Advances(At(b.rows, id), At(d.rows, id));
      if NeverOlder(a, b) && NeverOlder(b, d) {
        assert KeepsPace(At(a.rows, id), At(b.rows, id)) && KeepsPace(At(b.rows, id), At(d.rows, id));
      }
    }
  }

  /** The clock never goes back, and nothing was dated ahead of it when it was first read or backed up. */
  ghost predicate Timely(disk: Disk, attempts: seq<Attempt>) {
    && (forall i, j :: 0 <= i < j < |attempts| ==> attempts[i].now <= attempts[j].now)
    && (forall i :: 0 <= i < |attempts| ==> Dated(disk.rows, attempts[i].now))
    && (forall i, k :: 0 <= i < |attempts| && 0 <= k < |attempts[i].snapshot.records| ==>
          attempts[i].snapshot.records[k].updatedAt <= attempts[i].now)
  }

  /** Under a clock nothing is dated ahead of, no run of restores makes a record older. */
  lemma {:induction false} TimelyRunsNeverGoBack(c: Codec, disk: Disk, attempts: seq<Attempt>, end: Time)
    requires Lawful(c) && Timely(disk, attempts) && Dated(disk.rows, end)
    requires forall i :: 0 <= i < |attempts| ==> attempts[i].now <= end
    ensures NeverOlder(disk, RestoreAll(c, disk, attempts))
    ensures Dated(RestoreAll(c, disk, attempts).rows, end)
  {
    hide Lawful, Plan, Written, At;
    if attempts == [] {
    } else {
      var front, last := attempts[..|attempts| - 1], attempts[|attempts| - 1];
      TimelyRunsNeverGoBack(c, disk, front, last.now);
      EveryRestoreRunAdvances(c, disk, front);
      var middle := RestoreAll(c, disk, front);
      if Plan(c, middle, last.snapshot, last.now).Success? {
        RestoreAdvances(c, middle, last.snapshot, last.now, last.writes);
        RestoreKeepsPace(c, middle, last.snapshot, last.now, last.writes);
        AdvancesIsTransitive(disk, middle, Restore(c, middle, last));
      }
    }
  }

  function Blank(id: Id): Record {
    Record(id, 1, false, Other(0), 0, 0, NoReason, 2, Local, 1, None, false, 0, None)
  }

  lemma OneRecordPlan(c: Codec, disk: Disk, mark: Mark, raw: Record, now: Time)
    requires IncomingEntry(c, raw, now).Some? && disk.highWater.None?
    requires |disk.rows| <= MAX_HISTORY && Readable(c, disk.rows)
    requires var e := IncomingEntry(c, raw, now).value;
      !RecordVerdict(c, At(disk.rows, e.record.id), e, now).Refuse?
    ensures var e := IncomingEntry(c, raw, now).value;
      Plan(c, disk, Snapshot(mark, [raw], []), now)
      == ChangesOf(Item(e.record.id, RecordVerdict(c, At(disk.rows, e.record.id), e, now)))
  {
    hide IncomingEntry;
    var e := IncomingEntry(c, raw, now).value;
    var v := RecordVerdict(c, At(disk.rows, e.record.id), e, now);
    IncomingAt(c, [raw], now);
    assert Incoming(c, [raw], now).value == [e];
    hide RecordVerdict, Readable;
    var items := Items(c, disk.rows, [], [e], now);
    assert items == [Item(e.record.id, v)];
    assert items[1..] == [];
    var changes := ChangesOf(items[0]).value;
    assert Collect(items[1..]) == Success([]);
    assert changes + [] == changes;
    assert Collect(items) == Success(changes);
    assert !Resurrects(disk.rows, [e]);
    assert UniqueIds([e], []);
  }

  /** The storage takes every change of a plan if it takes each over the row the device had. */
  lemma AcceptedExactly(c: Codec, rows: map<Id, Row>, changes: seq<Change>)
    requires UniqueChanges(changes)
    ensures Accepted(c, rows, changes) == |changes|
      <==> forall i :: 0 <= i < |changes| ==> Accepts(c, At(rows, changes[i].id), changes[i].row)
  {
    hide Accepts, Put, At;
    forall i | 0 <= i < |changes|
      ensures AcceptsAt(c, rows, changes, i) == Accepts(c, At(rows, changes[i].id), changes[i].row)
    {
      assert forall j :: 0 <= j < i ==> changes[..i][j].id == changes[j].id;
      PutAt(rows, changes[..i], changes[i].id);
    }
    var n := Accepted(c, rows, changes);
    assert n < |changes| ==> !AcceptsAt(c, rows, changes, n);
  }

  /** The clock condition is needed: this import puts an expired quote of 210 over a record of 300. */
  lemma RecordsAheadOfTheClockCanGoBack()
    ensures var c, stored := SampleCodec(), Blank(7).(updatedAt := 300);
      var raw := stored.(updatedAt := 400, state := Quoted, quoteExpiresAt := 200, reservationExpiresAt := 200);
      var disk, s := Disk(map[7 := Live(stored)], None), Snapshot(Mark(1, 1), [raw], []);
      && Plan(c, disk, s, 210).Success?
      && !NeverOlder(disk, Written(c, disk, s.mark, Plan(c, disk, s, 210).value, 2))
  {
    hide Plan, Put;
    var c, stored := SampleCodec(), Blank(7).(updatedAt := 300);
    var raw := stored.(updatedAt := 400, state := Quoted, quoteExpiresAt := 200, reservationExpiresAt := 200);
    var disk, s := Disk(map[7 := Live(stored)], None), Snapshot(Mark(1, 1), [raw], []);
    assert disk.rows.Keys == {7};
    OneRecordPlan(c, disk, s.mark, raw, 210);
    var changes := Plan(c, disk, s, 210).value;
    assert |changes| == 1 && changes[..1] == changes && changes[0].id == 7;
    AcceptedExactly(c, disk.rows, changes);
    PutAt(disk.rows, changes, 7);
    assert !KeepsPace(At(disk.rows, 7), At(Put(disk.rows, changes), 7));
  }
}
