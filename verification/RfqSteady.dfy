/**
 One row met twice by the same snapshot: when the second import, at another time, ends with the row
 the first one wanted, whether the first had already written it or not.
 */
module RfqSteady {
  import opened Wrappers
  import opened RfqRestore
  import opened RfqRestoreSafety

  /** Equal but for the time of the restore stamp. */
  ghost predicate SameUpToStamp(a: Option<Row>, b: Option<Row>) {
    a == b
    || (a.Some? && b.Some? && a.value.Live? && b.value.Live?
        && a.value.record.(observedAt := 1) == b.value.record.(observedAt := 1))
  }

  /** The storage takes what a verdict writes over the row found there. */
  predicate Taken(c: Codec, found: Option<Row>, v: Verdict) {
    v.Write? ==> Accepts(c, found, v.row)
  }

  /** Carrying out the second verdict on the row found there gives the row wanted. */
  ghost predicate Redone(c: Codec, found: Option<Row>, again: Verdict, wanted: Option<Row>) {
    !again.Refuse? && Taken(c, found, again) && SameUpToStamp(Outcome(found, again), wanted)
  }

  // ---------- what can be checked beforehand ----------

  /** Both readings give the same record: they happen at one time, or neither changes it. */
  predicate ReadsAlike(c: Codec, p: Record, now: Time, later: Time) {
    now == later || (!Moves(c, p, now) && !Moves(c, p, later))
  }

  /** A backup record that the first import writes: it reads alike, and once written is not read as older. */
  predicate WriteSteady(c: Codec, backup: Record, now: Time, later: Time) {
    && ReadsAlike(c, backup, now, later)
    && (backup.updatedAt <= later || !Moves(c, MarkRestoredVerifyOnly(backup, now), later))
  }

  /** A stored record that the snapshot does not replace is not replaced, nor found ambiguous, later. */
  predicate SkipSteady(c: Codec, stored: Record, backup: Record, later: Time) {
    TimeRead(c, stored, later) > backup.updatedAt
    || (TimeRead(c, stored, later) == backup.updatedAt
        && Comparable(c, Judge(c, stored, later), later)
           == Comparable(c, MarkRestoredVerifyOnly(Judge(c, backup, later), later), later))
  }

  predicate ReadableRow(c: Codec, row: Option<Row>) {
    row.Some? && row.value.Live? ==> c.parse(row.value.record).Some?
  }

  /** What an import at a time writes for a backup record, stamp and revisions aside. */
  function ToWrite(c: Codec, backup: Record, now: Time): Record {
    Core(MarkRestoredVerifyOnly(Judge(c, backup, now), now))
  }

  /** The storage lets a backup record replace a stored one that reading does not change. */
  predicate Replaceable(c: Codec, stored: Record, next: Record) {
    stored.v3 == next.v3 && stored.authority == Local && c.preserves(stored, next)
  }

  /**
   The condition for one record of the snapshot, in terms of the stored and the backup row as parsed:
   what the first import writes the storage takes, and takes again; what it skips it skips again.
   */
  predicate RecordSteady(c: Codec, row: Option<Row>, raw: Record, now: Time, later: Time)
    requires Backup(c, raw).Some? && ReadableRow(c, row)
  {
    var backup := Backup(c, raw).value;
    var next := ToWrite(c, backup, now);
    if row.None? || row.value.Gone? then c.saves(next) && WriteSteady(c, backup, now, later)
    else
      var stored := c.parse(row.value.record).value;
      if TimeRead(c, stored, now) < backup.updatedAt then
        && c.saves(next) && WriteSteady(c, backup, now, later)
        && Replaceable(c, row.value.record, next) && !Moves(c, stored, now) && !Moves(c, stored, later)
      else SkipSteady(c, stored, backup, later)
  }

  /** The stored record may be forgotten, whether it is read or taken as it is stored. */
  predicate Forgettable(c: Codec, r: Record, t: Tombstone) {
    r.restored || (c.mayForget(r) && c.digest(r) == t.digest)
  }

  /** The condition for one tombstone: the stored record may be forgotten, as stored and as then read. */
  predicate TombstoneSteady(c: Codec, row: Option<Row>, t: Tombstone, later: Time)
    requires ReadableRow(c, row)
  {
    row.Some? && row.value.Live? ==>
      && Forgettable(c, row.value.record, t)
      && Forgettable(c, Judge(c, c.parse(row.value.record).value, later), t)
  }

  // ---------- records that differ in stamp and revision only ----------

  lemma JudgedAlike(c: Codec, x: Record, y: Record, now: Time)
    requires Lawful(c) && Core(x) == Core(y)
    ensures Moves(c, x, now) == Moves(c, y, now) && Core(Judge(c, x, now)) == Core(Judge(c, y, now))
  {
    assert y == x.(updatedAt := x.updatedAt, authority := x.authority, observedAt := y.observedAt,
                   revision := y.revision, predecessor := y.predecessor);
  }

  /** What a record vouched for by this device alone reads as. */
  predicate Restored(r: Record) {
    r.signingKey == None && r.restored == r.v3 && r.authority == Local
  }

  /** The normal form that comparison compares, of a restored record that parses to itself. */
  lemma ComparableOfRestored(c: Codec, r: Record, now: Time)
    requires Lawful(c) && Restored(r) && c.parse(r) == Some(r.(predecessor := None))
    ensures Comparable(c, r, now)
         == Some(MarkRestoredVerifyOnly(Judge(c, r.(predecessor := None), now), now)
                 .(revision := 0, predecessor := None))
  {
    assert Strip(r) == r && (r.v3 ==> r.(restored := true) == r);
  }

  /** A stored row that was readable stays readable as a backup row, so comparing it is never refused. */
  lemma StoredRowsCompare(c: Codec, stored: Record, now: Time)
    requires Lawful(c) && c.parse(stored).Some?
    ensures Comparable(c, Judge(c, c.parse(stored).value, now), now).Some?
  {
    hide ContradictionIsTimeless, VerdictsAreSound, Moves;
    var p := c.parse(stored).value;
    var e := Judge(c, p, now);
    var restored := e.v3 || e.restored;
    var q := Edited(p, e.state, e.reason, e.updatedAt, e.authority, e.observedAt, restored, e.revision);
    assert c.parse(q.(predecessor := e.predecessor)) == Some(q);
    assert (if e.v3 then Strip(e).(restored := true) else Strip(e)) == q.(predecessor := e.predecessor);
  }

  /** Reading a record again at the same time changes nothing more. */
  lemma JudgingSettles(c: Codec, r: Record, now: Time)
    requires Lawful(c) && Restored(r) && !(LacksReorgSignal(r) && c.contradicts(r))
    ensures Core(Judge(c, Judge(c, r, now), now)) == Core(Judge(c, r, now))
  {
    hide ParseKeeps, ParseSettles, ContradictionIsTimeless;
  }

  // ---------- the backup row as written ----------

  lemma BackupIsRestored(c: Codec, raw: Record)
    requires Lawful(c) && Backup(c, raw).Some?
    ensures var b := Backup(c, raw).value;
      && b.signingKey == None && b.restored == b.v3 && b.predecessor == None
      && b.id == raw.id && b.updatedAt == raw.updatedAt
  {
    hide ParseSettles, ContradictionIsTimeless, VerdictsAreSound;
  }

  /** What an import writes for a backup row parses to itself. */
  lemma WrittenParses(c: Codec, raw: Record, now: Time, rev: nat, pre: Option<nat>)
    requires Lawful(c) && IncomingEntry(c, raw, now).Some?
    ensures Backup(c, raw).Some?
    ensures var w := IncomingEntry(c, raw, now).value.record.(revision := rev, predecessor := pre);
      Restored(w) && c.parse(w) == Some(w.(predecessor := None))
  {
    hide ContradictionIsTimeless, VerdictsAreSound, SavingIsTimeless;
    BackupIsRestored(c, raw);
    var from := if raw.v3 then Strip(raw).(restored := true) else Strip(raw);
    var w := IncomingEntry(c, raw, now).value.record.(revision := rev, predecessor := pre);
    var q := Edited(c.parse(from).value, w.state, w.reason, w.updatedAt, Local, now, w.v3, rev);
    assert w == q.(predecessor := pre);
  }

  /** The same for what reading the written row gives. */
  lemma WrittenReadsParse(c: Codec, raw: Record, now: Time, rev: nat, later: Time)
    requires Lawful(c) && IncomingEntry(c, raw, now).Some?
    ensures var w := Judge(c, IncomingEntry(c, raw, now).value.record.(revision := rev, predecessor := None), later);
      Restored(w) && c.parse(w) == Some(w.(predecessor := None))
  {
    hide ContradictionIsTimeless, VerdictsAreSound, Moves;
    WrittenParses(c, raw, now, rev, None);
    BackupIsRestored(c, raw);
    var from := if raw.v3 then Strip(raw).(restored := true) else Strip(raw);
    var w := Judge(c, IncomingEntry(c, raw, now).value.record.(revision := rev, predecessor := None), later);
    var q := Edited(c.parse(from).value, w.state, w.reason, w.updatedAt, Local, now, w.v3, w.revision);
    assert w == q.(predecessor := w.predecessor);
  }

  /** Two imports would write the same record, stamp and revision aside, exactly when the backup row reads alike. */
  lemma WritesAlikeExactly(c: Codec, raw: Record, now: Time, later: Time)
    ensures Lawful(c) && IncomingEntry(c, raw, now).Some? && IncomingEntry(c, raw, later).Some? ==>
      (Core(IncomingEntry(c, raw, now).value.record) == Core(IncomingEntry(c, raw, later).value.record)
      <==> ReadsAlike(c, Backup(c, raw).value, now, later))
  {
    hide ParseKeeps, ParseSettles, ContradictionIsTimeless, VerdictsAreSound;
  }

  /** Marking a backup record as restored can only take its reorg signal away. */
  lemma MarkingMoves(c: Codec, raw: Record, now: Time, later: Time)
    requires Lawful(c) && Backup(c, raw).Some?
    ensures var b := Backup(c, raw).value;
      && (Moves(c, b, later) ==> Moves(c, MarkRestoredVerifyOnly(b, now), later))
      && c.contradicts(MarkRestoredVerifyOnly(b, now)) == c.contradicts(b)
  {
    hide ParseKeeps, ParseSettles, VerdictsAreSound;
    BackupIsRestored(c, raw);
    var b := Backup(c, raw).value;
    assert MarkRestoredVerifyOnly(b, now)
        == b.(updatedAt := b.updatedAt, authority := Local, observedAt := now, revision := b.revision,
              predecessor := b.predecessor);
  }

  /**
   The written row against its own backup row at the second import: at the same time read they
   compare equal, whatever the second reading changed.
   */
  lemma WrittenComparesEqual(c: Codec, raw: Record, now: Time, later: Time, rev: nat)
    requires Lawful(c) && IncomingEntry(c, raw, now).Some? && IncomingEntry(c, raw, later).Some?
    requires ReadsAlike(c, Backup(c, raw).value, now, later)
    ensures var w := IncomingEntry(c, raw, now).value.record.(revision := rev, predecessor := None);
      Comparable(c, Judge(c, w, later), later) == Comparable(c, IncomingEntry(c, raw, later).value.record, later)
  {
    hide Lawful, IncomingEntry, Moves, Comparable;
    var w := IncomingEntry(c, raw, now).value.record.(revision := rev, predecessor := None);
    var again := IncomingEntry(c, raw, later).value.record;
    var plain := again.(predecessor := None);
    WrittenParses(c, raw, now, rev, None);
    WrittenParses(c, raw, later, again.revision, again.predecessor);
    WrittenReadsParse(c, raw, now, rev, later);
    ComparableOfRestored(c, Judge(c, w, later), later);
    ComparableOfRestored(c, again, later);
    WritesAlikeExactly(c, raw, now, later);
    JudgedAlike(c, w, plain, later);
    NotBothReasons(c, raw, now, later, rev);
    JudgingSettles(c, w, later);
    JudgedAlike(c, Judge(c, w, later), Judge(c, w, later).(predecessor := None), later);
  }

  /** A written row that lacks its reorg signal was sound when it was written. */
  lemma NotBothReasons(c: Codec, raw: Record, now: Time, later: Time, rev: nat)
    requires Lawful(c) && IncomingEntry(c, raw, now).Some?
    ensures var w := IncomingEntry(c, raw, now).value.record.(revision := rev, predecessor := None);
      !(LacksReorgSignal(w) && c.contradicts(w))
  {
    hide ParseKeeps, ParseSettles, VerdictsAreSound;
    MarkingMoves(c, raw, now, later);
    var b := Backup(c, raw).value;
    var w := IncomingEntry(c, raw, now).value.record.(revision := rev, predecessor := None);
    if LacksReorgSignal(w) {
      var m := MarkRestoredVerifyOnly(b, now);
      assert w == m.(updatedAt := m.updatedAt, authority := Local, observedAt := now,
               revision := rev, predecessor := None);
    }
  }

  // ---------- one row, one verdict ----------

  /** A stored row is kept by the second import exactly when it is read as newer, or as the same. */
  lemma KeptExactly(c: Codec, stored: Record, e: Entry, later: Time)
    requires Lawful(c) && c.parse(stored).Some?
    ensures var row, s := Some(Live(stored)), c.parse(stored).value;
      Redone(c, row, RecordVerdict(c, row, e, later), row)
      <==> TimeRead(c, s, later) > e.sourceTime
           || (TimeRead(c, s, later) == e.sourceTime
               && Comparable(c, Judge(c, s, later), later) == Comparable(c, e.record, later))
  {
    hide ParseSettles, ContradictionIsTimeless, VerdictsAreSound, Comparable, Moves;
  }

  /** Once the first import has written the row, the second keeps it exactly when it is not read as older. */
  lemma WrittenIsKeptExactly(c: Codec, raw: Record, now: Time, later: Time, rev: nat)
    requires Lawful(c) && IncomingEntry(c, raw, now).Some? && IncomingEntry(c, raw, later).Some?
    requires ReadsAlike(c, Backup(c, raw).value, now, later)
    ensures var w := Some(Live(IncomingEntry(c, raw, now).value.record.(revision := rev, predecessor := None)));
      Redone(c, w, RecordVerdict(c, w, IncomingEntry(c, raw, later).value, later), w)
      <==> WriteSteady(c, Backup(c, raw).value, now, later)
  {
    hide Lawful, Moves, Comparable, RecordVerdict, Redone;
    var b := Backup(c, raw).value;
    var w := IncomingEntry(c, raw, now).value.record.(revision := rev, predecessor := None);
    WrittenParses(c, raw, now, rev, None);
    KeptExactly(c, w, IncomingEntry(c, raw, later).value, later);
    WrittenComparesEqual(c, raw, now, later, rev);
    BackupIsRestored(c, raw);
    MarkingMoves(c, raw, now, later);
    if !Moves(c, b, now) {
      JudgedAlike(c, w, MarkRestoredVerifyOnly(b, now), later);
    }
  }

  lemma ParsedKeeps(c: Codec, stored: Record)
    ensures Lawful(c) && c.parse(stored).Some? ==>
      var s := c.parse(stored).value;
      s.updatedAt == stored.updatedAt && s.revision == stored.revision && s.v3 == stored.v3
  {
    hide ParseSettles, ContradictionIsTimeless, VerdictsAreSound, SavingIsTimeless;
  }

  lemma SavedAlike(c: Codec, row: Option<Row>, x: Record, y: Record)
    requires Lawful(c)
    ensures Core(x) == Core(y) ==> c.saves(x) == c.saves(y)
    ensures Core(x) == Core(y) && row.Some? && row.value.Live? ==>
      Replaceable(c, row.value.record, x) == Replaceable(c, row.value.record, y)
  {
    hide ParseKeeps, ParseSettles, ContradictionIsTimeless, VerdictsAreSound;
    if Core(x) == Core(y) {
      assert x.v3 == Core(x).v3 == Core(y).v3 == y.v3;
      assert c.saves(x) == c.saves(Core(x)) && c.saves(y) == c.saves(Core(y));
      if row.Some? && row.value.Live? {
        assert c.preserves(row.value.record, x) == c.preserves(row.value.record, Core(x));
        assert c.preserves(row.value.record, y) == c.preserves(row.value.record, Core(y));
      }
    }
  }

  /**
   The storage takes what an import writes for a record exactly if the record is sound to save and,
   over a stored one, if that has local evidence, the same mode, is preserved, and did not change on
   being read: a row that expires or is quarantined while it is read cannot be replaced.
   */
  lemma RecordTakenExactly(c: Codec, row: Option<Row>, raw: Record, now: Time)
    requires Lawful(c) && IncomingEntry(c, raw, now).Some? && ReadableRow(c, row)
    requires RecordVerdict(c, row, IncomingEntry(c, raw, now).value, now).Write?
    ensures var next := IncomingEntry(c, raw, now).value.record;
      Taken(c, row, RecordVerdict(c, row, IncomingEntry(c, raw, now).value, now))
      <==> c.saves(next)
           && (row.Some? && row.value.Live? ==>
                 Replaceable(c, row.value.record, next) && !Moves(c, c.parse(row.value.record).value, now))
  {
    hide Lawful, Comparable, Moves, IncomingEntry, MarkRestoredVerifyOnly;
    var next := IncomingEntry(c, raw, now).value.record;
    var w := RecordVerdict(c, row, IncomingEntry(c, raw, now).value, now).row.record;
    WrittenParses(c, raw, now, w.revision, w.predecessor);
    SavedAlike(c, row, next, w);
    if row.Some? && row.value.Live? {
      ParsedKeeps(c, row.value.record);
    }
  }

  /** The first import writes the row; the second, finding the old one, writes the same in the same case. */
  lemma ReplacedAgainExactly(c: Codec, row: Option<Row>, raw: Record, now: Time, later: Time)
    requires Lawful(c) && IncomingEntry(c, raw, now).Some? && IncomingEntry(c, raw, later).Some?
    requires ReadableRow(c, row)
    requires RecordVerdict(c, row, IncomingEntry(c, raw, now).value, now).Write?
    ensures Redone(c, row, RecordVerdict(c, row, IncomingEntry(c, raw, later).value, later),
                   Outcome(row, RecordVerdict(c, row, IncomingEntry(c, raw, now).value, now)))
      <==> ReadsAlike(c, Backup(c, raw).value, now, later)
           && c.saves(IncomingEntry(c, raw, now).value.record)
           && (row.Some? && row.value.Live? ==>
                 var s := c.parse(row.value.record).value;
                 && Replaceable(c, row.value.record, IncomingEntry(c, raw, now).value.record)
                 && !Moves(c, s, now) && !Moves(c, s, later))
  {
    hide Lawful, Comparable, Moves, ReadsAlike, IncomingEntry, Accepts, MarkRestoredVerifyOnly;
    WritesAlikeExactly(c, raw, now, later);
    EntryKeeps(c, raw, now);
    EntryKeeps(c, raw, later);
    var v := RecordVerdict(c, row, IncomingEntry(c, raw, later).value, later);
    if v.Write? {
      RecordTakenExactly(c, row, raw, later);
      SavedAlike(c, row, IncomingEntry(c, raw, now).value.record, IncomingEntry(c, raw, later).value.record);
    }
    if row.Some? && row.value.Live? {
      ParsedKeeps(c, row.value.record);
    }
  }

  lemma EntryKeeps(c: Codec, raw: Record, now: Time)
    requires Lawful(c) && IncomingEntry(c, raw, now).Some?
    ensures Backup(c, raw).Some?
    ensures var e := IncomingEntry(c, raw, now).value;
      e.sourceTime == raw.updatedAt && e.record.id == raw.id && e.record.observedAt == now
    ensures IncomingEntry(c, raw, now).value.record
         == MarkRestoredVerifyOnly(Judge(c, Backup(c, raw).value, now), now)
  {
    hide ParseSettles, ContradictionIsTimeless, VerdictsAreSound, Moves;
  }

  /**
   One record of the snapshot: importing it at both times gives what importing it once gives, whether
   the second import finds the old row or the written one, exactly when the condition holds.
   */
  lemma RecordResumesExactly(c: Codec, row: Option<Row>, raw: Record, now: Time, later: Time)
    requires Lawful(c) && IncomingEntry(c, raw, now).Some? && IncomingEntry(c, raw, later).Some?
    requires ReadableRow(c, row)
    requires !RecordVerdict(c, row, IncomingEntry(c, raw, now).value, now).Refuse?
    ensures var again := IncomingEntry(c, raw, later).value;
      var wanted := Outcome(row, RecordVerdict(c, row, IncomingEntry(c, raw, now).value, now));
      RecordSteady(c, row, raw, now, later)
      <==> Redone(c, row, RecordVerdict(c, row, again, later), wanted)
           && Redone(c, wanted, RecordVerdict(c, wanted, again, later), wanted)
    ensures var first := RecordVerdict(c, row, IncomingEntry(c, raw, now).value, now);
      Redone(c, row, RecordVerdict(c, row, IncomingEntry(c, raw, later).value, later), Outcome(row, first)) ==>
        Taken(c, row, first)
  {
    hide Lawful, Moves, Comparable, Redone, ReadsAlike, IncomingEntry, Replaceable;
    var first, again := IncomingEntry(c, raw, now).value, IncomingEntry(c, raw, later).value;
    EntryKeeps(c, raw, now);
    EntryKeeps(c, raw, later);
    BackupIsRestored(c, raw);
    var v := RecordVerdict(c, row, first, now);
    if v.Write? {
      assert Outcome(row, v) == Some(Live(first.record.(revision := v.row.record.revision, predecessor := None)));
      ReplacedAgainExactly(c, row, raw, now, later);
      RecordTakenExactly(c, row, raw, now);
      SavedAlike(c, row, first.record, Core(first.record));
      if ReadsAlike(c, Backup(c, raw).value, now, later) {
        WrittenIsKeptExactly(c, raw, now, later, v.row.record.revision);
      }
    } else {
      KeptExactly(c, row.value.record, again, later);
    }
  }

  /** One tombstone of the snapshot, likewise. */
  lemma TombstoneResumesExactly(c: Codec, row: Option<Row>, t: Tombstone, now: Time, later: Time)
    requires ReadableRow(c, row)
    requires !TombstoneVerdict(c, row, t, now).Refuse?
    ensures var wanted := Outcome(row, TombstoneVerdict(c, row, t, now));
      TombstoneSteady(c, row, t, later)
      <==> Redone(c, row, TombstoneVerdict(c, row, t, later), wanted)
           && Redone(c, wanted, TombstoneVerdict(c, wanted, t, later), wanted)
    ensures var first := TombstoneVerdict(c, row, t, now);
      Redone(c, row, TombstoneVerdict(c, row, t, later), Outcome(row, first)) ==> Taken(c, row, first)
  {
    hide Moves;
  }
}
