/**
 Restoring RFQ history from an authenticated backup: everything is checked before anything is
 written, and the writes follow one after another with a crash possible before each.
 */
module RfqRestore {
  import opened Wrappers

  type Id = nat

  /** Seconds; a row without a positive time is malformed. */
  type Time = t: nat | t > 0 witness 1

  const MAX_HISTORY: nat := 1_000

  /** The states that restoring tells apart. */
  datatype State = Quoted | Reviewing | Expired | Quarantined | Reorged | Other(code: nat)

  /** Who vouches for a record; a restored one is vouched for by nobody but this device. */
  datatype Authority = Local | ReorgSignal | OtherAuthority(code: nat)

  datatype Reason = NoReason | Given(text: nat) | QuoteExpired | NoReorgSignal | Contradiction

  /**
   `quoteExpiresAt` is the expiry of the active quote, in version 3 the settlement deadline.
   `content` stands for every field that restoring neither reads nor sets.
   */
  datatype Record = Record(
    id: Id, updatedAt: Time, v3: bool, state: State, quoteExpiresAt: nat, reservationExpiresAt: nat, reason: Reason,
    content: nat, authority: Authority, observedAt: Time, signingKey: Option<nat>, restored: bool,
    revision: nat, predecessor: Option<nat>)

  datatype Tombstone = Tombstone(id: Id, digest: nat, revision: nat)

  /** What the storage holds under one id. */
  datatype Row = Live(record: Record) | Gone(digest: nat, revision: nat)

  datatype Mark = Mark(seqNo: nat, digest: nat)

  datatype Disk = Disk(rows: map<Id, Row>, highWater: Option<Mark>)

  datatype Snapshot = Snapshot(mark: Mark, records: seq<Record>, tombstones: seq<Tombstone>)

  datatype ImportError =
    | BadCount | SequenceRollback | ConflictingSnapshots | BadRow | DuplicateIds | TooManyLocal
    | Resurrection | ConflictingTombstones | UnresolvedEvidence | AmbiguousRecords | StorageRefused

  // ---------- reading a row back ----------

  /**
   Parsing a row, the checks of a record's terms, settlement and attempts against each other, which
   records may be forgotten, the record digest, and the storage's checks of a record to be saved, by
   itself and against the terms, evidence and standing of the record it replaces. These are not part
   of this model.
   */
  datatype Codec = Codec(
    parse: Record -> Option<Record>, contradicts: Record -> bool, mayForget: Record -> bool, digest: Record -> nat,
    saves: Record -> bool, preserves: (Record, Record) -> bool)

  /** A parsed record as restoring may leave it: another state and time, no key, no predecessor. */
  function Edited(p: Record, state: State, reason: Reason, updatedAt: Time, authority: Authority, observedAt: Time,
                  restored: bool, revision: nat): Record {
    p.(state := state, reason := reason, updatedAt := updatedAt, authority := authority, observedAt := observedAt,
       signingKey := None, restored := restored, revision := revision, predecessor := None)
  }

  /** Parsing keeps what restoring reads, and a version 2 record is never marked as restored. */
  ghost predicate ParseKeeps(c: Codec) {
    forall r: Record :: c.parse(r).Some? ==>
      var p := c.parse(r).value;
      && p.id == r.id && p.updatedAt == r.updatedAt && p.v3 == r.v3 && p.state == r.state && p.reason == r.reason
      && p.quoteExpiresAt == r.quoteExpiresAt && p.reservationExpiresAt == r.reservationExpiresAt
      && p.revision == r.revision && p.predecessor == None && p.restored == (r.v3 && r.restored)
      && (r.signingKey == None ==> p.signingKey == None)
  }

  /** What restoring makes of a parsed record parses to itself, predecessor aside. */
  ghost predicate ParseSettles(c: Codec) {
    forall r: Record, state, reason, at: Time, authority, seen: Time, restored, rev: nat, pre ::
      c.parse(r).Some? && (authority == Local || authority == c.parse(r).value.authority) && (restored ==> r.v3) ==>
        var q := Edited(c.parse(r).value, state, reason, at, authority, seen, restored, rev);
        c.parse(q.(predecessor := pre)) == Some(q)
  }

  /** Contradictions are a matter of content: times, revisions and authority do not make or mend them. */
  ghost predicate ContradictionIsTimeless(c: Codec) {
    forall p: Record, at: Time, authority, seen: Time, rev: nat, pre ::
      c.contradicts(p.(updatedAt := at, authority := authority, observedAt := seen, revision := rev,
                       predecessor := pre)) == c.contradicts(p)
  }

  /** Expiring a sound quote leaves it sound; so does quarantining a sound restored reorged record. */
  ghost predicate VerdictsAreSound(c: Codec) {
    && (forall p: Record, now: Time :: !c.contradicts(p) && IsQuote(p) ==> !c.contradicts(Expire(p, now)))
    && (forall p: Record, now: Time ::
         !c.contradicts(p) && p.state == Reorged && p.signingKey == None && (p.v3 ==> p.restored) ==>
          !c.contradicts(Quarantine(p, NoReorgSignal, now)))
  }

  /** The record without its restore stamp and revisions. */
  function Core(r: Record): Record {
    r.(observedAt := 1, revision := 0, predecessor := None)
  }

  /** The storage's checks of content look at neither stamp nor revisions of what is to be saved. */
  ghost predicate SavingIsTimeless(c: Codec) {
    && (forall r: Record :: c.saves(Core(r)) == c.saves(r))
    && (forall prior: Record, r: Record :: c.preserves(prior, Core(r)) == c.preserves(prior, r))
  }

  ghost predicate Lawful(c: Codec) {
    ParseKeeps(c) && ParseSettles(c) && ContradictionIsTimeless(c) && VerdictsAreSound(c) && SavingIsTimeless(c)
  }

  predicate IsQuote(p: Record) {
    p.state == Quoted || p.state == Reviewing
  }

  /** The quote, or in version 2 its reservation, has expired. */
  predicate Lapsed(p: Record, now: Time) {
    IsQuote(p) && (p.quoteExpiresAt <= now || (!p.v3 && p.reservationExpiresAt <= now))
  }

  predicate LacksReorgSignal(p: Record) {
    p.state == Reorged && p.authority != ReorgSignal
  }

  function Quarantine(p: Record, reason: Reason, now: Time): Record {
    p.(state := Quarantined, reason := reason, updatedAt := now,
       revision := p.revision + 1, predecessor := Some(p.revision))
  }

  function Expire(p: Record, now: Time): Record {
    p.(state := Expired, reason := QuoteExpired, signingKey := if p.v3 then None else p.signingKey, updatedAt := now,
       revision := p.revision + 1, predecessor := Some(p.revision))
  }

  /** Reading the record now changes it: it is quarantined or expires, and takes the time of reading. */
  predicate Moves(c: Codec, p: Record, now: Time) {
    LacksReorgSignal(p) || c.contradicts(p) || Lapsed(p, now)
  }

  /** The time a record carries once it has been read. */
  function TimeRead(c: Codec, p: Record, now: Time): Time {
    if Moves(c, p, now) then now else p.updatedAt
  }

  function Judge(c: Codec, p: Record, now: Time): (r: Record)
    ensures r.updatedAt == TimeRead(c, p, now) && r.id == p.id
    ensures r.revision == p.revision + if Moves(c, p, now) then 1 else 0
  {
    if LacksReorgSignal(p) then Quarantine(p, NoReorgSignal, now)
    else if c.contradicts(p) then Quarantine(p, Contradiction, now)
    else if Lapsed(p, now) then Expire(p, now)
    else p
  }

  function Parsed(c: Codec, r: Record, fromBackup: bool): Option<Record> {
    c.parse(if fromBackup && r.v3 then r.(restored := true) else r)
  }

  /** A row as read at a time; None when it is malformed. */
  function RestoreRow(c: Codec, r: Record, now: Time, fromBackup: bool): Option<Record> {
    match Parsed(c, r, fromBackup)
    case None => None
    case Some(p) => Some(Judge(c, p, now))
  }

  function Strip(r: Record): Record {
    r.(signingKey := None)
  }

  function MarkRestoredVerifyOnly(r: Record, now: Time): Record {
    r.(signingKey := None, authority := Local, observedAt := now, restored := r.restored || r.v3)
  }

  /** The record as compared between backup and device: read again as a backup row, revisions left out. */
  function Comparable(c: Codec, r: Record, now: Time): Option<Record> {
    match RestoreRow(c, Strip(r), now, true)
    case None => None
    case Some(n) => Some(MarkRestoredVerifyOnly(n, now).(revision := 0, predecessor := None))
  }

  // ---------- what import decides for one id ----------

  /** A backup row as it would be saved, with the time its source row carries. */
  datatype Entry = Entry(record: Record, sourceTime: Time)

  datatype Verdict = Skip | Write(row: Row) | Refuse(error: ImportError)

  function TombstoneVerdict(c: Codec, row: Option<Row>, t: Tombstone, now: Time): Verdict {
    match row
    case None => Write(Gone(t.digest, t.revision))
    case Some(Gone(digest, _)) => if digest != t.digest then Refuse(ConflictingTombstones) else Skip
    case Some(Live(stored)) =>
      match RestoreRow(c, stored, now, false)
      case None => Refuse(BadRow)
      case Some(existing) =>
        if !existing.restored && (!c.mayForget(existing) || c.digest(existing) != t.digest)
        then Refuse(UnresolvedEvidence)
        else Write(Gone(t.digest, t.revision))
  }

  function RecordVerdict(c: Codec, row: Option<Row>, e: Entry, now: Time): Verdict {
    match row
    case None => Write(Live(e.record.(revision := 0, predecessor := None)))
    case Some(Gone(_, _)) => Refuse(Resurrection)
    case Some(Live(stored)) =>
      match RestoreRow(c, stored, now, false)
      case None => Refuse(BadRow)
      case Some(existing) =>
        if existing.updatedAt > e.sourceTime then Skip
        else if existing.updatedAt == e.sourceTime then
          if Comparable(c, existing, now) != Comparable(c, e.record, now) then Refuse(AmbiguousRecords) else Skip
        else Write(Live(e.record.(revision := existing.revision + 1, predecessor := Some(existing.revision))))
  }

  function At(rows: map<Id, Row>, id: Id): Option<Row> {
    if id in rows then Some(rows[id]) else None
  }

  // ---------- the plan ----------

  datatype Change = Change(id: Id, row: Row)

  function Joined<T>(done: seq<T>, rest: Result<seq<T>, ImportError>): Result<seq<T>, ImportError> {
    if rest.Failure? then rest else Success(done + rest.value)
  }

  lemma JoinedStep<T>(done: seq<T>, next: seq<T>, rest: Result<seq<T>, ImportError>)
    ensures Joined(done, Joined(next, rest)) == Joined(done + next, rest)
    ensures Joined([], rest) == rest
  {
    if rest.Success? {
      assert done + (next + rest.value) == (done + next) + rest.value;
      assert [] + rest.value == rest.value;
    }
  }

  datatype Item = Item(id: Id, verdict: Verdict)

  function ChangesOf(item: Item): Result<seq<Change>, ImportError> {
    match item.verdict
    case Skip => Success([])
    case Write(row) => Success([Change(item.id, row)])
    case Refuse(error) => Failure(error)
  }

  /** In list order: the first refusal, or the changes of every item that is news. */
  function Collect(items: seq<Item>): Result<seq<Change>, ImportError> {
    if items == [] then Success([])
    else
      var first := ChangesOf(items[0]);
      if first.Failure? then first else Joined(first.value, Collect(items[1..]))
  }

  function TombstoneItems(c: Codec, rows: map<Id, Row>, tombstones: seq<Tombstone>, now: Time): (items: seq<Item>)
    ensures |items| == |tombstones|
  {
    seq(|tombstones|, i requires 0 <= i < |tombstones| =>
      Item(tombstones[i].id, TombstoneVerdict(c, At(rows, tombstones[i].id), tombstones[i], now)))
  }

  function RecordItems(c: Codec, rows: map<Id, Row>, incoming: seq<Entry>, now: Time): (items: seq<Item>)
    ensures |items| == |incoming|
  {
    seq(|incoming|, i requires 0 <= i < |incoming| =>
      Item(incoming[i].record.id, RecordVerdict(c, At(rows, incoming[i].record.id), incoming[i], now)))
  }

  function Items(c: Codec, rows: map<Id, Row>, tombstones: seq<Tombstone>, incoming: seq<Entry>, now: Time): seq<Item> {
    TombstoneItems(c, rows, tombstones, now) + RecordItems(c, rows, incoming, now)
  }

  lemma {:induction false} CollectAppend(a: seq<Item>, b: seq<Item>)
    ensures Collect(a + b) == if Collect(a).Failure? then Collect(a) else Joined(Collect(a).value, Collect(b))
  {
    if a == [] {
      assert a + b == b;
      JoinedStep([], [], Collect(b));
    } else {
      assert (a + b)[1..] == a[1..] + b && (a + b)[0] == a[0];
      CollectAppend(a[1..], b);
      if ChangesOf(a[0]).Success? && Collect(a[1..]).Success? {
        JoinedStep(ChangesOf(a[0]).value, Collect(a[1..]).value, Collect(b));
      }
    }
  }

  function IncomingEntry(c: Codec, r: Record, now: Time): Option<Entry> {
    match RestoreRow(c, Strip(r), now, true)
    case None => None
    case Some(n) => Some(Entry(MarkRestoredVerifyOnly(n, now), r.updatedAt))
  }

  function Incoming(c: Codec, records: seq<Record>, now: Time): Result<seq<Entry>, ImportError> {
    if records == [] then Success([])
    else
      var first := IncomingEntry(c, records[0], now);
      if first.None? then Failure(BadRow) else Joined([first.value], Incoming(c, records[1..], now))
  }

  ghost predicate UniqueIds(records: seq<Entry>, tombstones: seq<Tombstone>) {
    && (forall i, j :: 0 <= i < j < |records| ==> records[i].record.id != records[j].record.id)
    && (forall i, j :: 0 <= i < j < |tombstones| ==> tombstones[i].id != tombstones[j].id)
    && (forall i, j :: 0 <= i < |records| && 0 <= j < |tombstones| ==> records[i].record.id != tombstones[j].id)
  }

  function HighWaterVerdict(highWater: Option<Mark>, mark: Mark): Option<ImportError> {
    if highWater.None? then None
    else if mark.seqNo < highWater.value.seqNo then Some(SequenceRollback)
    else if mark.seqNo == highWater.value.seqNo && mark.digest != highWater.value.digest then Some(ConflictingSnapshots)
    else None
  }

  predicate Readable(c: Codec, rows: map<Id, Row>) {
    forall id :: id in rows && rows[id].Live? ==> c.parse(rows[id].record).Some?
  }

  ghost predicate Resurrects(rows: map<Id, Row>, incoming: seq<Entry>) {
    exists i :: 0 <= i < |incoming| && incoming[i].record.id in rows && rows[incoming[i].record.id].Gone?
  }

  /** The changes an import would write, or why it refuses. */
  ghost function Plan(c: Codec, disk: Disk, s: Snapshot, now: Time): Result<seq<Change>, ImportError> {
    var high := HighWaterVerdict(disk.highWater, s.mark);
    if |s.records| + |s.tombstones| > MAX_HISTORY then Failure(BadCount)
    else if high.Some? then Failure(high.value)
    else
      var incoming := Incoming(c, s.records, now);
      if incoming.Failure? then Failure(incoming.error)
      else if !UniqueIds(incoming.value, s.tombstones) then Failure(DuplicateIds)
      else if |disk.rows| > MAX_HISTORY then Failure(TooManyLocal)
      else if !Readable(c, disk.rows) then Failure(BadRow)
      else if Resurrects(disk.rows, incoming.value) then Failure(Resurrection)
      else Collect(Items(c, disk.rows, s.tombstones, incoming.value, now))
  }

  /** What storage keeps of a row: the predecessor revision only serves the exchange itself. */
  function Durable(row: Row): Row {
    if row.Live? then Live(row.record.(predecessor := None)) else row
  }

  function Put(rows: map<Id, Row>, changes: seq<Change>): map<Id, Row> {
    if changes == [] then rows
    else Put(rows, changes[..|changes| - 1])[changes[|changes| - 1].id := Durable(changes[|changes| - 1].row)]
  }

  /**
   Whether the storage takes a row: a deletion if the record as stored, not as read, may be forgotten;
   a record if it follows the stored revision, keeps the mode and what is preserved of the stored
   record, and does not pass evidence off as local.
   */
  predicate Accepts(c: Codec, stored: Option<Row>, row: Row) {
    match row
    case Gone(digest, _) =>
      (match stored
       case None => true
       case Some(Gone(other, _)) => other == digest
       case Some(Live(r)) => r.restored || (c.mayForget(r) && c.digest(r) == digest))
    case Live(next) =>
      c.saves(next) &&
      (match stored
       case None => next.revision == 0 || next.predecessor == Some(next.revision - 1)
       case Some(Gone(_, _)) => false
       case Some(Live(prior)) => Durable(row) == Durable(Live(prior)) || Succeeds(c, prior, next))
  }

  predicate Succeeds(c: Codec, prior: Record, next: Record) {
    && next.predecessor == Some(prior.revision) && next.revision == prior.revision + 1
    && next.v3 == prior.v3 && (prior.v3 && prior.restored ==> next.restored && next.signingKey == None)
    && (prior.authority == Local || next.authority != Local) && c.preserves(prior, next)
  }

  /** Whether the storage takes the i-th change once those before it are written. */
  predicate AcceptsAt(c: Codec, rows: map<Id, Row>, changes: seq<Change>, i: nat)
    requires i < |changes|
  {
    Accepts(c, At(Put(rows, changes[..i]), changes[i].id), changes[i].row)
  }

  /** How many changes are written, from the i-th on, before the storage refuses one. */
  function AcceptedFrom(c: Codec, rows: map<Id, Row>, changes: seq<Change>, i: nat): (n: nat)
    requires i <= |changes|
    ensures i <= n <= |changes|
    ensures forall j :: i <= j < n ==> AcceptsAt(c, rows, changes, j)
    ensures n < |changes| ==> !AcceptsAt(c, rows, changes, n)
    decreases |changes| - i
  {
    if i == |changes| || !AcceptsAt(c, rows, changes, i) then i else AcceptedFrom(c, rows, changes, i + 1)
  }

  function Accepted(c: Codec, rows: map<Id, Row>, changes: seq<Change>): nat {
    AcceptedFrom(c, rows, changes, 0)
  }

  /** How many changes are written when there is time for so many. */
  function Done(c: Codec, rows: map<Id, Row>, changes: seq<Change>, writes: nat): (n: nat)
    ensures n <= |changes|
  {
    if writes < Accepted(c, rows, changes) then writes else Accepted(c, rows, changes)
  }

  /** The disk after `n` writes, the high-water mark first and then the changes in order, or a refusal. */
  function Written(c: Codec, disk: Disk, mark: Mark, changes: seq<Change>, n: nat): Disk {
    if n == 0 then disk
    else Disk(Put(disk.rows, changes[..Done(c, disk.rows, changes, n - 1)]), Some(mark))
  }

  // ---------- import, stopped after any number of writes ----------

  method HasDuplicateIds(records: seq<Entry>, tombstones: seq<Tombstone>) returns (found: bool)
    ensures found <==> !UniqueIds(records, tombstones)
  {
    var recordIds: set<Id> := {};
    for i := 0 to |records|
      invariant UniqueIds(records[..i], [])
      invariant forall id :: id in recordIds <==> exists k :: 0 <= k < i && records[k].record.id == id
    {
      if records[i].record.id in recordIds { return true; }
      recordIds := recordIds + {records[i].record.id};
    }
    var tombstoneIds: set<Id> := {};
    for i := 0 to |tombstones|
      invariant UniqueIds(records, tombstones[..i])
      invariant forall id :: id in tombstoneIds <==> exists k :: 0 <= k < i && tombstones[k].id == id
    {
      if tombstones[i].id in tombstoneIds || tombstones[i].id in recordIds { return true; }
      tombstoneIds := tombstoneIds + {tombstones[i].id};
    }
    assert tombstones[..|tombstones|] == tombstones;
    return false;
  }

  datatype Counts = Counts(imported: nat, skipped: nat, tombstonesImported: nat, tombstonesSkipped: nat)

  method RestoreRows(c: Codec, records: seq<Record>, now: Time) returns (r: Result<seq<Entry>, ImportError>)
    ensures r == Incoming(c, records, now)
  {
    var incoming: seq<Entry> := [];
    assert records[0..] == records;
    JoinedStep([], [], Incoming(c, records, now));
    for i := 0 to |records|
      invariant Incoming(c, records, now) == Joined(incoming, Incoming(c, records[i..], now))
    {
      hide IncomingEntry, Joined;
      var entry := IncomingEntry(c, records[i], now);
      assert records[i..][1..] == records[i + 1..];
      if entry.None? { return FirstFailure(incoming, BadRow); }
      JoinedStep(incoming, [entry.value], Incoming(c, records[i + 1..], now));
      incoming := incoming + [entry.value];
    }
    assert incoming + [] == incoming;
    return Success(incoming);
  }

  function FirstFailure<T>(done: seq<T>, error: ImportError): (r: Result<seq<T>, ImportError>)
    ensures r == Joined(done, Failure(error))
  {
    Failure(error)
  }

  method PlanTombstones(c: Codec, rows: map<Id, Row>, tombstones: seq<Tombstone>, now: Time)
    returns (r: Result<seq<Change>, ImportError>, skipped: nat)
    ensures r == Collect(TombstoneItems(c, rows, tombstones, now))
    ensures r.Success? ==> |r.value| + skipped == |tombstones|
  {
    var changes: seq<Change> := [];
    skipped := 0;
    ghost var items := TombstoneItems(c, rows, tombstones, now);
    assert items[0..] == items;
    JoinedStep([], [], Collect(items));
    for i := 0 to |tombstones|
      invariant Collect(items) == Joined(changes, Collect(items[i..]))
      invariant |changes| + skipped == i
    {
      hide TombstoneVerdict, Joined;
      var t := tombstones[i];
      assert items[i..][1..] == items[i + 1..];
      var v := TombstoneVerdict(c, At(rows, t.id), t, now);
      if v.Refuse? { return FirstFailure(changes, v.error), 0; }
      JoinedStep(changes, ChangesOf(Item(t.id, v)).value, Collect(items[i + 1..]));
      skipped := skipped + (if v.Skip? then 1 else 0);
      changes := changes + ChangesOf(Item(t.id, v)).value;
    }
    assert changes + [] == changes;
    return Success(changes), skipped;
  }

  method PlanRecords(c: Codec, rows: map<Id, Row>, incoming: seq<Entry>, now: Time)
    returns (r: Result<seq<Change>, ImportError>, skipped: nat)
    ensures r == Collect(RecordItems(c, rows, incoming, now))
    ensures r.Success? ==> |r.value| + skipped == |incoming|
  {
    var changes: seq<Change> := [];
    skipped := 0;
    ghost var items := RecordItems(c, rows, incoming, now);
    assert items[0..] == items;
    JoinedStep([], [], Collect(items));
    for i := 0 to |incoming|
      invariant Collect(items) == Joined(changes, Collect(items[i..]))
      invariant |changes| + skipped == i
    {
      hide RecordVerdict, Joined;
      var entry := incoming[i];
      assert items[i..][1..] == items[i + 1..];
      var v := RecordVerdict(c, At(rows, entry.record.id), entry, now);
      if v.Refuse? { return FirstFailure(changes, v.error), 0; }
      JoinedStep(changes, ChangesOf(Item(entry.record.id, v)).value, Collect(items[i + 1..]));
      skipped := skipped + (if v.Skip? then 1 else 0);
      changes := changes + ChangesOf(Item(entry.record.id, v)).value;
    }
    assert changes + [] == changes;
    return Success(changes), skipped;
  }

  method AnyResurrected(rows: map<Id, Row>, incoming: seq<Entry>) returns (found: bool)
    ensures found <==> Resurrects(rows, incoming)
  {
    for i := 0 to |incoming|
      invariant forall k :: 0 <= k < i && incoming[k].record.id in rows ==> rows[incoming[k].record.id].Live?
    {
      if incoming[i].record.id in rows && rows[incoming[i].record.id].Gone? { return true; }
    }
    return false;
  }

  class RfqHistory {
    var rows: map<Id, Row>
    var highWater: Option<Mark>

    function Contents(): Disk
      reads this
    {
      Disk(rows, highWater)
    }

    constructor ()
      ensures Contents() == Disk(map[], None)
    {
      rows, highWater := map[], None;
    }

    /**
     Import, with the device stopping after `writes` writes; an uninterrupted run has enough of them,
     and fails if the storage refuses one, with all that was written before left in place.
     */
    method Import(c: Codec, s: Snapshot, now: Time, writes: nat) returns (r: Result<Counts, ImportError>)
      modifies this
      ensures var plan := Plan(c, old(Contents()), s, now);
        && (plan.Failure? ==> r == Failure(plan.error) && Contents() == old(Contents()))
        && (plan.Success? ==>
              && Contents() == Written(c, old(Contents()), s.mark, plan.value, writes)
              && (r.Failure? <==> Accepted(c, old(rows), plan.value) < |plan.value|
                                  && Accepted(c, old(rows), plan.value) + 1 < writes)
              && (r.Failure? ==> r.error == StorageRefused)
              && (r.Success? ==> r.value.imported + r.value.tombstonesImported == |plan.value|))
      ensures r.Success? ==> r.value.imported + r.value.skipped == |s.records|
      ensures r.Success? ==> r.value.tombstonesImported + r.value.tombstonesSkipped == |s.tombstones|
    {
      hide UniqueIds, Resurrects, TombstoneItems, RecordItems, Collect, Incoming, Put;
      if |s.records| + |s.tombstones| > MAX_HISTORY { return Failure(BadCount); }
      var high := HighWaterVerdict(highWater, s.mark);
      if high.Some? { return Failure(high.value); }
      var incoming := RestoreRows(c, s.records, now);
      if incoming.Failure? { return Failure(incoming.error); }
      IncomingLength(c, s.records, now);
      var duplicate := HasDuplicateIds(incoming.value, s.tombstones);
      if duplicate { return Failure(DuplicateIds); }
      if |rows| > MAX_HISTORY { return Failure(TooManyLocal); }
      if !Readable(c, rows) { return Failure(BadRow); }
      var resurrected := AnyResurrected(rows, incoming.value);
      if resurrected { return Failure(Resurrection); }
      CollectAppend(TombstoneItems(c, rows, s.tombstones, now), RecordItems(c, rows, incoming.value, now));
      var gone, tombstonesSkipped := PlanTombstones(c, rows, s.tombstones, now);
      if gone.Failure? { return Failure(gone.error); }
      var live, skipped := PlanRecords(c, rows, incoming.value, now);
      if live.Failure? { return Failure(live.error); }
      var changes := gone.value + live.value;
      if writes > 0 {
        highWater := Some(s.mark);
        var refused := WriteChanges(c, changes, writes - 1);
        if refused { return Failure(StorageRefused); }
      }
      return Success(Counts(|live.value|, skipped, |gone.value|, tombstonesSkipped));
    }

    method WriteChanges(c: Codec, changes: seq<Change>, writes: nat) returns (refused: bool)
      modifies this`rows
      ensures rows == Put(old(rows), changes[..Done(c, old(rows), changes, writes)])
      ensures refused <==> Accepted(c, old(rows), changes) < |changes| && Accepted(c, old(rows), changes) < writes
    {
      hide Accepts, Put;
      NothingPut(rows, changes);
      for i := 0 to if writes < |changes| then writes else |changes|
        invariant rows == Put(old(rows), changes[..i])
        invariant i <= Accepted(c, old(rows), changes) == AcceptedFrom(c, old(rows), changes, i)
      {
        if !Accepts(c, At(rows, changes[i].id), changes[i].row) { return true; }
        PutOneMore(old(rows), changes, i);
        rows := rows[changes[i].id := Durable(changes[i].row)];
      }
      return false;
    }
  }

  lemma NothingPut(rows: map<Id, Row>, changes: seq<Change>)
    ensures Put(rows, changes[..0]) == rows
  {
  }

  lemma PutOneMore(rows: map<Id, Row>, changes: seq<Change>, i: nat)
    requires i < |changes|
    ensures Put(rows, changes[..i + 1]) == Put(rows, changes[..i])[changes[i].id := Durable(changes[i].row)]
  {
    assert changes[..i + 1][..i] == changes[..i];
  }

  lemma {:induction false} IncomingLength(c: Codec, records: seq<Record>, now: Time)
    requires Incoming(c, records, now).Success?
    ensures |Incoming(c, records, now).value| == |records|
  {
    if records == [] {
    } else {
      IncomingLength(c, records[1..], now);
    }
  }

  // ---------- the laws can be met ----------

  /** A codec with malformed, contradictory, forgettable and irreplaceable records among its rows. */
  ghost function SampleCodec(): Codec {
    Codec((r: Record) => if r.content == 0 then None
                         else Some(r.(predecessor := None, restored := r.v3 && r.restored)),
          (r: Record) => r.content == 1,
          (r: Record) => r.v3 && r.state == Expired,
          (r: Record) => r.content,
          (r: Record) => r.content != 1,
          (prior: Record, r: Record) => prior.content == r.content)
  }

  lemma LawfulCodecExists()
    ensures Lawful(SampleCodec())
  {
  }
}
