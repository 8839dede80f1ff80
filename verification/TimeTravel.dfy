/**
 Reading a run as of a past time gives the run as it stood then, over every
 serial history of transactions.
 */
module TimeTravel {
  import opened Wrappers
  import opened Float64
  import opened EventLog

  datatype Op =
    | OpCreateRun(id: string, row: NewRun, now: int)
    | OpUpdateRun(id: string, status: Option<Status>, endTime: Option<int>, name: Option<string>)
    | OpSetRunLifecycle(id: string, stage: Stage)
    | OpSetTag(id: string, key: TagKey, value: string)
    | OpSetTags(id: string, batch: seq<Tag>)
    | OpDeleteTag(id: string, key: TagKey)
    | OpArchiveStaleRuns(staleBefore: int, now: int, ids: seq<string>)
    | OpPruneEventsBefore(beforeMs: int)

  /** Tag rows hang off run rows: the foreign key with its cascade. */
  predicate Linked(db: Db) {
    db.runs.Keys == db.tags.Keys
  }

  function Apply(db: Db, clock: Clock, op: Op): Db
    requires Linked(db)
  {
    match op
    case OpCreateRun(id, row, now) => CreateRun(db, clock, id, row, now).db
    case OpUpdateRun(id, status, endTime, name) => UpdateRun(db, clock, id, status, endTime, name).db
    case OpSetRunLifecycle(id, stage) => SetRunLifecycle(db, clock, id, stage).db
    case OpSetTag(id, key, value) => SetTag(db, clock, id, key, value).db
    case OpSetTags(id, batch) => SetTags(db, clock, id, batch).db
    case OpDeleteTag(id, key) => DeleteTag(db, clock, id, key).db
    case OpArchiveStaleRuns(staleBefore, now, ids) => ArchiveStaleRuns(db, clock, staleBefore, now, ids).db
    case OpPruneEventsBefore(beforeMs) => PruneEventsBefore(db, beforeMs).db
  }

  /** The database after a list of transactions, run one after another. */
  ghost function After(db: Db, clock: Clock, ops: seq<Op>): (r: Db)
    requires Sound(db, clock)
    ensures Sound(r, clock)
    decreases |ops|
  {
    if ops == [] then db
    else
      var d := After(db, clock, ops[..|ops| - 1]);
      ApplySound(d, clock, ops[|ops| - 1]);
      Apply(d, clock, ops[|ops| - 1])
  }

  // ----- what every transaction keeps -----

  /** Rows carry the clock reading of their id, ids ascend, each row belongs to a run, no tag key is empty. */
  ghost predicate Sound(db: Db, clock: Clock) {
    && Linked(db)
    && (forall r | r in db.tags :: Custom("") !in db.tags[r])
    && (forall i | 0 <= i < |db.events| ::
          && db.events[i].id < db.nextId
          && db.events[i].tsMs == clock(db.events[i].id)
          && db.events[i].runId in db.runs)
    && (forall i, j | 0 <= i < j < |db.events| :: db.events[i].id < db.events[j].id)
  }

  /** Ids are never reused, runs are never removed, and experiments stay put. */
  ghost predicate Extended(db: Db, d: Db) {
    db.nextId <= d.nextId && db.runs.Keys <= d.runs.Keys && db.experiments == d.experiments
  }

  lemma {:induction false} WriteSound(db: Db, clock: Clock, runId: string, event: Event)
    requires Sound(db, clock) && runId in db.runs
    ensures Sound(WriteRunEvent(db, clock, runId, event), clock)
  {
  }

  lemma {:induction false} WriteTagEventsSound(db: Db, clock: Clock, id: string, before: Tags, batch: seq<Tag>)
    requires Sound(db, clock) && id in db.runs
    ensures var d := WriteTagEvents(db, clock, id, before, batch);
            && Sound(d, clock) && d.runs == db.runs && d.tags == db.tags
            && d.experiments == db.experiments && db.nextId <= d.nextId
  {
    if batch != [] {
      WriteTagEventsSound(db, clock, id, before, batch[..|batch| - 1]);
    }
  }

  lemma {:induction false} WriteArchivedSound(db: Db, clock: Clock, before: Db, id: string)
    requires Sound(db, clock) && id in db.runs && id in before.runs && id in before.tags
    ensures var d := WriteArchived(db, clock, before, id);
            && Sound(d, clock) && d.runs == db.runs && d.tags == db.tags
            && d.experiments == db.experiments && db.nextId <= d.nextId
  {
  }

  lemma {:induction false} WriteArchiveEventsSound(db: Db, clock: Clock, before: Db, archived: seq<string>)
    requires Sound(db, clock) && Linked(before) && before.runs.Keys == db.runs.Keys
    requires forall id <- archived :: id in before.runs
    ensures var d := WriteArchiveEvents(db, clock, before, archived);
            && Sound(d, clock) && d.runs == db.runs && d.tags == db.tags
            && d.experiments == db.experiments && db.nextId <= d.nextId
  {
    if archived != [] {
      var init := archived[..|archived| - 1];
      WriteArchiveEventsSound(db, clock, before, init);
      WriteArchivedSound(WriteArchiveEvents(db, clock, before, init), clock, before, archived[|archived| - 1]);
    }
  }

  lemma {:induction false} ArchiveOneSound(db: Db, clock: Clock, id: string, now: int)
    requires Sound(db, clock) && id in db.runs
    ensures var d := ArchiveOne(db, id, now);
            Sound(d, clock) && d.events == db.events && d.nextId == db.nextId && d.experiments == db.experiments
  {
  }

  lemma {:induction false} ArchiveRowsSound(db: Db, clock: Clock, ids: seq<string>, now: int)
    requires Sound(db, clock)
    ensures var d := ArchiveRows(db, ids, now).0;
            Sound(d, clock) && d.events == db.events && d.nextId == db.nextId && d.experiments == db.experiments
  {
    if ids != [] {
      var (d, _) := ArchiveRows(db, ids[..|ids| - 1], now);
      ArchiveRowsSound(db, clock, ids[..|ids| - 1], now);
      if Archivable(d, ids[|ids| - 1]) {
        ArchiveOneSound(d, clock, ids[|ids| - 1], now);
      }
    }
  }

  lemma {:induction false} KeepSinceSound(db: Db, clock: Clock, rows: seq<EventRow>, beforeMs: int)
    requires Sound(db.(events := rows), clock)
    ensures Sound(db.(events := KeepSince(rows, beforeMs)), clock)
    ensures rows != [] ==> forall e <- KeepSince(rows, beforeMs) :: e.id <= rows[|rows| - 1].id
    decreases |rows|
  {
    if rows != [] {
      KeepSinceSound(db, clock, rows[..|rows| - 1], beforeMs);
    }
  }

  /** Rewriting rows and logging an event, the shape of every mutation. */
  lemma {:induction false} RewriteSound(db: Db, d: Db, clock: Clock, id: string, e: Event)
    requires Sound(db, clock) && Linked(d) && id in d.runs && Extended(db, d)
    requires d.events == db.events && d.nextId == db.nextId
    requires forall r | r in d.tags :: Custom("") !in d.tags[r]
    ensures Sound(d, clock) && Sound(WriteRunEvent(d, clock, id, e), clock)
    ensures Extended(db, WriteRunEvent(d, clock, id, e))
  {
    assert forall k | 0 <= k < |d.events| :: d.events[k].runId in db.runs;
    WriteSound(d, clock, id, e);
  }

  lemma {:induction false} CreateRunSound(db: Db, clock: Clock, id: string, row: NewRun, now: int)
    requires Sound(db, clock)
    ensures var d := CreateRun(db, clock, id, row, now).db; Sound(d, clock) && Extended(db, d)
  {
    var step := CreateRun(db, clock, id, row, now);
    if step.outcome == Done {
      var inserted := db.(runs := db.runs[id := Inserted(id, row, now)], tags := db.tags[id := map[]]);
      var linked := inserted.(runs := inserted.runs[id := inserted.runs[id].(parent := row.parent)]);
      RewriteSound(db, inserted, clock, id, RunParent(Capture(inserted.runs[id])));
      if row.parent != "" {
        RewriteSound(db, linked, clock, id, RunParent(Capture(inserted.runs[id])));
        var synced := SyncParentRunId(inserted, clock, id, row.parent).db;
        RewriteSound(synced, UpsertTag(synced, id, ParentTag, row.parent), clock, id,
                     TagSet(ParentTag, row.parent, None));
      }
    }
  }

  lemma {:induction false} SetTagSound(db: Db, clock: Clock, id: string, key: TagKey, value: string)
    requires Sound(db, clock)
    ensures var d := SetTag(db, clock, id, key, value).db; Sound(d, clock) && Extended(db, d)
  {
    if id in db.runs && ValidKey(key) {
      var event := TagSet(key, value, Lookup(db.tags[id], key));
      RewriteSound(db, UpsertTag(db, id, key, value), clock, id, event);
      var tagged := WriteRunEvent(UpsertTag(db, id, key, value), clock, id, event);
      RewriteSound(tagged, tagged.(runs := tagged.runs[id := tagged.runs[id].(parent := value)]), clock, id,
                   RunParent(Capture(tagged.runs[id])));
    }
  }

  lemma {:induction false} UpsertAllKeys(tags: Tags, batch: seq<Tag>)
    requires Custom("") !in tags && forall i | 0 <= i < |batch| :: ValidKey(batch[i].key)
    ensures Custom("") !in UpsertAll(tags, batch)
  {
    if batch != [] {
      UpsertAllKeys(tags, batch[..|batch| - 1]);
    }
  }

  /** Everything a tag batch does before it touches the parent column. */
  lemma {:induction false} LoggedBatchSound(db: Db, clock: Clock, id: string, batch: seq<Tag>)
    requires Sound(db, clock) && id in db.runs && forall i | 0 <= i < |batch| :: ValidKey(batch[i].key)
    ensures var upserted := db.(tags := db.tags[id := UpsertAll(db.tags[id], batch)]);
            var d := WriteTagEvents(upserted, clock, id, db.tags[id], batch);
            Sound(d, clock) && Extended(db, d) && d.runs == db.runs && d.tags == upserted.tags
  {
    UpsertAllKeys(db.tags[id], batch);
    var upserted := db.(tags := db.tags[id := UpsertAll(db.tags[id], batch)]);
    RewriteSound(db, upserted, clock, id, TagDelete(ParentTag, ""));
    WriteTagEventsSound(upserted, clock, id, db.tags[id], batch);
  }

  lemma {:induction false} SetTagsSound(db: Db, clock: Clock, id: string, batch: seq<Tag>)
    requires Sound(db, clock)
    ensures var d := SetTags(db, clock, id, batch).db; Sound(d, clock) && Extended(db, d)
  {
    if SetTags(db, clock, id, batch).outcome == Done {
      LoggedBatchSound(db, clock, id, batch);
      var upserted := db.(tags := db.tags[id := UpsertAll(db.tags[id], batch)]);
      var logged := WriteTagEvents(upserted, clock, id, db.tags[id], batch);
      if LastParent(batch) != "" {
        RewriteSound(logged, logged.(runs := logged.runs[id := db.runs[id].(parent := LastParent(batch))]), clock, id,
                     RunParent(Capture(db.runs[id])));
      }
    }
  }

  lemma {:induction false} ArchiveSound(db: Db, clock: Clock, staleBefore: int, now: int, ids: seq<string>)
    requires Sound(db, clock)
    ensures var d := ArchiveStaleRuns(db, clock, staleBefore, now, ids).db;
            Sound(d, clock) && Extended(db, d)
  {
    var stale := StaleAmong(db, staleBefore, ids);
    ArchiveRowsSound(db, clock, stale, now);
    ArchivedWereRuns(db, stale, now);
    var (d, archived) := ArchiveRows(db, stale, now);
    WriteArchiveEventsSound(d, clock, db, archived);
  }

  lemma {:induction false} RunMutationSound(db: Db, clock: Clock, op: Op)
    requires Sound(db, clock) && (op.OpUpdateRun? || op.OpSetRunLifecycle? || op.OpDeleteTag?)
    ensures Sound(Apply(db, clock, op), clock) && Extended(db, Apply(db, clock, op))
  {
    var d := Apply(db, clock, op);
    if d != db {
      var e := d.events[|db.events|].event;
      RewriteSound(db, db.(runs := d.runs, tags := d.tags), clock, op.id, e);
    }
  }

  lemma {:induction false} ApplySound(db: Db, clock: Clock, op: Op)
    requires Sound(db, clock)
    ensures Sound(Apply(db, clock, op), clock)
    ensures Extended(db, Apply(db, clock, op))
  {
    match op
    case OpCreateRun(id, row, now) => CreateRunSound(db, clock, id, row, now);
    case OpSetTag(id, key, value) => SetTagSound(db, clock, id, key, value);
    case OpSetTags(id, batch) => SetTagsSound(db, clock, id, batch);
    case OpArchiveStaleRuns(staleBefore, now, ids) => ArchiveSound(db, clock, staleBefore, now, ids);
    case OpPruneEventsBefore(beforeMs) =>
      assert db.(events := db.events) == db;
      KeepSinceSound(db, clock, db.events, beforeMs);
    case _ => RunMutationSound(db, clock, op);
  }

  // ----- undoing the newer events -----

  ghost predicate Monotone(clock: Clock) {
    forall i, j | i <= j :: clock(i) <= clock(j)
  }

  /** Every reading for the ids from n up to m is later than t. */
  ghost predicate LaterIn(clock: Clock, n: nat, m: nat, t: int) {
    forall i | n <= i < m :: t < clock(i)
  }

  predicate ExactTime(t: Option<int>) {
    t.Some? ==> RoundTrip(t.value) == t.value
  }

  /** Every stored end time survives a float64. */
  ghost predicate ExactTimes(db: Db) {
    forall r | r in db.runs :: ExactTime(db.runs[r].endTime)
  }

  predicate ExactOp(op: Op) {
    match op
    case OpCreateRun(_, row, _) => ExactTime(row.endTime)
    case OpUpdateRun(_, _, endTime, _) => ExactTime(endTime)
    case OpArchiveStaleRuns(_, now, _) => ExactTime(Some(now))
    case _ => true
  }

  /** The events of one run after time t, in log order. */
  function Newer(db: Db, r: string, t: int): seq<Event> {
    EventsAfter(RowsOf(db.events, r), t)
  }

  /** The view of a run with its events after t undone. */
  function Past(db: Db, r: string, t: int): RunView
    requires r in db.runs && r in db.tags
  {
    RunView(UndoRuns(db.runs[r], Newer(db, r, t)), UndoTags(db.tags[r], Newer(db, r, t)))
  }

  /** The undone view of a run is the same in both databases. */
  ghost predicate KeepsPast(db: Db, d: Db, r: string, t: int)
    requires r in db.runs && r in db.tags
  {
    r in d.runs && r in d.tags && Past(d, r, t) == Past(db, r, t)
  }

  lemma {:induction false} RowsPush(rows: seq<EventRow>, row: EventRow, r: string, t: int)
    ensures RowsOf(rows + [row], r) == if row.runId == r then RowsOf(rows, r) + [row] else RowsOf(rows, r)
    ensures EventsAfter(rows + [row], t) ==
            if row.tsMs > t then EventsAfter(rows, t) + [row.event] else EventsAfter(rows, t)
  {
  }

  lemma {:induction false} NewerAfterWrite(db: Db, clock: Clock, id: string, e: Event, r: string, t: int)
    ensures Newer(WriteRunEvent(db, clock, id, e), r, t)
         == if id == r && clock(db.nextId) > t then Newer(db, r, t) + [e] else Newer(db, r, t)
  {
  }

  /** Undoing one more event first. */
  lemma {:induction false} UndoSnoc(run: Run, tags: Tags, events: seq<Event>, e: Event)
    ensures UndoRuns(run, events + [e]) == UndoRuns(UndoRun(run, e), events)
    ensures UndoTags(tags, events + [e]) == UndoTags(UndoTag(tags, e), events)
  {
  }

  /** Rewriting a run's row and logging an event that undoes the rewrite leaves its past alone. */
  lemma {:induction false} WriteKeepsPast(db: Db, d: Db, clock: Clock, id: string, e: Event, r: string, t: int)
    requires Linked(db) && Linked(d) && r in db.runs && r in d.runs
    requires d.events == db.events && t < clock(d.nextId)
    requires r == id ==> UndoRun(d.runs[r], e) == db.runs[r] && UndoTag(d.tags[r], e) == db.tags[r]
    requires r != id ==> d.runs[r] == db.runs[r] && d.tags[r] == db.tags[r]
    ensures Past(WriteRunEvent(d, clock, id, e), r, t) == Past(db, r, t)
  {
  }

  lemma {:induction false} UpsertAllFrame(tags: Tags, batch: seq<Tag>, k: TagKey)
    requires forall i | 0 <= i < |batch| :: batch[i].key != k
    ensures Lookup(UpsertAll(tags, batch), k) == Lookup(tags, k)
    decreases |batch|
  {
    if batch != [] {
      UpsertAllFrame(tags, batch[..|batch| - 1], k);
    }
  }

  /**
   Undoing a batch of tag events, repeated keys included: each event restores the
   value before the batch, so any map that differs from it only on batch keys is restored.
   */
  lemma {:induction false} UndoTagBatch(db: Db, clock: Clock, id: string, base: Tags,
                                        batch: seq<Tag>, run: Run, tags: Tags, r: string, t: int)
    requires LaterIn(clock, db.nextId, WriteTagEvents(db, clock, id, base, batch).nextId, t)
    requires forall i | 0 <= i < |batch| :: batch[i].key != Custom("")
    requires forall k | (forall i | 0 <= i < |batch| :: batch[i].key != k) :: Lookup(tags, k) == Lookup(base, k)
    ensures var newer := Newer(WriteTagEvents(db, clock, id, base, batch), r, t);
            if r == id then
              && UndoTags(tags, newer) == UndoTags(base, Newer(db, r, t))
              && UndoRuns(run, newer) == UndoRuns(run, Newer(db, r, t))
            else newer == Newer(db, r, t)
    ensures db.nextId <= WriteTagEvents(db, clock, id, base, batch).nextId
    decreases |batch|
  {
    if batch == [] {
      assert forall k :: Lookup(tags, k) == Lookup(base, k);
      assert tags.Keys == base.Keys by {
        forall k ensures k in tags <==> k in base { assert Lookup(tags, k) == Lookup(base, k); }
      }
      forall k | k in tags ensures tags[k] == base[k] { assert Lookup(tags, k) == Lookup(base, k); }
      assert tags == base;
    } else {
      var init, last := batch[..|batch| - 1], batch[|batch| - 1];
      var e := TagSet(last.key, last.value, Lookup(base, last.key));
      var undone := UndoTag(tags, e);
      forall k | (forall i | 0 <= i < |init| :: init[i].key != k)
        ensures Lookup(undone, k) == Lookup(base, k)
      {
        if k != last.key {
          assert forall i | 0 <= i < |batch| :: batch[i].key != k;
        }
      }
      UndoTagBatch(db, clock, id, base, init, run, undone, r, t);
      var d := WriteTagEvents(db, clock, id, base, init);
      NewerAfterWrite(d, clock, id, e, r, t);
      UndoSnoc(run, tags, Newer(d, r, t), e);
    }
  }

  lemma {:induction false} LoggedBatchKeepsPast(db: Db, clock: Clock, id: string, batch: seq<Tag>, r: string, t: int)
    requires Sound(db, clock) && r in db.runs && id in db.runs
    requires forall i | 0 <= i < |batch| :: ValidKey(batch[i].key)
    requires var upserted := db.(tags := db.tags[id := UpsertAll(db.tags[id], batch)]);
             LaterIn(clock, db.nextId, WriteTagEvents(upserted, clock, id, db.tags[id], batch).nextId, t)
    ensures var upserted := db.(tags := db.tags[id := UpsertAll(db.tags[id], batch)]);
            var d := WriteTagEvents(upserted, clock, id, db.tags[id], batch);
            r in d.runs && r in d.tags && Past(d, r, t) == Past(db, r, t)
  {
    var before := db.tags[id];
    var upserted := db.(tags := db.tags[id := UpsertAll(before, batch)]);
    forall k | (forall i | 0 <= i < |batch| :: batch[i].key != k)
      ensures Lookup(UpsertAll(before, batch), k) == Lookup(before, k)
    {
      UpsertAllFrame(before, batch, k);
    }
    UndoTagBatch(upserted, clock, id, before, batch, db.runs[r], UpsertAll(before, batch), r, t);
    LoggedBatchSound(db, clock, id, batch);
  }

  /** The parent column and its event. */
  lemma {:induction false} ParentKeepsPast(db: Db, clock: Clock, id: string, parent: string, r: string, t: int)
    requires Linked(db) && r in db.runs && id in db.runs && parent in db.runs && t < clock(db.nextId)
    ensures KeepsPast(db, SyncParentRunId(db, clock, id, parent).db, r, t)
  {
    var linked := db.(runs := db.runs[id := db.runs[id].(parent := parent)]);
    WriteKeepsPast(db, linked, clock, id, RunParent(Capture(db.runs[id])), r, t);
  }

  lemma {:induction false} SetTagsKeepsPast(db: Db, clock: Clock, id: string, batch: seq<Tag>, r: string, t: int)
    requires Sound(db, clock) && r in db.runs
    requires LaterIn(clock, db.nextId, SetTags(db, clock, id, batch).db.nextId, t)
    ensures KeepsPast(db, SetTags(db, clock, id, batch).db, r, t)
  {
    if SetTags(db, clock, id, batch).outcome == Done {
      LoggedBatchSound(db, clock, id, batch);
      LoggedBatchKeepsPast(db, clock, id, batch, r, t);
      var upserted := db.(tags := db.tags[id := UpsertAll(db.tags[id], batch)]);
      var logged := WriteTagEvents(upserted, clock, id, db.tags[id], batch);
      if LastParent(batch) != "" {
        ParentKeepsPast(logged, clock, id, LastParent(batch), r, t);
      }
    }
  }

  /** d differs from db, for run r, at most in the columns that archiving writes. */
  ghost predicate ArchiveFrame(db: Db, run: Run, tags: Tags, r: string)
    requires r in db.runs && r in db.tags
  {
    && run == db.runs[r].(status := run.status, endTime := run.endTime)
    && (forall k | k != ArchivedTag :: Lookup(tags, k) == Lookup(db.tags[r], k))
  }

  lemma {:induction false} ArchiveOneFrame(db: Db, d: Db, id: string, now: int, r: string)
    requires Linked(db) && Linked(d) && r in db.runs && r in d.runs && id in d.runs
    requires ArchiveFrame(db, d.runs[r], d.tags[r], r)
    ensures var e := ArchiveOne(d, id, now);
            && r in e.runs && r in e.tags && ArchiveFrame(db, e.runs[r], e.tags[r], r)
            && (r != id ==> e.runs[r] == d.runs[r] && e.tags[r] == d.tags[r])
  {
  }

  lemma {:induction false} ArchiveRowsFrame(db: Db, ids: seq<string>, now: int, r: string)
    requires Linked(db) && r in db.runs
    ensures var (d, archived) := ArchiveRows(db, ids, now);
            && ArchiveFrame(db, d.runs[r], d.tags[r], r)
            && (r !in archived ==> d.runs[r] == db.runs[r] && d.tags[r] == db.tags[r])
  {
    if ids != [] {
      var (d, archived) := ArchiveRows(db, ids[..|ids| - 1], now);
      ArchiveRowsFrame(db, ids[..|ids| - 1], now, r);
      if Archivable(d, ids[|ids| - 1]) {
        ArchiveOneFrame(db, d, ids[|ids| - 1], now, r);
      }
    }
  }

  /** Undoing the two events of one archived run. */
  lemma {:induction false} UndoArchived(db: Db, clock: Clock, before: Db, id: string, run: Run, tags: Tags, r: string,
                                        t: int)
    requires Linked(before) && r in before.runs && id in before.runs && ExactTime(before.runs[r].endTime)
    requires t < clock(db.nextId) && t < clock(db.nextId + 1)
    requires ArchiveFrame(before, run, tags, r)
    ensures var newer := Newer(WriteArchived(db, clock, before, id), r, t);
            if r == id then
              && UndoRuns(run, newer) == UndoRuns(before.runs[r], Newer(db, r, t))
              && UndoTags(tags, newer) == UndoTags(before.tags[r], Newer(db, r, t))
            else newer == Newer(db, r, t)
  {
    var e1 := RunUpdate(Capture(before.runs[id]));
    var e2 := TagSet(ArchivedTag, "stale", Lookup(before.tags[id], ArchivedTag));
    var d := WriteRunEvent(db, clock, id, e1);
    NewerAfterWrite(db, clock, id, e1, r, t);
    NewerAfterWrite(d, clock, id, e2, r, t);
    if id == r {
      RestoreTag(tags, before.tags[r], ArchivedTag, "stale");
      UndoSnoc(run, tags, Newer(d, r, t), e2);
      UndoSnoc(run, before.tags[r], Newer(db, r, t), e1);
    }
  }

  /** Undoing the events of one archiving transaction. */
  lemma {:induction false} UndoArchive(db: Db, clock: Clock, before: Db, archived: seq<string>,
                                       run: Run, tags: Tags, r: string, t: int)
    requires Linked(before) && r in before.runs && forall id <- archived :: id in before.runs
    requires LaterIn(clock, db.nextId, WriteArchiveEvents(db, clock, before, archived).nextId, t)
    requires ExactTime(before.runs[r].endTime) && ArchiveFrame(before, run, tags, r)
    requires r !in archived ==> run == before.runs[r] && tags == before.tags[r]
    ensures var newer := Newer(WriteArchiveEvents(db, clock, before, archived), r, t);
            && UndoRuns(run, newer) == UndoRuns(before.runs[r], Newer(db, r, t))
            && UndoTags(tags, newer) == UndoTags(before.tags[r], Newer(db, r, t))
    ensures db.nextId <= WriteArchiveEvents(db, clock, before, archived).nextId
    decreases |archived|
  {
    if archived != [] {
      var init, id := archived[..|archived| - 1], archived[|archived| - 1];
      var d := WriteArchiveEvents(db, clock, before, init);
      if id == r {
        UndoArchive(db, clock, before, init, before.runs[r], before.tags[r], r, t);
      } else {
        UndoArchive(db, clock, before, init, run, tags, r, t);
      }
      UndoArchived(d, clock, before, id, run, tags, r, t);
    }
  }

  lemma {:induction false} RestoreTag(tags: Tags, base: Tags, key: TagKey, value: string)
    requires key != Custom("") && forall k | k != key :: Lookup(tags, k) == Lookup(base, k)
    ensures UndoTag(tags, TagSet(key, value, Lookup(base, key))) == base
  {
    var u := UndoTag(tags, TagSet(key, value, Lookup(base, key)));
    forall k ensures Lookup(u, k) == Lookup(base, k) {
      if k != key { assert Lookup(tags, k) == Lookup(base, k); }
    }
    forall k ensures k in u <==> k in base { assert Lookup(u, k) == Lookup(base, k); }
    forall k | k in u ensures u[k] == base[k] { assert Lookup(u, k) == Lookup(base, k); }
  }

  lemma {:induction false} ArchiveKeepsPast(db: Db, clock: Clock, staleBefore: int, now: int, ids: seq<string>,
                                            r: string, t: int)
    requires Sound(db, clock) && ExactTimes(db) && r in db.runs
    requires LaterIn(clock, db.nextId, ArchiveStaleRuns(db, clock, staleBefore, now, ids).db.nextId, t)
    ensures KeepsPast(db, ArchiveStaleRuns(db, clock, staleBefore, now, ids).db, r, t)
  {
    var stale := StaleAmong(db, staleBefore, ids);
    ArchiveRowsSound(db, clock, stale, now);
    ArchivedWereRuns(db, stale, now);
    ArchiveRowsFrame(db, stale, now, r);
    var (d, archived) := ArchiveRows(db, stale, now);
    WriteArchiveEventsSound(d, clock, db, archived);
    UndoArchive(d, clock, db, archived, d.runs[r], d.tags[r], r, t);
  }

  /** The tag and its event. */
  lemma {:induction false} TaggedKeepsPast(db: Db, clock: Clock, id: string, key: TagKey, value: string, r: string,
                                           t: int)
    requires Linked(db) && r in db.runs && id in db.runs && key != Custom("") && t < clock(db.nextId)
    ensures var event := TagSet(key, value, Lookup(db.tags[id], key));
            KeepsPast(db, WriteRunEvent(UpsertTag(db, id, key, value), clock, id, event), r, t)
  {
    var upserted := UpsertTag(db, id, key, value);
    RestoreTag(upserted.tags[id], db.tags[id], key, value);
    WriteKeepsPast(db, upserted, clock, id, TagSet(key, value, Lookup(db.tags[id], key)), r, t);
  }

  lemma {:induction false} SetTagKeepsPast(db: Db, clock: Clock, id: string, key: TagKey, value: string, r: string,
                                           t: int)
    requires Sound(db, clock) && r in db.runs
    requires LaterIn(clock, db.nextId, SetTag(db, clock, id, key, value).db.nextId, t)
    ensures KeepsPast(db, SetTag(db, clock, id, key, value).db, r, t)
  {
    if SetTag(db, clock, id, key, value).outcome == Done {
      TaggedKeepsPast(db, clock, id, key, value, r, t);
      if key == ParentTag && value != "" {
        var event := TagSet(key, value, Lookup(db.tags[id], key));
        ParentKeepsPast(WriteRunEvent(UpsertTag(db, id, key, value), clock, id, event), clock, id, value, r, t);
      }
    }
  }

  /** Writing the parent of a fresh run, to the column and to the mirror tag. */
  lemma {:induction false} MirrorKeepsPast(db: Db, clock: Clock, id: string, parent: string, r: string, t: int)
    requires Linked(db) && r in db.runs && id in db.runs && parent in db.runs && ParentTag !in db.tags[id]
    requires t < clock(db.nextId) && t < clock(db.nextId + 1)
    ensures var synced := SyncParentRunId(db, clock, id, parent).db;
            var mirror := TagSet(ParentTag, parent, None);
            var d := WriteRunEvent(UpsertTag(synced, id, ParentTag, parent), clock, id, mirror);
            KeepsPast(db, d, r, t)
  {
    var linked := db.(runs := db.runs[id := db.runs[id].(parent := parent)]);
    var synced := SyncParentRunId(db, clock, id, parent).db;
    WriteKeepsPast(db, linked, clock, id, RunParent(Capture(db.runs[id])), r, t);
    RestoreTag(db.tags[id][ParentTag := parent], db.tags[id], ParentTag, parent);
    WriteKeepsPast(synced, UpsertTag(synced, id, ParentTag, parent), clock, id, TagSet(ParentTag, parent, None), r, t);
  }

  lemma {:induction false} CreateRunKeepsPast(db: Db, clock: Clock, id: string, row: NewRun, now: int, r: string,
                                              t: int)
    requires Sound(db, clock)
    requires LaterIn(clock, db.nextId, CreateRun(db, clock, id, row, now).db.nextId, t)
    ensures var step := CreateRun(db, clock, id, row, now);
            && (r in db.runs ==> KeepsPast(db, step.db, r, t))
            && (r == id && step.outcome == Done ==>
                  && r in step.db.runs && r in step.db.tags
                  && Past(step.db, r, t) == RunView(Inserted(id, row, now), map[]))
  {
    if CreateRun(db, clock, id, row, now).outcome == Done {
      var inserted := db.(runs := db.runs[id := Inserted(id, row, now)], tags := db.tags[id := map[]]);
      NoRows(db, clock, db.events, id, t);
      if row.parent != "" && (r in db.runs || r == id) {
        MirrorKeepsPast(inserted, clock, id, row.parent, r, t);
      }
    }
  }

  /** A run that does not exist has no events. */
  lemma {:induction false} NoRows(db: Db, clock: Clock, rows: seq<EventRow>, r: string, t: int)
    requires forall i | 0 <= i < |rows| :: rows[i].runId in db.runs
    requires r !in db.runs
    ensures RowsOf(rows, r) == []
  {
    if rows != [] {
      NoRows(db, clock, rows[..|rows| - 1], r, t);
    }
  }

  /** The newer events of a log grow by the event of its last row, if it is one of them. */
  lemma {:induction false} NewerPush(rows: seq<EventRow>, row: EventRow, r: string, t: int)
    ensures EventsAfter(RowsOf(rows + [row], r), t)
         == if row.runId == r && row.tsMs > t then EventsAfter(RowsOf(rows, r), t) + [row.event]
            else EventsAfter(RowsOf(rows, r), t)
  {
    RowsPush(rows, row, r, t);
    RowsPush(RowsOf(rows, r), row, r, t);
  }

  /** Pruning rows no later than t does not touch the events after t. */
  lemma {:induction false} PruneKeepsNewer(rows: seq<EventRow>, r: string, beforeMs: int, t: int)
    requires beforeMs <= t + 1
    ensures EventsAfter(RowsOf(KeepSince(rows, beforeMs), r), t) == EventsAfter(RowsOf(rows, r), t)
  {
    if rows != [] {
      var init, row := rows[..|rows| - 1], rows[|rows| - 1];
      PruneKeepsNewer(init, r, beforeMs, t);
      assert rows == init + [row];
      NewerPush(init, row, r, t);
      NewerPush(KeepSince(init, beforeMs), row, r, t);
    }
  }

  lemma {:induction false} UpdateRunKeepsPast(db: Db, clock: Clock, id: string, status: Option<Status>,
                                              endTime: Option<int>, name: Option<string>, r: string, t: int)
    requires Sound(db, clock) && ExactTimes(db) && r in db.runs
    requires LaterIn(clock, db.nextId, UpdateRun(db, clock, id, status, endTime, name).db.nextId, t)
    ensures KeepsPast(db, UpdateRun(db, clock, id, status, endTime, name).db, r, t)
  {
    var d := UpdateRun(db, clock, id, status, endTime, name).db;
    if d != db {
      WriteKeepsPast(db, db.(runs := d.runs), clock, id, RunUpdate(Capture(db.runs[id])), r, t);
    }
  }

  lemma {:induction false} SetRunLifecycleKeepsPast(db: Db, clock: Clock, id: string, stage: Stage, r: string, t: int)
    requires Sound(db, clock) && r in db.runs
    requires LaterIn(clock, db.nextId, SetRunLifecycle(db, clock, id, stage).db.nextId, t)
    ensures KeepsPast(db, SetRunLifecycle(db, clock, id, stage).db, r, t)
  {
    var d := SetRunLifecycle(db, clock, id, stage).db;
    if d != db {
      WriteKeepsPast(db, db.(runs := d.runs), clock, id, RunLifecycle(Capture(db.runs[id])), r, t);
    }
  }

  lemma {:induction false} DeleteTagKeepsPast(db: Db, clock: Clock, id: string, key: TagKey, r: string, t: int)
    requires Sound(db, clock) && r in db.runs
    requires LaterIn(clock, db.nextId, DeleteTag(db, clock, id, key).db.nextId, t)
    ensures KeepsPast(db, DeleteTag(db, clock, id, key).db, r, t)
  {
    var d := DeleteTag(db, clock, id, key).db;
    if id in db.tags && key in db.tags[id] {
      assert d.tags[id][key := db.tags[id][key]] == db.tags[id];
      WriteKeepsPast(db, db.(tags := d.tags), clock, id, TagDelete(key, db.tags[id][key]), r, t);
    }
  }

  /** No transaction changes what a run looks like with its later events undone. */
  lemma {:induction false} ApplyKeepsPast(db: Db, clock: Clock, op: Op, r: string, t: int)
    requires Sound(db, clock) && ExactTimes(db) && r in db.runs
    requires LaterIn(clock, db.nextId, Apply(db, clock, op).nextId, t)
    requires op.OpPruneEventsBefore? ==> op.beforeMs <= t + 1
    ensures KeepsPast(db, Apply(db, clock, op), r, t)
  {
    match op
    case OpCreateRun(id, row, now) => CreateRunKeepsPast(db, clock, id, row, now, r, t);
    case OpUpdateRun(id, status, endTime, name) => UpdateRunKeepsPast(db, clock, id, status, endTime, name, r, t);
    case OpSetRunLifecycle(id, stage) => SetRunLifecycleKeepsPast(db, clock, id, stage, r, t);
    case OpSetTag(id, key, value) => SetTagKeepsPast(db, clock, id, key, value, r, t);
    case OpSetTags(id, batch) => SetTagsKeepsPast(db, clock, id, batch, r, t);
    case OpDeleteTag(id, key) => DeleteTagKeepsPast(db, clock, id, key, r, t);
    case OpArchiveStaleRuns(staleBefore, now, ids) => ArchiveKeepsPast(db, clock, staleBefore, now, ids, r, t);
    case OpPruneEventsBefore(beforeMs) => PruneKeepsNewer(db.events, r, beforeMs, t);
  }

  // ----- whole histories -----

  ghost predicate ExactOps(ops: seq<Op>) {
    forall op <- ops :: ExactOp(op)
  }

  lemma {:induction false} ArchiveRowsExact(db: Db, ids: seq<string>, now: int)
    requires Linked(db) && ExactTimes(db) && ExactTime(Some(now))
    ensures ExactTimes(ArchiveRows(db, ids, now).0)
  {
    if ids != [] {
      ArchiveRowsExact(db, ids[..|ids| - 1], now);
    }
  }

  lemma {:induction false} SetTagsExact(db: Db, clock: Clock, id: string, batch: seq<Tag>)
    requires Sound(db, clock) && ExactTimes(db)
    ensures ExactTimes(SetTags(db, clock, id, batch).db)
  {
    if SetTags(db, clock, id, batch).outcome == Done {
      LoggedBatchSound(db, clock, id, batch);
    }
  }

  lemma {:induction false} ArchiveExact(db: Db, clock: Clock, staleBefore: int, now: int, ids: seq<string>)
    requires Sound(db, clock) && ExactTimes(db) && ExactTime(Some(now))
    ensures ExactTimes(ArchiveStaleRuns(db, clock, staleBefore, now, ids).db)
  {
    var stale := StaleAmong(db, staleBefore, ids);
    ArchiveRowsExact(db, stale, now);
    ArchiveRowsSound(db, clock, stale, now);
    ArchivedWereRuns(db, stale, now);
    var (d, archived) := ArchiveRows(db, stale, now);
    WriteArchiveEventsSound(d, clock, db, archived);
  }

  lemma {:induction false} ApplyExact(db: Db, clock: Clock, op: Op)
    requires Sound(db, clock) && ExactTimes(db) && ExactOp(op)
    ensures ExactTimes(Apply(db, clock, op))
  {
    match op
    case OpSetTags(id, batch) => SetTagsExact(db, clock, id, batch);
    case OpArchiveStaleRuns(staleBefore, now, ids) => ArchiveExact(db, clock, staleBefore, now, ids);
    case _ =>
  }

  lemma {:induction false} AfterKeepsPast(db: Db, clock: Clock, ops: seq<Op>, r: string, t: int)
    requires Sound(db, clock) && ExactTimes(db) && ExactOps(ops) && r in db.runs
    requires LaterIn(clock, db.nextId, After(db, clock, ops).nextId, t)
    requires forall op <- ops :: op.OpPruneEventsBefore? ==> op.beforeMs <= t + 1
    ensures var d := After(db, clock, ops);
            && db.nextId <= d.nextId && r in d.runs && ExactTimes(d)
            && d.experiments == db.experiments
            && Past(d, r, t) == Past(db, r, t)
    decreases |ops|
  {
    if ops != [] {
      var init, op := ops[..|ops| - 1], ops[|ops| - 1];
      var d := After(db, clock, init);
      ApplySound(d, clock, op);
      AfterKeepsPast(db, clock, init, r, t);
      ApplyExact(d, clock, op);
      ApplyKeepsPast(d, clock, op, r, t);
    }
  }

  /** Undoing never touches the columns that no mutation writes. */
  lemma {:induction false} UndoFixedColumns(run: Run, events: seq<Event>)
    ensures var u := UndoRuns(run, events);
            u.startTime == run.startTime && u.experimentId == run.experimentId
    decreases |events|
  {
    if events != [] {
      UndoFixedColumns(UndoRun(run, events[|events| - 1]), events[..|events| - 1]);
    }
  }

  /** The rows of one run inherit the order of the log. */
  lemma {:induction false} RowsOfOrdered(rows: seq<EventRow>, r: string)
    requires Ordered(rows)
    ensures Ordered(RowsOf(rows, r))
    ensures forall e <- RowsOf(rows, r) :: e in rows
    decreases |rows|
  {
    if rows != [] {
      var init, last := rows[..|rows| - 1], rows[|rows| - 1];
      RowsOfOrdered(init, r);
      forall e | e in RowsOf(init, r)
        ensures e in rows && EarlierRow(e, last)
      {
        var i :| 0 <= i < |init| && init[i] == e;
        assert rows[i] == e;
      }
    }
  }

  ghost predicate Ordered(rows: seq<EventRow>) {
    forall i, j | 0 <= i < j < |rows| :: EarlierRow(rows[i], rows[j])
  }

  ghost predicate AllEarlier(rows: seq<EventRow>, row: EventRow) {
    forall e <- rows :: EarlierRow(e, row)
  }

  lemma {:induction false} OrderedPush(rows: seq<EventRow>, row: EventRow)
    requires Ordered(rows) && AllEarlier(rows, row)
    ensures Ordered(rows + [row])
  {
  }

  lemma {:induction false} OrderedInit(rows: seq<EventRow>)
    requires Ordered(rows) && rows != []
    ensures Ordered(rows[..|rows| - 1]) && AllEarlier(rows[..|rows| - 1], rows[|rows| - 1])
  {
    var init := rows[..|rows| - 1];
    forall e | e in init ensures EarlierRow(e, rows[|rows| - 1]) {
      var i :| 0 <= i < |init| && init[i] == e;
      assert EarlierRow(rows[i], rows[|rows| - 1]);
    }
  }

  lemma {:induction false} InsertRowMembers(rows: seq<EventRow>, row: EventRow)
    ensures forall e :: e in InsertRow(rows, row) <==> e in rows || e == row
    decreases |rows|
  {
    if rows != [] {
      assert rows == rows[..|rows| - 1] + [rows[|rows| - 1]];
      InsertRowMembers(rows[..|rows| - 1], row);
    }
  }

  lemma {:induction false} InsertRowOrdered(rows: seq<EventRow>, row: EventRow)
    requires Ordered(rows) && forall e <- rows :: e.id != row.id
    ensures Ordered(InsertRow(rows, row))
    decreases |rows|
  {
    if rows == [] {
      OrderedPush(rows, row);
    } else {
      var init, last := rows[..|rows| - 1], rows[|rows| - 1];
      assert last in rows;
      OrderedInit(rows);
      if EarlierRow(last, row) {
        assert rows == init + [last];
        assert AllEarlier(rows, row);
        OrderedPush(rows, row);
      } else {
        InsertRowOrdered(init, row);
        InsertRowMembers(init, row);
        OrderedPush(InsertRow(init, row), last);
      }
    }
  }

  /** Sorting by (ts_ms, id) keeps the rows and puts them in order, whatever the clock did. */
  lemma {:induction false} OrderRowsOrders(rows: seq<EventRow>)
    requires forall i, j | 0 <= i < j < |rows| :: rows[i].id != rows[j].id
    ensures Ordered(OrderRows(rows)) && forall e :: e in OrderRows(rows) <==> e in rows
  {
    if rows != [] {
      var init, last := rows[..|rows| - 1], rows[|rows| - 1];
      assert rows == init + [last];
      OrderRowsOrders(init);
      forall e | e in OrderRows(init) ensures e.id != last.id {
        var i :| 0 <= i < |init| && init[i] == e;
        assert rows[i].id != rows[|rows| - 1].id;
      }
      InsertRowOrdered(OrderRows(init), last);
      InsertRowMembers(OrderRows(init), last);
    }
  }

  /** Sorting by (ts_ms, id) leaves an ordered list alone. */
  lemma {:induction false} OrderedStays(rows: seq<EventRow>)
    requires Ordered(rows)
    ensures OrderRows(rows) == rows
  {
    if rows != [] {
      var init, last := rows[..|rows| - 1], rows[|rows| - 1];
      OrderedStays(init);
      assert rows == init + [last];
      assert init != [] ==> EarlierRow(rows[|rows| - 2], rows[|rows| - 1]);
    }
  }

  /** Rows no later than t hold no newer events. */
  lemma {:induction false} NothingNewer(rows: seq<EventRow>, r: string, t: int)
    requires forall e <- rows :: e.tsMs <= t
    ensures EventsAfter(RowsOf(rows, r), t) == []
    ensures forall e <- RowsOf(rows, r) :: e.tsMs <= t
    decreases |rows|
  {
    if rows != [] {
      NothingNewer(rows[..|rows| - 1], r, t);
      var own := RowsOf(rows[..|rows| - 1], r);
      assert (own + [rows[|rows| - 1]])[..|own|] == own;
    }
  }

  /** The run's own events are in timestamp order; what the clock does between events of other runs is no matter. */
  ghost predicate InOrder(db: Db, r: string) {
    Ordered(RowsOf(db.events, r))
  }

  /** A clock that never runs back is enough. */
  lemma {:induction false} MonotoneClockSuffices(db: Db, clock: Clock, r: string)
    requires Sound(db, clock) && Monotone(clock)
    ensures InOrder(db, r)
  {
    RowsOfOrdered(db.events, r);
  }

  /** With its events in order a read as of t returns the undone view, or one of its two errors. */
  lemma {:induction false} AsOfIsPast(db: Db, clock: Clock, r: string, workspace: string, t: int)
    requires Sound(db, clock) && InOrder(db, r)
    ensures AsOf(db, r, workspace, t)
         == if !Visible(db, r, workspace) || db.runs[r].startTime > t then Err(MissingRun)
            else if |RowsOf(db.events, r)| > MAX_EVENTS_PER_REPLAY then Err(ReplayLimitExceeded)
            else Ok(Past(db, r, t))
  {
    OrderedStays(RowsOf(db.events, r));
  }

  /**
   For every history cut in two, and every t between the last event of the first
   part and the first event of the second, reading the final database as of t gives
   the run and the tags exactly as they stood at the cut.
   */
  lemma {:induction false} AsOfIsStateAtCut(start: Db, clock: Clock, past: seq<Op>, future: seq<Op>,
                         r: string, workspace: string, t: int)
    requires Sound(start, clock) && InOrder(After(After(start, clock, past), clock, future), r)
    requires ExactTimes(start) && ExactOps(past) && ExactOps(future)
    requires r in After(start, clock, past).runs
    requires forall i | 0 <= i < After(start, clock, past).nextId :: clock(i) <= t
    requires LaterIn(clock, After(start, clock, past).nextId,
                     After(After(start, clock, past), clock, future).nextId, t)
    requires forall op <- future :: op.OpPruneEventsBefore? ==> op.beforeMs <= t + 1
    ensures var cut := After(start, clock, past);
            var end := After(cut, clock, future);
            AsOf(end, r, workspace, t)
              == if !Visible(cut, r, workspace) || cut.runs[r].startTime > t then Err(MissingRun)
                 else if |RowsOf(end.events, r)| > MAX_EVENTS_PER_REPLAY then Err(ReplayLimitExceeded)
                 else Ok(RunView(cut.runs[r], cut.tags[r]))
  {
    var cut := After(start, clock, past);
    var end := After(cut, clock, future);
    AfterExact(start, clock, past);
    AfterKeepsPast(cut, clock, future, r, t);
    NothingNewer(cut.events, r, t);
    UndoFixedColumns(end.runs[r], Newer(end, r, t));
    AsOfIsPast(end, clock, r, workspace, t);
  }

  lemma {:induction false} AfterExact(db: Db, clock: Clock, ops: seq<Op>)
    requires Sound(db, clock) && ExactTimes(db) && ExactOps(ops)
    ensures ExactTimes(After(db, clock, ops))
    decreases |ops|
  {
    if ops != [] {
      AfterExact(db, clock, ops[..|ops| - 1]);
      ApplyExact(After(db, clock, ops[..|ops| - 1]), clock, ops[|ops| - 1]);
    }
  }

  /**
   A time after start_time but before the transaction that created the run: the answer
   is the bare inserted row, without the parent written in that transaction.
   */
  lemma {:induction false} AsOfBeforeCreation(db: Db, clock: Clock, row: NewRun, now: int, future: seq<Op>,
                           r: string, workspace: string, t: int)
    requires Sound(db, clock) && ExactTimes(db) && ExactTime(row.endTime) && ExactOps(future)
    requires InOrder(After(After(db, clock, [OpCreateRun(r, row, now)]), clock, future), r)
    requires CreateRun(db, clock, r, row, now).outcome == Done
    requires LaterIn(clock, db.nextId,
                     After(After(db, clock, [OpCreateRun(r, row, now)]), clock, future).nextId, t)
    requires forall op <- future :: op.OpPruneEventsBefore? ==> op.beforeMs <= t + 1
    ensures var created := After(db, clock, [OpCreateRun(r, row, now)]);
            var end := After(created, clock, future);
            AsOf(end, r, workspace, t)
              == if !Visible(created, r, workspace) || Inserted(r, row, now).startTime > t then Err(MissingRun)
                 else if |RowsOf(end.events, r)| > MAX_EVENTS_PER_REPLAY then Err(ReplayLimitExceeded)
                 else Ok(RunView(Inserted(r, row, now), map[]))
  {
    var op := OpCreateRun(r, row, now);
    assert [op][..0] == [];
    var created := Apply(db, clock, op);
    assert created == After(db, clock, [op]);
    var end := After(created, clock, future);
    ApplySound(db, clock, op);
    ApplyExact(db, clock, op);
    AfterExtends(created, clock, future);
    CreateRunKeepsPast(db, clock, r, row, now, r, t);
    AfterKeepsPast(created, clock, future, r, t);
    UndoFixedColumns(end.runs[r], Newer(end, r, t));
    UndoFixedColumns(created.runs[r], Newer(created, r, t));
    AsOfIsPast(end, clock, r, workspace, t);
  }

  lemma {:induction false} AfterExtends(db: Db, clock: Clock, ops: seq<Op>)
    requires Sound(db, clock)
    ensures Extended(db, After(db, clock, ops))
    decreases |ops|
  {
    if ops != [] {
      AfterExtends(db, clock, ops[..|ops| - 1]);
      ApplySound(After(db, clock, ops[..|ops| - 1]), clock, ops[|ops| - 1]);
    }
  }

  lemma {:induction false} KeepSinceShortens(rows: seq<EventRow>, r: string, beforeMs: int)
    ensures |RowsOf(KeepSince(rows, beforeMs), r)| <= |RowsOf(rows, r)|
    decreases |rows|
  {
    if rows != [] {
      KeepSinceShortens(rows[..|rows| - 1], r, beforeMs);
      var kept := KeepSince(rows[..|rows| - 1], beforeMs);
      assert (kept + [rows[|rows| - 1]])[..|kept|] == kept;
    }
  }

  lemma {:induction false} KeepSinceInOrder(rows: seq<EventRow>, r: string, beforeMs: int)
    requires Ordered(RowsOf(rows, r))
    ensures Ordered(RowsOf(KeepSince(rows, beforeMs), r))
    ensures forall e <- RowsOf(KeepSince(rows, beforeMs), r) :: e in RowsOf(rows, r)
  {
    if rows != [] {
      var init, last := rows[..|rows| - 1], rows[|rows| - 1];
      var own, kept := RowsOf(init, r), KeepSince(init, beforeMs);
      assert own <= RowsOf(rows, r);
      KeepSinceInOrder(init, r, beforeMs);
      assert (kept + [last])[..|kept|] == kept;
      if last.runId == r {
        forall e | e in RowsOf(kept, r) ensures EarlierRow(e, last) {
          var i :| 0 <= i < |own| && own[i] == e;
          assert RowsOf(rows, r)[i] == e && RowsOf(rows, r)[|own|] == last;
        }
      }
    }
  }

  /** Pruning events before B changes no successful answer for a time from B - 1 on. */
  lemma {:induction false} PruneKeepsAnswers(db: Db, clock: Clock, beforeMs: int, r: string, workspace: string, t: int)
    requires Sound(db, clock) && InOrder(db, r) && beforeMs <= t + 1
    ensures AsOf(db, r, workspace, t).Ok? || AsOf(db, r, workspace, t).error == MissingRun ==>
              AsOf(PruneEventsBefore(db, beforeMs).db, r, workspace, t) == AsOf(db, r, workspace, t)
  {
    var d := PruneEventsBefore(db, beforeMs).db;
    ApplySound(db, clock, OpPruneEventsBefore(beforeMs));
    KeepSinceInOrder(db.events, r, beforeMs);
    AsOfIsPast(db, clock, r, workspace, t);
    AsOfIsPast(d, clock, r, workspace, t);
    KeepSinceShortens(db.events, r, beforeMs);
    PruneKeepsNewer(db.events, r, beforeMs, t);
  }

  lemma {:induction false} RowsOutOfOrder(r0: EventRow, r1: EventRow, r: string, t: int)
    requires r0.runId == r1.runId == r && t < r1.tsMs < r0.tsMs
    ensures OrderRows(RowsOf([r0] + [r1], r)) == [r1] + [r0]
    ensures EventsAfter([r1] + [r0], t) == [r1.event] + [r0.event]
  {
    RowsPush([], r0, r, t);
    RowsPush([r0], r1, r, t);
    RowsPush([], r1, r, t);
    RowsPush([r1], r0, r, t);
    assert [] + [r0] == [r0] && [] + [r1] == [r1];
    assert ([r0] + [r1])[..1] == [r0] && [r0][..0] == [];
    assert OrderRows([r0]) == InsertRow([], r0) == [r0];
    assert InsertRow([r0], r1) == InsertRow([], r1) + [r0] == [r1] + [r0];
    assert OrderRows([r0] + [r1]) == InsertRow(OrderRows([r0]), r1);
  }

  /** Two lifecycle events undone in the wrong order leave the stage in between. */
  lemma {:induction false} WrongOrder(run: Run, tags: Tags)
    requires run.lifecycle == Active
    ensures var e0, e1 := RunLifecycle(Capture(run)), RunLifecycle(Capture(run.(lifecycle := Deleted)));
            && UndoRuns(run, [e1] + [e0]) == run.(lifecycle := Deleted)
            && UndoTags(tags, [e1] + [e0]) == tags
  {
    var e0, e1 := RunLifecycle(Capture(run)), RunLifecycle(Capture(run.(lifecycle := Deleted)));
    UndoSnoc(run, tags, [e1], e0);
    assert [] + [e1] == [e1];
    UndoSnoc(UndoRun(run, e0), tags, [], e1);
  }

  /** The order is needed: two lifecycle changes logged at 10 and then at 5, read as of 4. */
  lemma {:induction false} ClockStepBackBreaksReplay(db: Db, r: string)
    requires Linked(db) && r in db.runs && db.runs[r].lifecycle == Active && db.runs[r].startTime <= 4
    requires db.events == [] && db.nextId == 0
    ensures var clock: Clock := i => if i == 0 then 10 else 5;
            var deleted := SetRunLifecycle(db, clock, r, Deleted).db;
            var restored := SetRunLifecycle(deleted, clock, r, Active).db;
            AsOf(restored, r, "", 4) == Ok(RunView(db.runs[r].(lifecycle := Deleted), db.tags[r]))
  {
    var clock: Clock := i => if i == 0 then 10 else 5;
    var run := db.runs[r];
    var deleted := SetRunLifecycle(db, clock, r, Deleted).db;
    var restored := SetRunLifecycle(deleted, clock, r, Active).db;
    var e0, e1 := RunLifecycle(Capture(run)), RunLifecycle(Capture(run.(lifecycle := Deleted)));
    assert restored.events == [EventRow(0, 10, r, e0)] + [EventRow(1, 5, r, e1)];
    assert restored.runs[r] == run && restored.tags[r] == db.tags[r];
    RowsOutOfOrder(EventRow(0, 10, r, e0), EventRow(1, 5, r, e1), r, 4);
    WrongOrder(run, db.tags[r]);
  }
}
