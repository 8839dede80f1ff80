/**
 The run tables of the store and the append-only event log beside them.

 Every mutation of a run or of its tags appends one event row that holds the
 state before the mutation. Transactions are functions from one database value
 to the next; the class `RunStore.Store` performs the same steps in place.
 */
module EventLog {
  import Names
  import opened Wrappers
  import opened Float64

  const MAX_EVENTS_PER_REPLAY: nat := 50_000

  /** A tag key: `mlflow.parentRunId`, `lmf.auto_archived`, or any other text. */
  datatype TagKey = ParentTag | ArchivedTag | Custom(text: string)

  /** Where artifacts live: `mlflow-artifacts:/<run id>` unless a caller says otherwise. */
  datatype ArtifactUri = Proxied(runId: string) | Given(uri: string)

  type Tags = map<TagKey, string>

  /** The values the schema admits, and any other text a caller may send. */
  datatype Status = Running | Scheduled | Finished | Failed | Killed | OtherStatus(text: string)
  datatype Stage = Active | Deleted | OtherStage(text: string)
  datatype Kind = Classic | Trace | Eval | OtherKind(text: string)

  /** One row of the runs table. A missing name or parent reads as "". */
  datatype Run = Run(
    experimentId: int, artifactUri: ArtifactUri, kind: Kind, startTime: int,
    name: string, status: Status, endTime: Option<int>, lifecycle: Stage, parent: string)

  /** A run as a caller submits it; what is left out gets a default. */
  datatype NewRun = NewRun(
    experimentId: int, artifactUri: Option<ArtifactUri>, kind: Option<Kind>, startTime: Option<int>,
    name: string, status: Option<Status>, endTime: Option<int>, lifecycle: Option<Stage>, parent: string)

  /** The mutable columns of a run, as recorded in an event payload. */
  datatype Captured = Captured(
    status: Status, endTime: Option<int>, name: string, lifecycle: Stage, parent: string)

  datatype Event =
    | RunUpdate(before: Captured)
    | RunLifecycle(before: Captured)
    | RunParent(before: Captured)
    | TagSet(key: TagKey, value: string, previous: Option<string>)
    | TagDelete(key: TagKey, deleted: string)

  datatype EventRow = EventRow(id: nat, tsMs: int, runId: string, event: Event)

  datatype Tag = Tag(key: TagKey, value: string)

  /** The wall-clock reading taken when the event with the given id is written. */
  type Clock = nat -> int

  datatype Db = Db(
    experiments: map<int, string>,               // experiment id -> workspace id
    runs: map<string, Run>,
    tags: map<string, Tags>,                     // run id -> key -> value
    events: seq<EventRow>,
    nextId: nat)

  datatype Outcome = Done | NotFound | AlreadyExists | InvalidValue

  datatype Step = Step(db: Db, outcome: Outcome)

  // ----- validation -----

  predicate ValidStatus(s: Status) {
    !s.OtherStatus?
  }

  predicate ValidStage(s: Stage) {
    !s.OtherStage?
  }

  predicate ValidKey(key: TagKey) {
    key.Custom? ==> Names.ValidKey(key.text)
  }

  // ----- the event log -----

  function Capture(run: Run): Captured {
    Captured(run.status, run.endTime, run.name, run.lifecycle, run.parent)
  }

  function WriteRunEvent(db: Db, clock: Clock, runId: string, event: Event): Db {
    db.(events := db.events + [EventRow(db.nextId, clock(db.nextId), runId, event)], nextId := db.nextId + 1)
  }

  /** An end time comes back from a JSON payload as a float64. */
  function DecodeEndTime(t: Option<int>): Option<int> {
    match t
    case None => None
    case Some(ms) => Some(RoundTrip(ms))
  }

  function UndoRun(run: Run, e: Event): Run {
    match e
    case RunUpdate(before) =>
      run.(status := before.status, endTime := DecodeEndTime(before.endTime), name := before.name)
    case RunLifecycle(before) => run.(lifecycle := before.lifecycle)
    case RunParent(before) => run.(parent := before.parent)
    case _ => run
  }

  function UndoTag(tags: Tags, e: Event): Tags {
    match e
    case TagSet(key, _, previous) =>
      if key == Custom("") then tags
      else if previous.None? then tags - {key}
      else tags[key := previous.value]
    case TagDelete(key, deleted) => if key == Custom("") then tags else tags[key := deleted]
    case _ => tags
  }

  /** Undo a list of events, the last one first. */
  function UndoRuns(run: Run, events: seq<Event>): Run
    decreases |events|
  {
    if events == [] then run
    else UndoRuns(UndoRun(run, events[|events| - 1]), events[..|events| - 1])
  }

  function UndoTags(tags: Tags, events: seq<Event>): Tags
    decreases |events|
  {
    if events == [] then tags
    else UndoTags(UndoTag(tags, events[|events| - 1]), events[..|events| - 1])
  }

  // ----- transactions -----

  function Lookup(tags: Tags, key: TagKey): Option<string> {
    if key in tags then Some(tags[key]) else None
  }

  function GetOr<T>(o: Option<T>, default: T): T {
    if o.Some? then o.value else default
  }

  function UpdateRun(db: Db, clock: Clock, id: string,
                     status: Option<Status>, endTime: Option<int>, name: Option<string>): Step {
    if status.Some? && !ValidStatus(status.value) then Step(db, InvalidValue)
    else if status.None? && endTime.None? && name.None? then Step(db, Done)
    else if id !in db.runs then Step(db, NotFound)
    else
      var run := db.runs[id];
      var updated := run.(status := GetOr(status, run.status),
                          endTime := if endTime.Some? then endTime else run.endTime,
                          name := GetOr(name, run.name));
      Step(WriteRunEvent(db.(runs := db.runs[id := updated]), clock, id, RunUpdate(Capture(run))), Done)
  }

  function SetRunLifecycle(db: Db, clock: Clock, id: string, stage: Stage): Step {
    if !ValidStage(stage) then Step(db, InvalidValue)
    else if id !in db.runs then Step(db, NotFound)
    else
      var run := db.runs[id];
      Step(WriteRunEvent(db.(runs := db.runs[id := run.(lifecycle := stage)]), clock, id,
                         RunLifecycle(Capture(run))), Done)
  }

  /** The parent column refers to an existing run; otherwise the transaction rolls back. */
  function SyncParentRunId(db: Db, clock: Clock, id: string, parent: string): Step
    requires id in db.runs
  {
    if parent !in db.runs then Step(db, NotFound)
    else
      var run := db.runs[id];
      Step(WriteRunEvent(db.(runs := db.runs[id := run.(parent := parent)]), clock, id,
                         RunParent(Capture(run))), Done)
  }

  function UpsertTag(db: Db, id: string, key: TagKey, value: string): Db
    requires id in db.tags
  {
    db.(tags := db.tags[id := db.tags[id][key := value]])
  }

  function SetTag(db: Db, clock: Clock, id: string, key: TagKey, value: string): Step
    requires db.runs.Keys == db.tags.Keys
  {
    if !ValidKey(key) then Step(db, InvalidValue)
    else if id !in db.runs then Step(db, NotFound)
    else
      var event := TagSet(key, value, Lookup(db.tags[id], key));
      var tagged := WriteRunEvent(UpsertTag(db, id, key, value), clock, id, event);
      if key == ParentTag && value != "" then
        var synced := SyncParentRunId(tagged, clock, id, value);
        if synced.outcome == Done then synced else Step(db, synced.outcome)
      else Step(tagged, Done)
  }

  function UpsertAll(tags: Tags, batch: seq<Tag>): Tags {
    if batch == [] then tags
    else UpsertAll(tags, batch[..|batch| - 1])[batch[|batch| - 1].key := batch[|batch| - 1].value]
  }

  /** One tag_set event per batch element, each holding the value before the whole batch. */
  function WriteTagEvents(db: Db, clock: Clock, id: string, before: Tags, batch: seq<Tag>): Db {
    if batch == [] then db
    else
      var t := batch[|batch| - 1];
      WriteRunEvent(WriteTagEvents(db, clock, id, before, batch[..|batch| - 1]), clock, id,
                    TagSet(t.key, t.value, Lookup(before, t.key)))
  }

  /** The last parent tag of a batch, or "". */
  function LastParent(batch: seq<Tag>): string {
    if batch == [] then ""
    else if batch[|batch| - 1].key == ParentTag then batch[|batch| - 1].value
    else LastParent(batch[..|batch| - 1])
  }

  function SetTags(db: Db, clock: Clock, id: string, batch: seq<Tag>): Step
    requires db.runs.Keys == db.tags.Keys
  {
    if id !in db.runs then Step(db, NotFound)
    else if exists i | 0 <= i < |batch| :: !ValidKey(batch[i].key) then Step(db, InvalidValue)
    else
      var before := db.tags[id];
      var upserted := db.(tags := db.tags[id := UpsertAll(before, batch)]);
      var logged := WriteTagEvents(upserted, clock, id, before, batch);
      var parent := LastParent(batch);
      if parent == "" then Step(logged, Done)
      else if parent !in db.runs then Step(db, NotFound)
      else
        var run := db.runs[id];
        Step(WriteRunEvent(logged.(runs := logged.runs[id := run.(parent := parent)]), clock, id,
                           RunParent(Capture(run))), Done)
  }

  function DeleteTag(db: Db, clock: Clock, id: string, key: TagKey): Step {
    if id !in db.tags || key !in db.tags[id] then Step(db, NotFound)
    else
      Step(WriteRunEvent(db.(tags := db.tags[id := db.tags[id] - {key}]), clock, id,
                         TagDelete(key, db.tags[id][key])), Done)
  }

  /** A run as CreateRun inserts it: defaults filled in, no parent yet. */
  function Inserted(id: string, row: NewRun, now: int): Run {
    Run(row.experimentId, GetOr(row.artifactUri, Proxied(id)), GetOr(row.kind, Classic),
        GetOr(row.startTime, now), row.name, GetOr(row.status, Running), row.endTime, GetOr(row.lifecycle, Active), "")
  }

  /** Insert a run; a parent is written to the column and mirrored as a tag in the same transaction. */
  function CreateRun(db: Db, clock: Clock, id: string, row: NewRun, now: int): Step {
    var run := Inserted(id, row, now);
    if id in db.runs then Step(db, AlreadyExists)
    else if run.experimentId !in db.experiments then Step(db, NotFound)
    else if !ValidStatus(run.status) || !ValidStage(run.lifecycle) || run.kind.OtherKind? then
      Step(db, InvalidValue)
    else
      var inserted := db.(runs := db.runs[id := run], tags := db.tags[id := map[]]);
      if row.parent == "" then Step(inserted, Done)
      else
        var synced := SyncParentRunId(inserted, clock, id, row.parent);
        if synced.outcome != Done then Step(db, synced.outcome)
        else
          Step(WriteRunEvent(UpsertTag(synced.db, id, ParentTag, row.parent), clock, id,
                             TagSet(ParentTag, row.parent, None)), Done)
  }

  predicate Stale(run: Run, staleBefore: int) {
    run.status == Running && run.startTime < staleBefore && run.lifecycle == Active
  }

  predicate Archivable(db: Db, id: string) {
    id in db.runs && db.runs[id].status == Running && db.runs[id].lifecycle == Active
  }

  /** Fail one run and tag it as stale. */
  function ArchiveOne(db: Db, id: string, now: int): Db
    requires id in db.runs && id in db.tags
  {
    var failed := db.runs[id].(status := Failed, endTime := Some(now));
    UpsertTag(db.(runs := db.runs[id := failed]), id, ArchivedTag, "stale")
  }

  /** The rows the archiving transaction rewrites, re-checking each run, and the runs it archived. */
  function ArchiveRows(db: Db, ids: seq<string>, now: int): (r: (Db, seq<string>))
    requires db.runs.Keys == db.tags.Keys
    ensures r.0.runs.Keys == r.0.tags.Keys == db.runs.Keys
  {
    if ids == [] then (db, [])
    else
      var (d, archived) := ArchiveRows(db, ids[..|ids| - 1], now);
      var id := ids[|ids| - 1];
      if Archivable(d, id) then (ArchiveOne(d, id, now), archived + [id]) else (d, archived)
  }

  /** The two events of an archived run, holding the state read before the transaction. */
  function WriteArchived(db: Db, clock: Clock, before: Db, id: string): Db
    requires id in before.runs && id in before.tags
  {
    WriteRunEvent(WriteRunEvent(db, clock, id, RunUpdate(Capture(before.runs[id]))), clock, id,
                  TagSet(ArchivedTag, "stale", Lookup(before.tags[id], ArchivedTag)))
  }

  function WriteArchiveEvents(db: Db, clock: Clock, before: Db, archived: seq<string>): Db
    requires before.runs.Keys == before.tags.Keys
    requires forall id <- archived :: id in before.runs
  {
    if archived == [] then db
    else
      WriteArchived(WriteArchiveEvents(db, clock, before, archived[..|archived| - 1]), clock, before,
                    archived[|archived| - 1])
  }

  /** Archive every stale run among `ids`, the order in which the database listed them. */
  function ArchiveStaleRuns(db: Db, clock: Clock, staleBefore: int, now: int, ids: seq<string>): Step
    requires db.runs.Keys == db.tags.Keys
  {
    var stale := StaleAmong(db, staleBefore, ids);
    var (d, archived) := ArchiveRows(db, stale, now);
    ArchivedWereRuns(db, stale, now);
    Step(WriteArchiveEvents(d, clock, db, archived), Done)
  }

  function StaleAmong(db: Db, staleBefore: int, ids: seq<string>): seq<string> {
    if ids == [] then []
    else
      var id := ids[|ids| - 1];
      var rest := StaleAmong(db, staleBefore, ids[..|ids| - 1]);
      if id in db.runs && Stale(db.runs[id], staleBefore) then rest + [id] else rest
  }

  lemma {:induction false} ArchivedWereRuns(db: Db, ids: seq<string>, now: int)
    requires db.runs.Keys == db.tags.Keys
    ensures forall id <- ArchiveRows(db, ids, now).1 :: id in db.runs
  {
    if ids != [] {
      ArchivedWereRuns(db, ids[..|ids| - 1], now);
    }
  }

  function KeepSince(rows: seq<EventRow>, beforeMs: int): seq<EventRow> {
    if rows == [] then []
    else
      var rest := KeepSince(rows[..|rows| - 1], beforeMs);
      if rows[|rows| - 1].tsMs < beforeMs then rest else rest + [rows[|rows| - 1]]
  }

  function PruneEventsBefore(db: Db, beforeMs: int): Step {
    Step(db.(events := KeepSince(db.events, beforeMs)), Done)
  }

  // ----- reading the past -----

  datatype AsOfError = MissingRun | ReplayLimitExceeded

  datatype RunView = RunView(run: Run, tags: Tags)

  function RowsOf(rows: seq<EventRow>, runId: string): seq<EventRow> {
    if rows == [] then []
    else
      var rest := RowsOf(rows[..|rows| - 1], runId);
      if rows[|rows| - 1].runId == runId then rest + [rows[|rows| - 1]] else rest
  }

  predicate EarlierRow(a: EventRow, b: EventRow) {
    a.tsMs < b.tsMs || (a.tsMs == b.tsMs && a.id < b.id)
  }

  /** Insert a row into a list ordered by (ts_ms, id). */
  function InsertRow(rows: seq<EventRow>, row: EventRow): seq<EventRow> {
    if rows == [] || EarlierRow(rows[|rows| - 1], row) then rows + [row]
    else InsertRow(rows[..|rows| - 1], row) + [rows[|rows| - 1]]
  }

  /** ORDER BY ts_ms, id. */
  function OrderRows(rows: seq<EventRow>): (r: seq<EventRow>) {
    if rows == [] then [] else InsertRow(OrderRows(rows[..|rows| - 1]), rows[|rows| - 1])
  }

  /** The events of rows later than asOfMs. */
  function EventsAfter(rows: seq<EventRow>, asOfMs: int): seq<Event> {
    if rows == [] then []
    else
      var rest := EventsAfter(rows[..|rows| - 1], asOfMs);
      if rows[|rows| - 1].tsMs > asOfMs then rest + [rows[|rows| - 1].event] else rest
  }

  /** Is the run visible from the workspace? The empty workspace sees every run. */
  predicate Visible(db: Db, runId: string, workspace: string) {
    && runId in db.runs && runId in db.tags
    && (workspace == "" ||
        (db.runs[runId].experimentId in db.experiments &&
         db.experiments[db.runs[runId].experimentId] == workspace))
  }

  /** What a read as of a time returns. */
  function AsOf(db: Db, runId: string, workspace: string, asOfMs: int): Result<RunView, AsOfError> {
    if !Visible(db, runId, workspace) then Err(MissingRun)
    else if db.runs[runId].startTime > asOfMs then Err(MissingRun)
    else
      var rows := OrderRows(RowsOf(db.events, runId));
      if |rows| > MAX_EVENTS_PER_REPLAY then Err(ReplayLimitExceeded)
      else
        var newer := EventsAfter(rows, asOfMs);
        Ok(RunView(UndoRuns(db.runs[runId], newer), UndoTags(db.tags[runId], newer)))
  }
}
