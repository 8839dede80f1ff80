/**
 What a history of transactions leaves in the run tables. Every column of a run and
 every tag holds what the last accepted transaction that wrote it said.
 */
module RunHistory {
  import Collections
  import Names
  import opened Wrappers
  import opened EventLog
  import opened TimeTravel

  // ----- which transactions are accepted -----

  predicate KnownStatus(s: Status) {
    s in {Running, Scheduled, Finished, Failed, Killed}
  }

  predicate KnownStage(s: Stage) {
    s in {Active, Deleted}
  }

  /** One to 250 bytes, no control character, no white space at either end. */
  predicate GoodKey(key: TagKey) {
    match key
    case Custom(text) =>
      && text != "" && Names.Utf8Length(text) <= 250
      && !Names.IsSpace(text[0]) && !Names.IsSpace(text[|text| - 1])
      && (forall c <- text :: !Names.IsControl(c))
    case _ => true
  }

  predicate KnownKind(k: Kind) {
    k in {Classic, Trace, Eval}
  }

  function Default<T>(o: Option<T>, otherwise: T): T {
    match o
    case Some(x) => x
    case None => otherwise
  }

  /** The last value a batch gives a key. */
  function LastValue(batch: seq<Tag>, key: TagKey): Option<string> {
    if batch == [] then None
    else if batch[|batch| - 1].key == key then Some(batch[|batch| - 1].value)
    else LastValue(batch[..|batch| - 1], key)
  }

  /** The last element of a key wins. */
  lemma {:induction false} LastElementWins(batch: seq<Tag>, key: TagKey, i: nat)
    requires i < |batch| && batch[i].key == key && forall j | i < j < |batch| :: batch[j].key != key
    ensures LastValue(batch, key) == Some(batch[i].value)
  {
    if i < |batch| - 1 {
      LastElementWins(batch[..|batch| - 1], key, i);
    }
  }

  lemma {:induction false} NoElement(batch: seq<Tag>, key: TagKey)
    ensures LastValue(batch, key).None? <==> forall i | 0 <= i < |batch| :: batch[i].key != key
  {
    if batch != [] {
      NoElement(batch[..|batch| - 1], key);
    }
  }

  /** A parent tag with a value must name a run. */
  predicate ParentExists(db: Db, parent: Option<string>) {
    parent.Some? && parent.value != "" ==> parent.value in db.runs
  }

  /** When a transaction is accepted; a rejected one changes nothing. */
  predicate Accepted(db: Db, op: Op) {
    match op
    case OpCreateRun(id, row, now) =>
      && id !in db.runs && row.experimentId in db.experiments
      && (row.status.Some? ==> KnownStatus(row.status.value))
      && (row.lifecycle.Some? ==> KnownStage(row.lifecycle.value))
      && (row.kind.Some? ==> KnownKind(row.kind.value))
      && (row.parent != "" ==> row.parent in db.runs || row.parent == id)
    case OpUpdateRun(id, status, endTime, name) =>
      && (status.Some? ==> KnownStatus(status.value))
      && (id in db.runs || (status.None? && endTime.None? && name.None?))
    case OpSetRunLifecycle(id, stage) => KnownStage(stage) && id in db.runs
    case OpSetTag(id, key, value) =>
      GoodKey(key) && id in db.runs && (key == ParentTag ==> ParentExists(db, Some(value)))
    case OpSetTags(id, batch) =>
      && id in db.runs && (forall i | 0 <= i < |batch| :: GoodKey(batch[i].key))
      && ParentExists(db, LastValue(batch, ParentTag))
    case OpDeleteTag(id, key) => id in db.tags && key in db.tags[id]
    case OpArchiveStaleRuns(_, _, _) => true
    case OpPruneEventsBefore(_) => true
  }

  function OutcomeOf(db: Db, clock: Clock, op: Op): Outcome
    requires Linked(db)
  {
    match op
    case OpCreateRun(id, row, now) => CreateRun(db, clock, id, row, now).outcome
    case OpUpdateRun(id, status, endTime, name) => UpdateRun(db, clock, id, status, endTime, name).outcome
    case OpSetRunLifecycle(id, stage) => SetRunLifecycle(db, clock, id, stage).outcome
    case OpSetTag(id, key, value) => SetTag(db, clock, id, key, value).outcome
    case OpSetTags(id, batch) => SetTags(db, clock, id, batch).outcome
    case OpDeleteTag(id, key) => DeleteTag(db, clock, id, key).outcome
    case OpArchiveStaleRuns(staleBefore, now, ids) => ArchiveStaleRuns(db, clock, staleBefore, now, ids).outcome
    case OpPruneEventsBefore(beforeMs) => PruneEventsBefore(db, beforeMs).outcome
  }

  lemma {:induction false} GoodKeyIsValid(key: TagKey)
    ensures GoodKey(key) <==> ValidKey(key)
  {
    if key.Custom? {
      Names.KeyEnds(key.text);
    }
  }

  lemma {:induction false} GoodBatchIsValid(batch: seq<Tag>)
    ensures (forall i | 0 <= i < |batch| :: GoodKey(batch[i].key)) <==>
            (forall i | 0 <= i < |batch| :: ValidKey(batch[i].key))
  {
    forall i | 0 <= i < |batch| ensures GoodKey(batch[i].key) <==> ValidKey(batch[i].key) {
      GoodKeyIsValid(batch[i].key);
    }
  }

  lemma {:induction false} LastParentIsLast(batch: seq<Tag>)
    ensures LastParent(batch) == Default(LastValue(batch, ParentTag), "")
  {
    if batch != [] {
      LastParentIsLast(batch[..|batch| - 1]);
    }
  }

  /** A transaction succeeds exactly when it is accepted, and a failed one leaves the database alone. */
  lemma {:induction false} DoneIffAccepted(db: Db, clock: Clock, op: Op)
    requires Linked(db)
    ensures OutcomeOf(db, clock, op) == Done <==> Accepted(db, op)
    ensures !Accepted(db, op) ==> Apply(db, clock, op) == db
  {
    match op
    case OpSetTag(_, key, _) => GoodKeyIsValid(key);
    case OpSetTags(_, batch) =>
      LastParentIsLast(batch);
      GoodBatchIsValid(batch);
    case _ =>
  }

  // ----- what a transaction writes -----

  /** Archived: listed, running, active and started too long ago. */
  predicate Archived(db: Db, op: Op, r: string) {
    && op.OpArchiveStaleRuns? && r in op.ids && r in db.runs
    && db.runs[r].status == Running && db.runs[r].lifecycle == Active && db.runs[r].startTime < op.staleBefore
  }

  /** The accepted transaction is about this run. */
  predicate About(db: Db, op: Op, r: string) {
    Accepted(db, op) && !op.OpArchiveStaleRuns? && !op.OpPruneEventsBefore? && op.id == r
  }

  function WritesStatus(db: Db, op: Op, r: string): Option<Status> {
    if About(db, op, r) && op.OpCreateRun? then Some(Default(op.row.status, Running))
    else if About(db, op, r) && op.OpUpdateRun? then op.status
    else if Archived(db, op, r) then Some(Failed)
    else None
  }

  function WritesEndTime(db: Db, op: Op, r: string): Option<Option<int>> {
    if About(db, op, r) && op.OpCreateRun? then Some(op.row.endTime)
    else if About(db, op, r) && op.OpUpdateRun? && op.endTime.Some? then Some(op.endTime)
    else if Archived(db, op, r) then Some(Some(op.now))
    else None
  }

  function WritesName(db: Db, op: Op, r: string): Option<string> {
    if About(db, op, r) && op.OpCreateRun? then Some(op.row.name)
    else if About(db, op, r) && op.OpUpdateRun? then op.name
    else None
  }

  function WritesStage(db: Db, op: Op, r: string): Option<Stage> {
    if About(db, op, r) && op.OpCreateRun? then Some(Default(op.row.lifecycle, Active))
    else if About(db, op, r) && op.OpSetRunLifecycle? then Some(op.stage)
    else None
  }

  /** The parent column follows a parent tag that has a value; nothing clears it. */
  function WritesParent(db: Db, op: Op, r: string): Option<string> {
    if About(db, op, r) && op.OpCreateRun? then Some(op.row.parent)
    else if About(db, op, r) && op.OpSetTag? && op.key == ParentTag && op.value != "" then Some(op.value)
    else if About(db, op, r) && op.OpSetTags? && Default(LastValue(op.batch, ParentTag), "") != ""
    then LastValue(op.batch, ParentTag)
    else None
  }

  /** The columns only the creation writes. */
  datatype Origin = Origin(experimentId: int, artifactUri: ArtifactUri, kind: Kind, startTime: int)

  function OriginIn(run: Run): Origin {
    Origin(run.experimentId, run.artifactUri, run.kind, run.startTime)
  }

  function WritesOrigin(db: Db, op: Op, r: string): Option<Origin> {
    if About(db, op, r) && op.OpCreateRun?
    then Some(Origin(op.row.experimentId, Default(op.row.artifactUri, Proxied(r)), Default(op.row.kind, Classic),
                     Default(op.row.startTime, op.now)))
    else None
  }

  /** A tag is written with a value, or removed. */
  function WritesTag(db: Db, op: Op, r: string, key: TagKey): Option<Option<string>> {
    if About(db, op, r) && op.OpCreateRun?
    then Some(if key == ParentTag && op.row.parent != "" then Some(op.row.parent) else None)
    else if About(db, op, r) && op.OpSetTag? && op.key == key then Some(Some(op.value))
    else if About(db, op, r) && op.OpSetTags? && LastValue(op.batch, key).Some? then Some(LastValue(op.batch, key))
    else if About(db, op, r) && op.OpDeleteTag? && op.key == key then Some(None)
    else if Archived(db, op, r) && key == ArchivedTag then Some(Some("stale"))
    else None
  }

  // ----- one column at a time -----

  datatype Column = StatusOf | EndTimeOf | NameOf | StageOf | ParentOf | OriginOf | TagOf(key: TagKey)

  datatype Cell =
    | AStatus(status: Status) | AnEndTime(endTime: Option<int>) | AName(name: string) | AStage(stage: Stage)
    | AParent(parent: string) | AnOrigin(origin: Origin) | ATag(key: TagKey, value: Option<string>)

  function Stored(db: Db, r: string, c: Column): Cell
    requires r in db.runs && r in db.tags
  {
    var run := db.runs[r];
    match c
    case StatusOf => AStatus(run.status)
    case EndTimeOf => AnEndTime(run.endTime)
    case NameOf => AName(run.name)
    case StageOf => AStage(run.lifecycle)
    case ParentOf => AParent(run.parent)
    case OriginOf => AnOrigin(OriginIn(run))
    case TagOf(key) => ATag(key, if key in db.tags[r] then Some(db.tags[r][key]) else None)
  }

  function Writes(db: Db, op: Op, r: string, c: Column): Option<Cell> {
    match c
    case StatusOf => var w := WritesStatus(db, op, r); if w.Some? then Some(AStatus(w.value)) else None
    case EndTimeOf => var w := WritesEndTime(db, op, r); if w.Some? then Some(AnEndTime(w.value)) else None
    case NameOf => var w := WritesName(db, op, r); if w.Some? then Some(AName(w.value)) else None
    case StageOf => var w := WritesStage(db, op, r); if w.Some? then Some(AStage(w.value)) else None
    case ParentOf => var w := WritesParent(db, op, r); if w.Some? then Some(AParent(w.value)) else None
    case OriginOf => var w := WritesOrigin(db, op, r); if w.Some? then Some(AnOrigin(w.value)) else None
    case TagOf(key) => var w := WritesTag(db, op, r, key); if w.Some? then Some(ATag(key, w.value)) else None
  }

  // ----- what one transaction does -----

  /** A run is there if it was, or if the transaction created it. */
  predicate Appears(db: Db, op: Op, r: string) {
    r in db.runs || (About(db, op, r) && op.OpCreateRun?)
  }

  /** The row holds what was written, and else what it held. */
  ghost predicate RowFollows(db: Db, op: Op, d: Db, r: string) {
    && r in d.runs && r in d.tags && (op.OpCreateRun? || r in db.runs)
    && var run := d.runs[r];
    && (match WritesStatus(db, op, r) case Some(x) => run.status == x
        case None => r in db.runs && run.status == db.runs[r].status)
    && (match WritesEndTime(db, op, r) case Some(x) => run.endTime == x
        case None => r in db.runs && run.endTime == db.runs[r].endTime)
    && (match WritesName(db, op, r) case Some(x) => run.name == x
        case None => r in db.runs && run.name == db.runs[r].name)
    && (match WritesStage(db, op, r) case Some(x) => run.lifecycle == x
        case None => r in db.runs && run.lifecycle == db.runs[r].lifecycle)
    && (match WritesParent(db, op, r) case Some(x) => run.parent == x
        case None => r in db.runs && run.parent == db.runs[r].parent)
    && (match WritesOrigin(db, op, r) case Some(x) => OriginIn(run) == x
        case None => r in db.runs && OriginIn(run) == OriginIn(db.runs[r]))
  }

  /** So does a tag. */
  ghost predicate TagFollows(db: Db, op: Op, d: Db, r: string, key: TagKey) {
    && r in d.tags
    && match WritesTag(db, op, r, key)
       case Some(x) => (key in d.tags[r] <==> x.Some?) && (x.Some? ==> d.tags[r][key] == x.value)
       case None =>
         && r in db.tags && (key in d.tags[r] <==> key in db.tags[r])
         && (key in d.tags[r] ==> d.tags[r][key] == db.tags[r][key])
  }

  /** A new row, with what the caller left out filled in. */
  function Fresh(id: string, row: NewRun, now: int): Run {
    Run(row.experimentId, Default(row.artifactUri, Proxied(id)), Default(row.kind, Classic),
        Default(row.startTime, now), row.name, Default(row.status, Running), row.endTime,
        Default(row.lifecycle, Active), row.parent)
  }

  lemma {:induction false} InsertedIsFresh(db: Db, id: string, row: NewRun, now: int)
    requires Accepted(db, OpCreateRun(id, row, now))
    ensures var run := Inserted(id, row, now);
            && run.(parent := row.parent) == Fresh(id, row, now) && run.parent == ""
            && ValidStatus(run.status) && ValidStage(run.lifecycle) && !run.kind.OtherKind?
  {
  }

  lemma {:induction false} CreatedRow(db: Db, clock: Clock, id: string, row: NewRun, now: int)
    requires Linked(db) && Accepted(db, OpCreateRun(id, row, now))
    ensures var d := CreateRun(db, clock, id, row, now).db;
            && d.runs == db.runs[id := Fresh(id, row, now)]
            && d.tags == db.tags[id := if row.parent == "" then map[] else map[ParentTag := row.parent]]
  {
    InsertedIsFresh(db, id, row, now);
    var run := Inserted(id, row, now);
    if row.parent == "" {
      assert run == Fresh(id, row, now);
    } else {
      assert db.runs[id := run][id := run.(parent := row.parent)] == db.runs[id := Fresh(id, row, now)];
      assert db.tags[id := map[]][id := map[][ParentTag := row.parent]] == db.tags[id := map[ParentTag := row.parent]];
    }
  }

  lemma {:induction false} CreatedFollows(db: Db, op: Op, d: Db, r: string, key: TagKey)
    requires Linked(db) && op.OpCreateRun? && Accepted(db, op) && Appears(db, op, r)
    requires d.runs == db.runs[op.id := Fresh(op.id, op.row, op.now)]
    requires d.tags == db.tags[op.id := if op.row.parent == "" then map[] else map[ParentTag := op.row.parent]]
    ensures RowFollows(db, op, d, r) && TagFollows(db, op, d, r, key)
  {
  }

  lemma {:induction false} CreateFollows(db: Db, clock: Clock, op: Op, r: string, key: TagKey)
    requires Linked(db) && op.OpCreateRun? && Appears(db, op, r)
    ensures RowFollows(db, op, Apply(db, clock, op), r)
    ensures TagFollows(db, op, Apply(db, clock, op), r, key)
  {
    if Accepted(db, op) {
      CreatedRow(db, clock, op.id, op.row, op.now);
      CreatedFollows(db, op, Apply(db, clock, op), r, key);
    } else {
      DoneIffAccepted(db, clock, op);
    }
  }

  lemma {:induction false} UpdatedRow(db: Db, clock: Clock, id: string, status: Option<Status>, endTime: Option<int>,
                                      name: Option<string>)
    requires Linked(db) && Accepted(db, OpUpdateRun(id, status, endTime, name))
    ensures var d := UpdateRun(db, clock, id, status, endTime, name).db;
            && d.tags == db.tags
            && d.runs == if id !in db.runs then db.runs else db.runs[id := db.runs[id].(
                 status := Default(status, db.runs[id].status), name := Default(name, db.runs[id].name),
                 endTime := if endTime.None? then db.runs[id].endTime else endTime)]
  {
    if id in db.runs {
      var run := db.runs[id];
      assert run == run.(status := run.status, name := run.name, endTime := run.endTime);
    }
  }

  lemma {:induction false} UpdateFollows(db: Db, clock: Clock, op: Op, r: string, key: TagKey)
    requires Linked(db) && op.OpUpdateRun? && r in db.runs
    ensures RowFollows(db, op, Apply(db, clock, op), r)
    ensures TagFollows(db, op, Apply(db, clock, op), r, key)
  {
    if Accepted(db, op) {
      UpdatedRow(db, clock, op.id, op.status, op.endTime, op.name);
    } else {
      DoneIffAccepted(db, clock, op);
    }
  }

  lemma {:induction false} StageFollows(db: Db, clock: Clock, op: Op, r: string, key: TagKey)
    requires Linked(db) && op.OpSetRunLifecycle? && r in db.runs
    ensures RowFollows(db, op, Apply(db, clock, op), r)
    ensures TagFollows(db, op, Apply(db, clock, op), r, key)
  {
    if !Accepted(db, op) {
      DoneIffAccepted(db, clock, op);
    }
  }

  lemma {:induction false} DeleteTagFollows(db: Db, clock: Clock, op: Op, r: string, key: TagKey)
    requires Linked(db) && op.OpDeleteTag? && r in db.runs
    ensures RowFollows(db, op, Apply(db, clock, op), r)
    ensures TagFollows(db, op, Apply(db, clock, op), r, key)
  {
  }

  lemma {:induction false} TaggedRow(db: Db, clock: Clock, id: string, key: TagKey, value: string)
    requires Linked(db) && Accepted(db, OpSetTag(id, key, value))
    ensures var d := SetTag(db, clock, id, key, value).db;
            && d.tags == db.tags[id := db.tags[id][key := value]]
            && d.runs == if key == ParentTag && value != "" then db.runs[id := db.runs[id].(parent := value)]
                         else db.runs
  {
    GoodKeyIsValid(key);
  }

  lemma {:induction false} SetTagFollows(db: Db, clock: Clock, op: Op, r: string, key: TagKey)
    requires Linked(db) && op.OpSetTag? && r in db.runs
    ensures RowFollows(db, op, Apply(db, clock, op), r)
    ensures TagFollows(db, op, Apply(db, clock, op), r, key)
  {
    if Accepted(db, op) {
      TaggedRow(db, clock, op.id, op.key, op.value);
    } else {
      DoneIffAccepted(db, clock, op);
    }
  }

  lemma {:induction false} UpsertAllAt(tags: Tags, batch: seq<Tag>, key: TagKey)
    ensures Lookup(UpsertAll(tags, batch), key)
         == if LastValue(batch, key).Some? then LastValue(batch, key) else Lookup(tags, key)
  {
    if batch != [] {
      UpsertAllAt(tags, batch[..|batch| - 1], key);
    }
  }

  /** What a batch leaves in the tables. */
  lemma {:induction false} BatchRows(db: Db, clock: Clock, id: string, batch: seq<Tag>)
    requires Sound(db, clock) && Accepted(db, OpSetTags(id, batch))
    ensures var d := SetTags(db, clock, id, batch).db;
            && d.tags == db.tags[id := UpsertAll(db.tags[id], batch)]
            && d.runs == if Default(LastValue(batch, ParentTag), "") == "" then db.runs
                         else db.runs[id := db.runs[id].(parent := LastValue(batch, ParentTag).value)]
  {
    LastParentIsLast(batch);
    GoodBatchIsValid(batch);
    LoggedBatchSound(db, clock, id, batch);
  }

  lemma {:induction false} SetTagsFollows(db: Db, clock: Clock, op: Op, r: string, key: TagKey)
    requires Sound(db, clock) && op.OpSetTags? && r in db.runs
    ensures RowFollows(db, op, Apply(db, clock, op), r)
    ensures TagFollows(db, op, Apply(db, clock, op), r, key)
  {
    if Accepted(db, op) {
      BatchRows(db, clock, op.id, op.batch);
      UpsertAllAt(db.tags[op.id], op.batch, key);
    } else {
      DoneIffAccepted(db, clock, op);
    }
  }

  lemma {:induction false} StaleMembers(db: Db, staleBefore: int, ids: seq<string>, r: string)
    ensures r in StaleAmong(db, staleBefore, ids) <==>
            && r in ids && r in db.runs && db.runs[r].status == Running && db.runs[r].lifecycle == Active
            && db.runs[r].startTime < staleBefore
  {
    if ids != [] {
      StaleMembers(db, staleBefore, ids[..|ids| - 1], r);
    }
  }

  /** One step of an archiving transaction, on one run. */
  lemma {:induction false} ArchiveStepAt(d: Db, id: string, now: int, r: string)
    requires Linked(d) && r in d.runs
    ensures var e := if Archivable(d, id) then ArchiveOne(d, id, now) else d;
            && r in e.runs && r in e.tags
            && if id == r && d.runs[r].status == Running && d.runs[r].lifecycle == Active
               then e.runs[r] == d.runs[r].(status := Failed, endTime := Some(now)) &&
                    e.tags[r] == d.tags[r][ArchivedTag := "stale"]
               else e.runs[r] == d.runs[r] && e.tags[r] == d.tags[r]
  {
  }

  /** The rows of an archiving transaction, whatever the list repeats. */
  lemma {:induction false} ArchiveRowsAt(db: Db, ids: seq<string>, now: int, r: string)
    requires Linked(db) && r in db.runs
    ensures var d := ArchiveRows(db, ids, now).0;
            if r in ids && db.runs[r].status == Running && db.runs[r].lifecycle == Active
            then d.runs[r] == db.runs[r].(status := Failed, endTime := Some(now)) &&
                 d.tags[r] == db.tags[r][ArchivedTag := "stale"]
            else d.runs[r] == db.runs[r] && d.tags[r] == db.tags[r]
  {
    if ids != [] {
      var before, id := ids[..|ids| - 1], ids[|ids| - 1];
      ArchiveRowsAt(db, before, now, r);
      ArchiveStepAt(ArchiveRows(db, before, now).0, id, now, r);
      assert r in ids <==> r in before || r == id;
    }
  }

  lemma {:induction false} ArchiveRow(db: Db, clock: Clock, op: Op, r: string)
    requires Sound(db, clock) && op.OpArchiveStaleRuns? && r in db.runs
    ensures var d := Apply(db, clock, op);
            && r in d.runs && r in d.tags
            && if Archived(db, op, r)
               then d.runs[r] == db.runs[r].(status := Failed, endTime := Some(op.now)) &&
                    d.tags[r] == db.tags[r][ArchivedTag := "stale"]
               else d.runs[r] == db.runs[r] && d.tags[r] == db.tags[r]
  {
    var stale := StaleAmong(db, op.staleBefore, op.ids);
    StaleMembers(db, op.staleBefore, op.ids, r);
    ArchiveRowsAt(db, stale, op.now, r);
    ArchiveRowsSound(db, clock, stale, op.now);
    ArchivedWereRuns(db, stale, op.now);
    var (d, archived) := ArchiveRows(db, stale, op.now);
    WriteArchiveEventsSound(d, clock, db, archived);
  }

  lemma {:induction false} ArchiveFollows(db: Db, clock: Clock, op: Op, r: string, key: TagKey)
    requires Sound(db, clock) && op.OpArchiveStaleRuns? && r in db.runs
    ensures RowFollows(db, op, Apply(db, clock, op), r)
    ensures TagFollows(db, op, Apply(db, clock, op), r, key)
  {
    ArchiveRow(db, clock, op, r);
  }

  /** Every transaction writes what it says, and nothing else. */
  lemma {:induction false} ApplyFollows(db: Db, clock: Clock, op: Op, r: string, key: TagKey)
    requires Sound(db, clock) && Appears(db, op, r)
    ensures RowFollows(db, op, Apply(db, clock, op), r)
    ensures TagFollows(db, op, Apply(db, clock, op), r, key)
  {
    match op
    case OpCreateRun(_, _, _) => CreateFollows(db, clock, op, r, key);
    case OpDeleteTag(_, _) => DeleteTagFollows(db, clock, op, r, key);
    case OpSetTag(_, _, _) => SetTagFollows(db, clock, op, r, key);
    case OpSetTags(_, _) => SetTagsFollows(db, clock, op, r, key);
    case OpArchiveStaleRuns(_, _, _) => ArchiveFollows(db, clock, op, r, key);
    case OpPruneEventsBefore(_) =>
    case OpUpdateRun(_, _, _, _) => UpdateFollows(db, clock, op, r, key);
    case OpSetRunLifecycle(_, _) => StageFollows(db, clock, op, r, key);
  }

  // ----- what a history leaves -----

  /** What a column holds, if the run is there. */
  function Held(db: Db, r: string, c: Column): Option<Cell> {
    if r in db.runs && r in db.tags then Some(Stored(db, r, c)) else None
  }

  lemma {:induction false} RowColumn(db: Db, op: Op, d: Db, r: string, c: Column)
    requires Linked(db) && RowFollows(db, op, d, r) && !c.TagOf?
    ensures Held(d, r, c) == if Writes(db, op, r, c).Some? then Writes(db, op, r, c) else Held(db, r, c)
  {
  }

  lemma {:induction false} TagColumn(db: Db, op: Op, d: Db, r: string, c: Column)
    requires Linked(db) && r in d.runs && c.TagOf? && TagFollows(db, op, d, r, c.key)
    ensures Held(d, r, c) == if Writes(db, op, r, c).Some? then Writes(db, op, r, c) else Held(db, r, c)
  {
  }

  /** Only the creation of a run makes it appear, and only runs that are there are written. */
  lemma {:induction false} OnlyCreationAdds(db: Db, clock: Clock, op: Op, r: string)
    requires Sound(db, clock)
    ensures r in Apply(db, clock, op).runs <==> Appears(db, op, r)
  {
    match op
    case OpSetTags(id, batch) =>
      if Accepted(db, op) {
        BatchRows(db, clock, id, batch);
      } else {
        DoneIffAccepted(db, clock, op);
      }
    case OpArchiveStaleRuns(staleBefore, now, ids) =>
      var stale := StaleAmong(db, staleBefore, ids);
      ArchiveRowsSound(db, clock, stale, now);
      ArchivedWereRuns(db, stale, now);
      var (d, archived) := ArchiveRows(db, stale, now);
      WriteArchiveEventsSound(d, clock, db, archived);
    case _ =>
  }

  lemma {:induction false} AbsentIsUnwritten(db: Db, op: Op, r: string, c: Column)
    requires Linked(db) && !Appears(db, op, r)
    ensures Writes(db, op, r, c).None?
  {
  }

  /** One transaction, column by column: what it writes is held, and nothing else changes. */
  lemma {:induction false} ColumnFollows(db: Db, clock: Clock, op: Op, r: string, c: Column)
    requires Sound(db, clock)
    ensures Held(Apply(db, clock, op), r, c)
         == if Writes(db, op, r, c).Some? then Writes(db, op, r, c) else Held(db, r, c)
  {
    OnlyCreationAdds(db, clock, op, r);
    if Appears(db, op, r) {
      ApplyFollows(db, clock, op, r, if c.TagOf? then c.key else ParentTag);
      if c.TagOf? {
        TagColumn(db, op, Apply(db, clock, op), r, c);
      } else {
        RowColumn(db, op, Apply(db, clock, op), r, c);
      }
    } else {
      AbsentIsUnwritten(db, op, r, c);
    }
  }

  /** What transaction i of a history writes to a column. */
  ghost function WrittenAt(db: Db, clock: Clock, ops: seq<Op>, r: string, c: Column, i: nat): Option<Cell>
    requires Sound(db, clock) && i < |ops|
  {
    Writes(After(db, clock, ops[..i]), ops[i], r, c)
  }

  lemma {:induction false} HeldNext(db: Db, clock: Clock, ops: seq<Op>, r: string, c: Column, i: nat)
    requires Sound(db, clock) && i < |ops|
    ensures Held(After(db, clock, ops[..i + 1]), r, c)
         == if WrittenAt(db, clock, ops, r, c, i).Some? then WrittenAt(db, clock, ops, r, c, i)
            else Held(After(db, clock, ops[..i]), r, c)
  {
    assert ops[..i + 1][..i] == ops[..i];
    ColumnFollows(After(db, clock, ops[..i]), clock, ops[i], r, c);
  }

  /** What a column holds before each transaction and at the end. */
  ghost function HeldAlong(db: Db, clock: Clock, ops: seq<Op>, r: string, c: Column): (h: seq<Option<Cell>>)
    requires Sound(db, clock)
    ensures |h| == |ops| + 1 && forall k | 0 <= k <= |ops| :: h[k] == Held(After(db, clock, ops[..k]), r, c)
  {
    seq(|ops| + 1, k requires 0 <= k <= |ops| => Held(After(db, clock, ops[..k]), r, c))
  }

  ghost function WrittenAlong(db: Db, clock: Clock, ops: seq<Op>, r: string, c: Column): (w: seq<Option<Cell>>)
    requires Sound(db, clock)
    ensures |w| == |ops| && forall k | 0 <= k < |ops| :: w[k] == WrittenAt(db, clock, ops, r, c, k)
  {
    seq(|ops|, k requires 0 <= k < |ops| => WrittenAt(db, clock, ops, r, c, k))
  }

  lemma {:induction false} HoldsAlong(db: Db, clock: Clock, ops: seq<Op>, r: string, c: Column, k: nat)
    requires Sound(db, clock) && k < |ops|
    ensures Collections.Holds(HeldAlong(db, clock, ops, r, c), WrittenAlong(db, clock, ops, r, c), k)
  {
    HeldNext(db, clock, ops, r, c, k);
  }

  /** The field a cell belongs to holds its value. */
  predicate Shows(db: Db, r: string, cell: Cell) {
    && r in db.runs && r in db.tags
    && match cell
       case AStatus(x) => db.runs[r].status == x
       case AnEndTime(x) => db.runs[r].endTime == x
       case AName(x) => db.runs[r].name == x
       case AStage(x) => db.runs[r].lifecycle == x
       case AParent(x) => db.runs[r].parent == x
       case AnOrigin(x) => OriginIn(db.runs[r]) == x
       case ATag(key, x) => (key in db.tags[r] <==> x.Some?) && (x.Some? ==> db.tags[r][key] == x.value)
  }

  lemma {:induction false} HeldShows(db: Db, r: string, c: Column)
    requires Held(db, r, c).Some?
    ensures Shows(db, r, Held(db, r, c).value)
  {
  }

  /**
   * After any history, a column of a run or one of its tags holds what the last transaction that wrote
   * it wrote, whatever came before and whatever else was written since.
   */
  lemma {:induction false} LastWriteStands(db: Db, clock: Clock, ops: seq<Op>, r: string, c: Column, i: nat)
    requires Sound(db, clock) && i < |ops| && WrittenAt(db, clock, ops, r, c, i).Some?
    requires forall j | i < j < |ops| :: WrittenAt(db, clock, ops, r, c, j).None?
    ensures Shows(After(db, clock, ops), r, WrittenAt(db, clock, ops, r, c, i).value)
  {
    var held, written := HeldAlong(db, clock, ops, r, c), WrittenAlong(db, clock, ops, r, c);
    forall k: nat | k < |ops| ensures Collections.Holds(held, written, k) {
      HoldsAlong(db, clock, ops, r, c, k);
    }
    Collections.LastWritten(held, written, i);
    assert ops[..|ops|] == ops;
    HeldShows(After(db, clock, ops), r, c);
  }

  /** A column that no transaction of a history writes keeps what it held. */
  lemma {:induction false} UnwrittenStays(db: Db, clock: Clock, ops: seq<Op>, r: string, c: Column)
    requires Sound(db, clock) && forall j | 0 <= j < |ops| :: WrittenAt(db, clock, ops, r, c, j).None?
    ensures Held(After(db, clock, ops), r, c) == Held(db, r, c)
  {
    var held, written := HeldAlong(db, clock, ops, r, c), WrittenAlong(db, clock, ops, r, c);
    forall k: nat | k < |ops| ensures Collections.Holds(held, written, k) {
      HoldsAlong(db, clock, ops, r, c, k);
    }
    Collections.NothingWritten(held, written, 0, |ops|);
    assert ops[..|ops|] == ops && ops[..0] == [];
  }

  /** A run never changes its experiment, artifacts, kind or start time. */
  lemma {:induction false} OriginStays(db: Db, clock: Clock, ops: seq<Op>, r: string)
    requires Sound(db, clock) && r in db.runs
    ensures var d := After(db, clock, ops);
            r in d.runs && OriginIn(d.runs[r]) == OriginIn(db.runs[r]) && d.experiments == db.experiments
    decreases |ops|
  {
    if ops != [] {
      var n := |ops| - 1;
      OriginStays(db, clock, ops[..n], r);
      ApplySound(After(db, clock, ops[..n]), clock, ops[n]);
      ColumnFollows(After(db, clock, ops[..n]), clock, ops[n], r, OriginOf);
    }
  }

  /**
   * After any history a run is missing from a read as of a time exactly if it started later or the
   * reader's workspace is not the one of its experiment; the empty workspace sees every run.
   */
  lemma {:induction false} MissingIffElsewhere(db: Db, clock: Clock, ops: seq<Op>, r: string, workspace: string, t: int)
    requires Sound(db, clock) && r in db.runs
    ensures AsOf(After(db, clock, ops), r, workspace, t) == Err(MissingRun) <==>
            || db.runs[r].startTime > t
            || (workspace != "" && !(db.runs[r].experimentId in db.experiments &&
                                     db.experiments[db.runs[r].experimentId] == workspace))
  {
    OriginStays(db, clock, ops, r);
  }

  lemma {:induction false} KeptSince(rows: seq<EventRow>, beforeMs: int, e: EventRow)
    ensures e in KeepSince(rows, beforeMs) <==> e in rows && e.tsMs >= beforeMs
  {
    if rows != [] {
      var init, last := rows[..|rows| - 1], rows[|rows| - 1];
      assert rows == init + [last];
      KeptSince(init, beforeMs, e);
    }
  }

  /** Pruning deletes exactly the events before the bound and touches nothing else. */
  lemma {:induction false} PruneDeletesOld(db: Db, clock: Clock, beforeMs: int, e: EventRow)
    requires Linked(db)
    ensures var d := Apply(db, clock, OpPruneEventsBefore(beforeMs));
            && (e in d.events <==> e in db.events && e.tsMs >= beforeMs)
            && d == db.(events := d.events)
  {
    KeptSince(db.events, beforeMs, e);
  }
}
