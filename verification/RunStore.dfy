/** The run store that updates its tables in place, and the replay loop over its event log. */
module RunStore {
  import opened Wrappers
  import L = EventLog

  class Store {
    const clock: L.Clock
    var experiments: map<int, string>
    var runs: map<string, L.Run>
    var tags: map<string, L.Tags>
    var events: seq<L.EventRow>
    var nextId: nat

    predicate Valid()
      reads this
    {
      runs.Keys == tags.Keys
    }

    function Contents(): L.Db
      reads this
    {
      L.Db(experiments, runs, tags, events, nextId)
    }

    constructor (clock: L.Clock, experiments: map<int, string>)
      ensures Valid() && this.clock == clock
      ensures Contents() == L.Db(experiments, map[], map[], [], 0)
    {
      this.clock, this.experiments := clock, experiments;
      runs, tags, events, nextId := map[], map[], [], 0;
    }

    method Rollback(db: L.Db)
      requires db.runs.Keys == db.tags.Keys
      modifies this
      ensures Valid() && Contents() == db
    {
      experiments, runs, tags, events, nextId := db.experiments, db.runs, db.tags, db.events, db.nextId;
    }

    method WriteRunEvent(runId: string, event: L.Event)
      modifies this`events, this`nextId
      ensures Contents() == L.WriteRunEvent(old(Contents()), clock, runId, event)
    {
      events := events + [L.EventRow(nextId, clock(nextId), runId, event)];
      nextId := nextId + 1;
    }

    method UpdateRun(id: string, status: Option<L.Status>, endTime: Option<int>, name: Option<string>)
      returns (outcome: L.Outcome)
      requires Valid()
      modifies this
      ensures Valid()
      ensures L.Step(Contents(), outcome) == L.UpdateRun(old(Contents()), clock, id, status, endTime, name)
    {
      if status.Some? && !L.ValidStatus(status.value) {
        return L.InvalidValue;
      }
      if status.None? && endTime.None? && name.None? {
        return L.Done;
      }
      if id !in runs {
        return L.NotFound;
      }
      var before := L.Capture(runs[id]);
      var row := runs[id];
      if status.Some? {
        row := row.(status := status.value);
      }
      if endTime.Some? {
        row := row.(endTime := endTime);
      }
      if name.Some? {
        row := row.(name := name.value);
      }
      runs := runs[id := row];
      WriteRunEvent(id, L.RunUpdate(before));
      return L.Done;
    }

    method SetRunLifecycle(id: string, stage: L.Stage) returns (outcome: L.Outcome)
      requires Valid()
      modifies this
      ensures Valid()
      ensures L.Step(Contents(), outcome) == L.SetRunLifecycle(old(Contents()), clock, id, stage)
    {
      if !L.ValidStage(stage) {
        return L.InvalidValue;
      }
      if id !in runs {
        return L.NotFound;
      }
      var before := L.Capture(runs[id]);
      runs := runs[id := runs[id].(lifecycle := stage)];
      WriteRunEvent(id, L.RunLifecycle(before));
      return L.Done;
    }

    method SyncParentRunId(id: string, parent: string) returns (outcome: L.Outcome)
      requires Valid() && id in runs
      modifies this
      ensures Valid()
      ensures L.Step(Contents(), outcome) == L.SyncParentRunId(old(Contents()), clock, id, parent)
    {
      if parent !in runs {
        return L.NotFound;
      }
      var before := L.Capture(runs[id]);
      runs := runs[id := runs[id].(parent := parent)];
      WriteRunEvent(id, L.RunParent(before));
      return L.Done;
    }

    method SetTag(id: string, key: L.TagKey, value: string) returns (outcome: L.Outcome)
      requires Valid()
      modifies this
      ensures Valid()
      ensures L.Step(Contents(), outcome) == L.SetTag(old(Contents()), clock, id, key, value)
    {
      if !L.ValidKey(key) {
        return L.InvalidValue;
      }
      if id !in runs {
        return L.NotFound;
      }
      var saved := Contents();
      var before := L.Lookup(tags[id], key);
      tags := tags[id := tags[id][key := value]];
      WriteRunEvent(id, L.TagSet(key, value, before));
      outcome := L.Done;
      if key == L.ParentTag && value != "" {
        outcome := SyncParentRunId(id, value);
        if outcome != L.Done {
          Rollback(saved);
        }
      }
    }

    /** The values a batch will overwrite, read before the transaction. */
    method ReadBefore(id: string, batch: seq<L.Tag>) returns (before: L.Tags)
      requires Valid() && id in runs
      ensures forall i | 0 <= i < |batch| :: L.Lookup(before, batch[i].key) == L.Lookup(tags[id], batch[i].key)
    {
      before := map[];
      for i := 0 to |batch|
        invariant forall k | k in before :: k in tags[id] && before[k] == tags[id][k]
        invariant forall j | 0 <= j < i :: L.Lookup(before, batch[j].key) == L.Lookup(tags[id], batch[j].key)
      {
        if batch[i].key in tags[id] {
          before := before[batch[i].key := tags[id][batch[i].key]];
        }
      }
    }

    method UpsertTags(id: string, batch: seq<L.Tag>) returns (ok: bool)
      requires Valid() && id in runs
      modifies this`tags
      ensures Valid()
      ensures ok <==> forall i | 0 <= i < |batch| :: L.ValidKey(batch[i].key)
      ensures ok ==> tags == old(tags)[id := L.UpsertAll(old(tags)[id], batch)]
    {
      for i := 0 to |batch|
        invariant Valid()
        invariant forall j | 0 <= j < i :: L.ValidKey(batch[j].key)
        invariant tags == old(tags)[id := L.UpsertAll(old(tags)[id], batch[..i])]
      {
        if !L.ValidKey(batch[i].key) {
          return false;
        }
        ghost var next := batch[..i + 1];
        assert next[..i] == batch[..i] && next[i] == batch[i];
        tags := tags[id := tags[id][batch[i].key := batch[i].value]];
        assert tags[id] == L.UpsertAll(old(tags)[id], next);
      }
      assert batch[..|batch|] == batch;
      return true;
    }

    method WriteTagEvents(id: string, batch: seq<L.Tag>, before: L.Tags, ghost all: L.Tags)
      requires Valid()
      requires forall i | 0 <= i < |batch| :: L.Lookup(before, batch[i].key) == L.Lookup(all, batch[i].key)
      modifies this`events, this`nextId
      ensures Contents() == L.WriteTagEvents(old(Contents()), clock, id, all, batch)
    {
      for i := 0 to |batch|
        invariant Contents() == L.WriteTagEvents(old(Contents()), clock, id, all, batch[..i])
      {
        assert batch[..i + 1][..i] == batch[..i];
        WriteRunEvent(id, L.TagSet(batch[i].key, batch[i].value, L.Lookup(before, batch[i].key)));
      }
      assert batch[..|batch|] == batch;
    }

    method FindParent(batch: seq<L.Tag>) returns (parent: string)
      ensures parent == L.LastParent(batch)
    {
      parent := "";
      for i := 0 to |batch|
        invariant parent == L.LastParent(batch[..i])
      {
        assert batch[..i + 1][..i] == batch[..i];
        if batch[i].key == L.ParentTag {
          parent := batch[i].value;
        }
      }
      assert batch[..|batch|] == batch;
    }

    method SetTags(id: string, batch: seq<L.Tag>) returns (outcome: L.Outcome)
      requires Valid()
      modifies this
      ensures Valid()
      ensures L.Step(Contents(), outcome) == L.SetTags(old(Contents()), clock, id, batch)
    {
      if id !in runs {
        return L.NotFound;
      }
      var saved := Contents();
      var before := ReadBefore(id, batch);
      var ok := UpsertTags(id, batch);
      if !ok {
        Rollback(saved);
        return L.InvalidValue;
      }
      ghost var upserted := Contents();
      WriteTagEvents(id, batch, before, saved.tags[id]);
      KeepsRows(upserted, clock, id, saved.tags[id], batch);
      var parent := FindParent(batch);
      outcome := L.Done;
      if parent != "" {
        outcome := SyncParentRunId(id, parent);
        if outcome != L.Done {
          Rollback(saved);
        }
      }
    }

    method DeleteTag(id: string, key: L.TagKey) returns (outcome: L.Outcome)
      requires Valid()
      modifies this
      ensures Valid()
      ensures L.Step(Contents(), outcome) == L.DeleteTag(old(Contents()), clock, id, key)
    {
      if id !in tags || key !in tags[id] {
        return L.NotFound;
      }
      var before := tags[id][key];
      tags := tags[id := tags[id] - {key}];
      WriteRunEvent(id, L.TagDelete(key, before));
      return L.Done;
    }

    method CreateRun(id: string, row: L.NewRun, now: int) returns (outcome: L.Outcome)
      requires Valid()
      modifies this
      ensures Valid()
      ensures L.Step(Contents(), outcome) == L.CreateRun(old(Contents()), clock, id, row, now)
    {
      var run := L.Inserted(id, row, now);
      if id in runs {
        return L.AlreadyExists;
      }
      if run.experimentId !in experiments {
        return L.NotFound;
      }
      if !L.ValidStatus(run.status) || !L.ValidStage(run.lifecycle) || run.kind.OtherKind? {
        return L.InvalidValue;
      }
      var saved := Contents();
      runs, tags := runs[id := run], tags[id := map[]];
      outcome := L.Done;
      if row.parent != "" {
        outcome := SyncParentRunId(id, row.parent);
        if outcome != L.Done {
          Rollback(saved);
          return;
        }
        tags := tags[id := tags[id][L.ParentTag := row.parent]];
        WriteRunEvent(id, L.TagSet(L.ParentTag, row.parent, None));
      }
    }

    method PruneEventsBefore(beforeMs: int) returns (count: nat)
      requires Valid()
      modifies this`events
      ensures Valid() && Contents() == L.PruneEventsBefore(old(Contents()), beforeMs).db
      ensures count == |old(events)| - |events|
    {
      var kept := [];
      for i := 0 to |events|
        invariant kept == L.KeepSince(events[..i], beforeMs)
        invariant |kept| <= i
      {
        assert events[..i + 1][..i] == events[..i];
        if events[i].tsMs >= beforeMs {
          kept := kept + [events[i]];
        }
      }
      assert events[..|events|] == events;
      count := |events| - |kept|;
      events := kept;
    }

    /** The stale runs, in whatever order the database lists its rows. */
    method SelectStale(staleBefore: int) returns (ids: seq<string>, ghost order: seq<string>)
      requires Valid()
      ensures forall id :: id in order <==> id in runs
      ensures ids == L.StaleAmong(Contents(), staleBefore, order)
      ensures forall id <- ids :: id in runs
    {
      ids, order := [], [];
      var rest := runs.Keys;
      while rest != {}
        invariant rest <= runs.Keys
        invariant forall id :: id in order <==> id in runs && id !in rest
        invariant ids == L.StaleAmong(Contents(), staleBefore, order)
        invariant forall id <- ids :: id in runs
        decreases rest
      {
        var id :| id in rest;
        rest := rest - {id};
        assert (order + [id])[..|order|] == order;
        order := order + [id];
        if L.Stale(runs[id], staleBefore) {
          ids := ids + [id];
        }
      }
    }

    method ArchiveRun(id: string, now: int)
      requires Valid() && id in runs
      modifies this`runs, this`tags
      ensures Valid() && Contents() == L.ArchiveOne(old(Contents()), id, now)
    {
      runs := runs[id := runs[id].(status := L.Failed, endTime := Some(now))];
      tags := tags[id := tags[id][L.ArchivedTag := "stale"]];
    }

    /** Rewrite the stale runs, skipping any that no longer match. */
    method ArchiveRows(ids: seq<string>, now: int) returns (archived: seq<string>)
      requires Valid()
      modifies this`runs, this`tags
      ensures Valid()
      ensures (Contents(), archived) == L.ArchiveRows(old(Contents()), ids, now)
    {
      archived := [];
      for i := 0 to |ids|
        invariant Valid()
        invariant (Contents(), archived) == L.ArchiveRows(old(Contents()), ids[..i], now)
      {
        assert ids[..i + 1][..i] == ids[..i];
        var id := ids[i];
        var archivable := id in runs && runs[id].status == L.Running && runs[id].lifecycle == L.Active;
        if archivable {
          ArchiveRun(id, now);
          archived := archived + [id];
        }
      }
      assert ids[..|ids|] == ids;
    }

    method WriteArchiveEvents(before: L.Db, archived: seq<string>)
      requires before.runs.Keys == before.tags.Keys && forall id <- archived :: id in before.runs
      modifies this`events, this`nextId
      ensures Contents() == L.WriteArchiveEvents(old(Contents()), clock, before, archived)
    {
      for i := 0 to |archived|
        invariant Contents() == L.WriteArchiveEvents(old(Contents()), clock, before, archived[..i])
      {
        assert archived[..i + 1][..i] == archived[..i];
        var id := archived[i];
        WriteRunEvent(id, L.RunUpdate(L.Capture(before.runs[id])));
        WriteRunEvent(id, L.TagSet(L.ArchivedTag, "stale", L.Lookup(before.tags[id], L.ArchivedTag)));
      }
      assert archived[..|archived|] == archived;
    }

    method ArchiveStaleRuns(staleBefore: int, now: int) returns (count: nat, ghost order: seq<string>)
      requires Valid()
      modifies this
      ensures Valid()
      ensures forall id :: id in order <==> id in old(runs)
      ensures Contents() == L.ArchiveStaleRuns(old(Contents()), clock, staleBefore, now, order).db
      ensures count == |L.ArchiveRows(old(Contents()), L.StaleAmong(old(Contents()), staleBefore, order), now).1|
    {
      var before := Contents();
      var ids;
      ids, order := SelectStale(staleBefore);
      var archived := ArchiveRows(ids, now);
      L.ArchivedWereRuns(before, ids, now);
      WriteArchiveEvents(before, archived);
      count := |archived|;
    }

    /** Scan at most MAX_EVENTS_PER_REPLAY + 1 rows and collect the ones after asOfMs. */
    method ScanNewer(rows: seq<L.EventRow>, asOfMs: int) returns (newer: seq<L.Event>, exceeded: bool)
      ensures exceeded <==> |rows| > L.MAX_EVENTS_PER_REPLAY
      ensures !exceeded ==> newer == L.EventsAfter(rows, asOfMs)
    {
      newer := [];
      for i := 0 to |rows|
        invariant i <= L.MAX_EVENTS_PER_REPLAY
        invariant newer == L.EventsAfter(rows[..i], asOfMs)
      {
        if i + 1 > L.MAX_EVENTS_PER_REPLAY {
          return [], true;
        }
        assert rows[..i + 1][..i] == rows[..i];
        if rows[i].tsMs > asOfMs {
          newer := newer + [rows[i].event];
        }
      }
      assert rows[..|rows|] == rows;
      exceeded := false;
    }

    /** Take the current state and undo the newer events, the most recent first. */
    method GetRunAsOf(runId: string, workspace: string, asOfMs: int)
      returns (answer: Result<L.RunView, L.AsOfError>)
      requires Valid()
      ensures answer == L.AsOf(Contents(), runId, workspace, asOfMs)
    {
      if !L.Visible(Contents(), runId, workspace) || runs[runId].startTime > asOfMs {
        return Err(L.MissingRun);
      }
      var newer, exceeded := ScanNewer(L.OrderRows(L.RowsOf(events, runId)), asOfMs);
      if exceeded {
        return Err(L.ReplayLimitExceeded);
      }
      var run, tagMap := runs[runId], tags[runId];
      var i := |newer|;
      assert newer[..i] == newer;
      while i > 0
        invariant 0 <= i <= |newer|
        invariant L.UndoRuns(run, newer[..i]) == L.UndoRuns(runs[runId], newer)
      {
        i := i - 1;
        assert newer[..i + 1][..i] == newer[..i];
        run := L.UndoRun(run, newer[i]);
      }
      i := |newer|;
      assert newer[..i] == newer;
      while i > 0
        invariant 0 <= i <= |newer|
        invariant L.UndoTags(tagMap, newer[..i]) == L.UndoTags(tags[runId], newer)
      {
        i := i - 1;
        assert newer[..i + 1][..i] == newer[..i];
        tagMap := L.UndoTag(tagMap, newer[i]);
      }
      return Ok(L.RunView(run, tagMap));
    }
  }

  lemma {:induction false} KeepsRows(db: L.Db, clock: L.Clock, id: string, before: L.Tags, batch: seq<L.Tag>)
    ensures var d := L.WriteTagEvents(db, clock, id, before, batch);
            d.runs == db.runs && d.tags == db.tags && d.experiments == db.experiments
  {
    if batch != [] {
      KeepsRows(db, clock, id, before, batch[..|batch| - 1]);
    }
  }
}
