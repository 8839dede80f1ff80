/**
 Concurrent CreatePrompt calls as interleaved transactions.

 Each attempt reads one snapshot, looks its content hash up, takes MAX(version) + 1
 and inserts. The only thing that stops two callers is the primary key
 (workspace, name, version); a caller that loses the race starts over.
 */
module PromptVersions {
  import opened Collections
  import opened Wrappers

  const MAX_ATTEMPTS: nat := 6

  datatype Slot = Slot(workspace: string, name: string, version: int)
  datatype Row = Row(content: string, hash: string)
  type Table = map<Slot, Row>
  type Hash = string -> string

  datatype Request = Request(workspace: string, name: string, content: string)

  datatype Phase =
    | Ready                                                    // before an attempt, or backing off
    | Reading(snapshot: Table, at: nat)                        // transaction open on a snapshot
    | Absent(snapshot: Table, at: nat)                         // the content is not in the snapshot
    | Allocated(snapshot: Table, at: nat, version: int)        // MAX(version) + 1 computed
    | Inserted(version: int)                                   // row written, not committed
    | Returned(version: int)
    | GaveUp                                                   // every attempt lost a race
    | Broken                                                   // cancelled, or another error

  /** A call: when it began, and how its failed attempts failed. */
  datatype Proc = Proc(request: Request, phase: Phase, since: nat, raced: nat, blocked: nat)

  /** `commits` counts every commit to the database, to other tables as well. */
  datatype World = World(table: Table, commits: nat, writer: Option<nat>, procs: map<nat, Proc>)

  datatype Action =
    | Start(request: Request)
    | Begin
    | LookUp
    | ReadMax
    | Insert
    | Busy
    | Commit
    | Fail
    | OtherCommit

  ghost predicate Init(w: World) {
    w.table == map[] && w.procs == map[] && w.writer == None
  }

  function SlotOf(r: Request, version: int): Slot {
    Slot(r.workspace, r.name, version)
  }

  /** m is MAX(version) of a prompt name, 0 when it has no versions. */
  ghost predicate IsMax(t: Table, r: Request, m: int) {
    && 0 <= m && (m > 0 ==> SlotOf(r, m) in t)
    && (forall v | SlotOf(r, v) in t :: v <= m)
  }

  /** Version v of the prompt holds the hash. */
  predicate Holds(t: Table, r: Request, v: int, hash: string) {
    SlotOf(r, v) in t && t[SlotOf(r, v)].hash == hash
  }

  function SetPhase(w: World, pid: nat, phase: Phase): World
    requires pid in w.procs
  {
    w.(procs := w.procs[pid := w.procs[pid].(phase := phase)])
  }

  /** A lost race: back to the start, or out after the last attempt. */
  function Retry(p: Proc, race: bool): Proc {
    var q := if race then p.(raced := p.raced + 1) else p.(blocked := p.blocked + 1);
    q.(phase := if q.raced + q.blocked < MAX_ATTEMPTS then Ready else GaveUp)
  }

  /** One step of process pid, or of the rest of the database. */
  ghost predicate Next(h: Hash, w: World, w': World, pid: nat, action: Action) {
    match action
    case Start(request) =>
      pid !in w.procs && w' == w.(procs := w.procs[pid := Proc(request, Ready, w.commits, 0, 0)])
    case OtherCommit =>
      w.writer == None && w' == w.(commits := w.commits + 1)
    case _ =>
      pid in w.procs && ProcStep(h, w, w', pid, action)
  }

  ghost predicate ProcStep(h: Hash, w: World, w': World, pid: nat, action: Action)
    requires pid in w.procs
  {
    var p := w.procs[pid];
    match (action, p.phase)
    case (Begin, Ready) => w' == SetPhase(w, pid, Reading(w.table, w.commits))
    case (LookUp, Reading(snapshot, at)) =>
      if exists v :: Holds(snapshot, p.request, v, h(p.request.content)) then
        exists v ::
          && Holds(snapshot, p.request, v, h(p.request.content))
          && (forall u | Holds(snapshot, p.request, u, h(p.request.content)) :: u <= v)
          && w' == SetPhase(w, pid, Returned(v))
      else w' == SetPhase(w, pid, Absent(snapshot, at))
    case (ReadMax, Absent(snapshot, at)) =>
      exists m :: IsMax(snapshot, p.request, m) && w' == SetPhase(w, pid, Allocated(snapshot, at, m + 1))
    case (Insert, Allocated(snapshot, at, version)) =>
      && w.writer == None
      && w' == if SlotOf(p.request, version) in w.table
               then w.(procs := w.procs[pid := Retry(p, true)])
               else SetPhase(w, pid, Inserted(version)).(writer := Some(pid))
    case (Busy, Allocated(snapshot, at, version)) =>
      && (w.commits > at || w.writer != None)
      && w' == w.(procs := w.procs[pid := Retry(p, w.commits > at)])
    case (Busy, Inserted(version)) => w' == w.(procs := w.procs[pid := Retry(p, false)], writer := None)
    case (Busy, Ready) => w' == w.(procs := w.procs[pid := Retry(p, false)])
    case (Busy, Reading(_, _)) => w' == w.(procs := w.procs[pid := Retry(p, false)])
    case (Busy, Absent(_, _)) => w' == w.(procs := w.procs[pid := Retry(p, false)])
    case (Commit, Inserted(version)) =>
      w' == SetPhase(w, pid, Returned(version))
            .(table := w.table[SlotOf(p.request, version) := Row(p.request.content, h(p.request.content))],
              commits := w.commits + 1, writer := None)
    case (Fail, phase) =>
      && !phase.Returned? && !phase.GaveUp? && !phase.Broken?
      && w' == SetPhase(w, pid, Broken).(writer := if phase.Inserted? then None else w.writer)
    case _ => false
  }

  // ----- the invariant -----

  /** Versions start at 1 and have no gaps: below a present version every version is present. */
  ghost predicate Gapless(t: Table) {
    && (forall s | s in t :: s.version >= 1)
    && (forall ws, n, u, v | Slot(ws, n, v) in t && 1 <= u <= v :: Slot(ws, n, u) in t)
  }

  ghost predicate Contains(t: Table, snapshot: Table) {
    forall s | s in snapshot :: s in t && t[s] == snapshot[s]
  }

  ghost predicate NoHash(t: Table, r: Request, hash: string) {
    forall v :: !Holds(t, r, v, hash)
  }

  /** The table alone: no gaps, true hashes, and no hash twice under one name. */
  ghost predicate TableInv(h: Hash, t: Table) {
    && Gapless(t)
    && (forall s | s in t :: t[s].hash == h(t[s].content))
    && (forall s, u | s in t && u in t && s.workspace == u.workspace && s.name == u.name && t[s].hash == t[u].hash ::
          s == u)
  }

  /** A snapshot is an earlier table; while no commit has happened since, it is the table. */
  ghost predicate SnapshotInv(w: World, p: Proc, snapshot: Table, at: nat) {
    && Gapless(snapshot) && Contains(w.table, snapshot)
    && p.since + p.raced <= at <= w.commits
    && (at == w.commits ==> snapshot == w.table)
  }

  ghost predicate ProcInv(h: Hash, w: World, pid: nat, p: Proc) {
    var hash := h(p.request.content);
    && p.since + p.raced <= w.commits
    && (p.phase.GaveUp? || p.raced + p.blocked < MAX_ATTEMPTS)
    && match p.phase
       case Reading(snapshot, at) => SnapshotInv(w, p, snapshot, at)
       case Absent(snapshot, at) => SnapshotInv(w, p, snapshot, at) && NoHash(snapshot, p.request, hash)
       case Allocated(snapshot, at, version) =>
         && SnapshotInv(w, p, snapshot, at) && NoHash(snapshot, p.request, hash)
         && IsMax(snapshot, p.request, version - 1)
       case Inserted(version) =>
         w.writer == Some(pid) && IsMax(w.table, p.request, version - 1) && NoHash(w.table, p.request, hash)
       case Returned(version) => Holds(w.table, p.request, version, hash)
       case GaveUp => p.raced + p.blocked == MAX_ATTEMPTS
       case _ => true
  }

  ghost predicate Inv(h: Hash, w: World) {
    TableInv(h, w.table) && forall pid | pid in w.procs :: ProcInv(h, w, pid, w.procs[pid])
  }

  /**
   Why the primary key is enough: if MAX + 1 of a snapshot is still free, the table has no
   version of that name that the snapshot lacks.
   */
  lemma {:induction false} FreeSlotMeansUnchanged(t: Table, snapshot: Table, r: Request, version: int)
    requires Gapless(t) && Gapless(snapshot) && Contains(t, snapshot)
    requires IsMax(snapshot, r, version - 1) && SlotOf(r, version) !in t
    ensures IsMax(t, r, version - 1)
    ensures forall v | SlotOf(r, v) in t :: SlotOf(r, v) in snapshot
  {
  }

  /** Appending MAX + 1 with a new hash keeps the table invariant. */
  lemma {:induction false} AppendKeepsTable(h: Hash, t: Table, r: Request, version: int)
    requires TableInv(h, t) && IsMax(t, r, version - 1) && NoHash(t, r, h(r.content))
    ensures SlotOf(r, version) !in t
    ensures TableInv(h, t[SlotOf(r, version) := Row(r.content, h(r.content))])
  {
    var slot := SlotOf(r, version);
    var t' := t[slot := Row(r.content, h(r.content))];
    forall s | s in t && s.workspace == r.workspace && s.name == r.name
      ensures t[s].hash != h(r.content)
    {
      assert s == SlotOf(r, s.version);
      assert !Holds(t, r, s.version, h(r.content));
    }
  }

  // ----- every step keeps the invariant -----

  /** Steps of one process leave the others' invariants alone when the table does not change. */
  lemma {:induction false} OthersKept(h: Hash, w: World, w': World, pid: nat)
    requires Inv(h, w) && pid in w'.procs && w'.procs - {pid} == w.procs - {pid}
    requires w'.table == w.table && w'.commits == w.commits
    requires w'.writer == w.writer || w.writer == None || w.writer == Some(pid)
    requires ProcInv(h, w', pid, w'.procs[pid])
    ensures Inv(h, w')
  {
    forall q | q in w'.procs
      ensures ProcInv(h, w', q, w'.procs[q])
    {
      if q != pid {
        assert q in w'.procs - {pid};
        assert ProcInv(h, w, q, w.procs[q]);
      }
    }
  }

  lemma {:induction false} InsertKeepsInv(h: Hash, w: World, w': World, pid: nat)
    requires Inv(h, w) && pid in w.procs && w.procs[pid].phase.Allocated? && ProcStep(h, w, w', pid, Insert)
    ensures Inv(h, w')
  {
    var p := w.procs[pid];
    assert ProcInv(h, w, pid, p);
    var version := p.phase.version;
    if SlotOf(p.request, version) !in w.table {
      FreeSlotMeansUnchanged(w.table, p.phase.snapshot, p.request, version);
      forall v ensures !Holds(w.table, p.request, v, h(p.request.content)) {
        assert !Holds(p.phase.snapshot, p.request, v, h(p.request.content));
      }
    }
    OthersKept(h, w, w', pid);
  }

  /** A commit appends one row; every snapshot and every returned version stays valid. */
  lemma {:induction false} CommitKeepsProc(h: Hash, w: World, w': World, pid: nat, q: nat)
    requires Inv(h, w) && pid in w.procs && w.procs[pid].phase.Inserted? && ProcStep(h, w, w', pid, Commit)
    requires SlotOf(w.procs[pid].request, w.procs[pid].phase.version) !in w.table && q in w'.procs
    ensures ProcInv(h, w', q, w'.procs[q])
  {
    assert ProcInv(h, w, pid, w.procs[pid]);
    assert ProcInv(h, w, q, w.procs[q]);
  }

  lemma {:induction false} CommitKeepsInv(h: Hash, w: World, w': World, pid: nat)
    requires Inv(h, w) && pid in w.procs && w.procs[pid].phase.Inserted? && ProcStep(h, w, w', pid, Commit)
    ensures Inv(h, w')
  {
    assert ProcInv(h, w, pid, w.procs[pid]);
    AppendKeepsTable(h, w.table, w.procs[pid].request, w.procs[pid].phase.version);
    forall q | q in w'.procs
      ensures ProcInv(h, w', q, w'.procs[q])
    {
      CommitKeepsProc(h, w, w', pid, q);
    }
  }

  lemma {:induction false} OtherCommitKeepsInv(h: Hash, w: World)
    requires Inv(h, w) && w.writer == None
    ensures Inv(h, w.(commits := w.commits + 1))
  {
  }

  lemma {:induction false} ReadKeepsInv(h: Hash, w: World, w': World, pid: nat, action: Action)
    requires Inv(h, w) && pid in w.procs && ProcStep(h, w, w', pid, action)
    requires action == Begin || action == LookUp || action == ReadMax
    ensures Inv(h, w')
  {
    assert ProcInv(h, w, pid, w.procs[pid]);
    OthersKept(h, w, w', pid);
  }

  lemma {:induction false} FailureKeepsInv(h: Hash, w: World, w': World, pid: nat, action: Action)
    requires Inv(h, w) && pid in w.procs && ProcStep(h, w, w', pid, action)
    requires action == Busy || action == Fail
    ensures Inv(h, w')
  {
    assert ProcInv(h, w, pid, w.procs[pid]);
    OthersKept(h, w, w', pid);
  }

  lemma {:induction false} NextKeepsInv(h: Hash, w: World, w': World, pid: nat, action: Action)
    requires Inv(h, w) && Next(h, w, w', pid, action)
    ensures Inv(h, w')
  {
    match action
    case Start(request) => OthersKept(h, w, w', pid);
    case OtherCommit => OtherCommitKeepsInv(h, w);
    case Insert => InsertKeepsInv(h, w, w', pid);
    case Commit => CommitKeepsInv(h, w, w', pid);
    case Busy => FailureKeepsInv(h, w, w', pid, action);
    case Fail => FailureKeepsInv(h, w, w', pid, action);
    case _ => ReadKeepsInv(h, w, w', pid, action);
  }

  // ----- every run -----

  datatype Move = Move(pid: nat, action: Action)

  /** Any interleaving of any number of calls. */
  ghost predicate IsRun(h: Hash, worlds: seq<World>, moves: seq<Move>) {
    && |worlds| == |moves| + 1 && Init(worlds[0])
    && (forall i | 0 <= i < |moves| :: Next(h, worlds[i], worlds[i + 1], moves[i].pid, moves[i].action))
  }

  lemma {:induction false} RunKeepsInv(h: Hash, worlds: seq<World>, moves: seq<Move>, i: nat)
    requires IsRun(h, worlds, moves) && i < |worlds|
    ensures Inv(h, worlds[i])
  {
    if i > 0 {
      RunKeepsInv(h, worlds, moves, i - 1);
      assert Next(h, worlds[i - 1], worlds[i], moves[i - 1].pid, moves[i - 1].action);
      NextKeepsInv(h, worlds[i - 1], worlds[i], moves[i - 1].pid, moves[i - 1].action);
    }
  }

  /** The versions of a name are exactly 1..n. */
  ghost predicate VersionsAre(t: Table, r: Request, n: nat) {
    forall v :: SlotOf(r, v) in t <==> 1 <= v <= n
  }

  /** Search upward for the first free version; the table is finite. */
  lemma {:induction false} FirstFree(t: Table, r: Request, n: nat, seen: set<Slot>) returns (m: nat)
    requires Gapless(t) && seen <= t.Keys && |seen| == n
    requires forall v :: SlotOf(r, v) in seen <==> 1 <= v <= n
    ensures VersionsAre(t, r, m)
    decreases |t.Keys - seen|
  {
    if SlotOf(r, n + 1) in t {
      var more := seen + {SlotOf(r, n + 1)};
      assert t.Keys - more < t.Keys - seen;
      SubsetSize(t.Keys - more, t.Keys - seen);
      m := FirstFree(t, r, n + 1, more);
    } else {
      m := n;
      forall v | SlotOf(r, v) in t
        ensures 1 <= v <= m
      {
        assert SlotOf(r, v).version >= 1;
        assert v > n ==> SlotOf(r, n + 1) in t;
      }
      forall v | 1 <= v <= m
        ensures SlotOf(r, v) in t
      {
        assert SlotOf(r, v) in seen;
      }
    }
  }

  /** At every moment of every run the versions of a name are exactly 1..n. */
  lemma {:induction false} VersionsAreContiguous(h: Hash, worlds: seq<World>, moves: seq<Move>, i: nat, r: Request)
    requires IsRun(h, worlds, moves) && i < |worlds|
    ensures exists n: nat :: VersionsAre(worlds[i].table, r, n)
  {
    RunKeepsInv(h, worlds, moves, i);
    var n := FirstFree(worlds[i].table, r, 0, {});
  }

  /** No two versions of a name share content, and a successful call returns the one that holds its content. */
  lemma {:induction false} ReturnedVersionIsTheOne(h: Hash, worlds: seq<World>, moves: seq<Move>, i: nat)
    requires IsRun(h, worlds, moves) && i < |worlds|
    ensures forall r: Request, u, v | SlotOf(r, u) in worlds[i].table && SlotOf(r, v) in worlds[i].table ::
              worlds[i].table[SlotOf(r, u)].content == worlds[i].table[SlotOf(r, v)].content ==> u == v
    ensures forall pid | pid in worlds[i].procs && worlds[i].procs[pid].phase.Returned? ::
              var p := worlds[i].procs[pid];
              && Holds(worlds[i].table, p.request, p.phase.version, h(p.request.content))
              && (forall v | Holds(worlds[i].table, p.request, v, h(p.request.content)) :: v == p.phase.version)
  {
    RunKeepsInv(h, worlds, moves, i);
    var w := worlds[i];
    forall pid, v | pid in w.procs && w.procs[pid].phase.Returned?
                    && Holds(w.table, w.procs[pid].request, v, h(w.procs[pid].request.content))
      ensures v == w.procs[pid].phase.version
    {
      var p := w.procs[pid];
      assert ProcInv(h, w, pid, p);
      assert SlotOf(p.request, v) == SlotOf(p.request, p.phase.version);
    }
    forall pid | pid in w.procs && w.procs[pid].phase.Returned?
      ensures Holds(w.table, w.procs[pid].request, w.procs[pid].phase.version, h(w.procs[pid].request.content))
    {
      assert ProcInv(h, w, pid, w.procs[pid]);
    }
    forall r: Request, u, v | SlotOf(r, u) in w.table && SlotOf(r, v) in w.table
                    && w.table[SlotOf(r, u)].content == w.table[SlotOf(r, v)].content
      ensures u == v
    {
      assert SlotOf(r, u) == SlotOf(r, v);
    }
  }

  lemma {:induction false} NextKeepsRows(h: Hash, w: World, w': World, pid: nat, action: Action)
    requires Inv(h, w) && Next(h, w, w', pid, action)
    ensures Contains(w'.table, w.table)
  {
    if action == Commit {
      assert ProcInv(h, w, pid, w.procs[pid]);
      AppendKeepsTable(h, w.table, w.procs[pid].request, w.procs[pid].phase.version);
    }
  }

  lemma {:induction false} StepKeepsRows(h: Hash, worlds: seq<World>, moves: seq<Move>, i: nat)
    requires IsRun(h, worlds, moves) && i < |moves|
    ensures Contains(worlds[i + 1].table, worlds[i].table)
  {
    RunKeepsInv(h, worlds, moves, i);
    NextKeepsRows(h, worlds[i], worlds[i + 1], moves[i].pid, moves[i].action);
  }

  /** A row once committed is never changed or removed. */
  lemma {:induction false} CommittedRowsStay(h: Hash, worlds: seq<World>, moves: seq<Move>, i: nat, j: nat)
    requires IsRun(h, worlds, moves) && i <= j < |worlds|
    ensures Contains(worlds[j].table, worlds[i].table)
    decreases j
  {
    if i < j {
      CommittedRowsStay(h, worlds, moves, i, j - 1);
      StepKeepsRows(h, worlds, moves, j - 1);
    }
  }

  predicate Over(phase: Phase) {
    phase.Returned? || phase.GaveUp? || phase.Broken?
  }

  lemma {:induction false} NextKeepsOver(h: Hash, w: World, w': World, pid: nat, action: Action, q: nat)
    requires Next(h, w, w', pid, action) && q in w.procs && Over(w.procs[q].phase)
    ensures q in w'.procs && w'.procs[q] == w.procs[q]
  {
  }

  /** What a call returned, or that it failed, is never taken back. */
  lemma {:induction false} OverStaysOver(h: Hash, worlds: seq<World>, moves: seq<Move>, i: nat, j: nat, q: nat)
    requires IsRun(h, worlds, moves) && i <= j < |worlds| && q in worlds[i].procs && Over(worlds[i].procs[q].phase)
    ensures q in worlds[j].procs && worlds[j].procs[q] == worlds[i].procs[q]
    decreases j
  {
    if i < j {
      OverStaysOver(h, worlds, moves, i, j - 1, q);
      assert Next(h, worlds[j - 1], worlds[j], moves[j - 1].pid, moves[j - 1].action);
      NextKeepsOver(h, worlds[j - 1], worlds[j], moves[j - 1].pid, moves[j - 1].action, q);
    }
  }

  /**
   * A call gives up only after six lost attempts, each lost to a commit since its start or to a lock
   * held elsewhere, which any statement of the transaction may meet.
   */
  lemma {:induction false} GivingUpNeedsRivals(h: Hash, worlds: seq<World>, moves: seq<Move>, i: nat, pid: nat)
    requires IsRun(h, worlds, moves) && i < |worlds|
    requires pid in worlds[i].procs && worlds[i].procs[pid].phase == GaveUp
    ensures var p := worlds[i].procs[pid];
            p.raced + p.blocked == MAX_ATTEMPTS && worlds[i].commits - p.since >= MAX_ATTEMPTS - p.blocked
  {
    RunKeepsInv(h, worlds, moves, i);
    assert ProcInv(h, worlds[i], pid, worlds[i].procs[pid]);
  }

  // ----- attempts and the write lock -----

  /** An attempt of the call ends without success: a lock is met, or its version is taken. */
  predicate Loses(w: World, m: Move, pid: nat) {
    && m.pid == pid && pid in w.procs
    && (m.action.Busy? ||
        (m.action.Insert? && w.procs[pid].phase.Allocated? &&
         SlotOf(w.procs[pid].request, w.procs[pid].phase.version) in w.table))
  }

  /** How many attempts a call has lost in the first i moves. */
  ghost function Lost(worlds: seq<World>, moves: seq<Move>, pid: nat, i: nat): nat
    requires i <= |moves| < |worlds|
  {
    if i == 0 then 0 else Lost(worlds, moves, pid, i - 1) + if Loses(worlds[i - 1], moves[i - 1], pid) then 1 else 0
  }

  /** How many transactions were committed in the first i moves. */
  ghost function Committed(moves: seq<Move>, i: nat): nat
    requires i <= |moves|
  {
    if i == 0 then 0
    else Committed(moves, i - 1) + if moves[i - 1].action.Commit? || moves[i - 1].action.OtherCommit? then 1 else 0
  }

  /** The lock is held exactly by a call that has inserted and not yet committed. */
  ghost predicate LockOk(w: World) {
    forall pid :: w.writer == Some(pid) <==> pid in w.procs && w.procs[pid].phase.Inserted?
  }

  lemma {:induction false} NextKeepsLock(h: Hash, w: World, w': World, pid: nat, action: Action)
    requires LockOk(w) && Next(h, w, w', pid, action)
    ensures LockOk(w')
  {
    forall q ensures w'.writer == Some(q) <==> q in w'.procs && w'.procs[q].phase.Inserted? {
      assert w.writer == Some(q) <==> q in w.procs && w.procs[q].phase.Inserted?;
    }
  }

  /** In every run, whoever fails or gives up lets go of the lock. */
  lemma {:induction false} LockIsReleased(h: Hash, worlds: seq<World>, moves: seq<Move>, i: nat)
    requires IsRun(h, worlds, moves) && i < |worlds|
    ensures LockOk(worlds[i])
  {
    if i > 0 {
      LockIsReleased(h, worlds, moves, i - 1);
      assert Next(h, worlds[i - 1], worlds[i], moves[i - 1].pid, moves[i - 1].action);
      NextKeepsLock(h, worlds[i - 1], worlds[i], moves[i - 1].pid, moves[i - 1].action);
    }
  }

  /** What the count of lost attempts says about a call. */
  ghost predicate Counts(p: Proc, lost: nat) {
    && p.raced + p.blocked == lost && (p.phase.GaveUp? <==> lost == MAX_ATTEMPTS) && lost <= MAX_ATTEMPTS
  }

  lemma {:induction false} NextCounts(h: Hash, w: World, w': World, m: Move, pid: nat, lost: nat)
    requires Next(h, w, w', m.pid, m.action) && pid in w.procs && Counts(w.procs[pid], lost)
    ensures pid in w'.procs
    ensures Loses(w, m, pid) ==> lost < MAX_ATTEMPTS && Counts(w'.procs[pid], lost + 1)
    ensures Loses(w, m, pid) && lost + 1 < MAX_ATTEMPTS ==> w'.procs[pid].phase == Ready
    ensures !Loses(w, m, pid) ==> Counts(w'.procs[pid], lost)
  {
  }

  lemma {:induction false} StartCounts(h: Hash, w: World, w': World, m: Move, pid: nat)
    requires Next(h, w, w', m.pid, m.action) && pid !in w.procs && pid in w'.procs
    ensures Counts(w'.procs[pid], 0) && !Loses(w, m, pid)
  {
  }

  lemma {:induction false} NothingLost(h: Hash, worlds: seq<World>, moves: seq<Move>, pid: nat, i: nat)
    requires IsRun(h, worlds, moves) && i < |worlds| && pid !in worlds[i].procs
    ensures Lost(worlds, moves, pid, i) == 0
  {
    if i > 0 {
      assert Next(h, worlds[i - 1], worlds[i], moves[i - 1].pid, moves[i - 1].action);
      NeverLeaves(h, worlds[i - 1], worlds[i], moves[i - 1], pid);
      NothingLost(h, worlds, moves, pid, i - 1);
    }
  }

  lemma {:induction false} NeverLeaves(h: Hash, w: World, w': World, m: Move, pid: nat)
    requires Next(h, w, w', m.pid, m.action)
    ensures pid in w.procs ==> pid in w'.procs
  {
  }

  /** In every run a call has given up if and only if it has lost six attempts; after fewer it tries again. */
  lemma {:induction false} SixAttempts(h: Hash, worlds: seq<World>, moves: seq<Move>, pid: nat, i: nat)
    requires IsRun(h, worlds, moves) && i < |worlds| && pid in worlds[i].procs
    ensures Counts(worlds[i].procs[pid], Lost(worlds, moves, pid, i))
    ensures i > 0 && Loses(worlds[i - 1], moves[i - 1], pid) && Lost(worlds, moves, pid, i) < MAX_ATTEMPTS ==>
              worlds[i].procs[pid].phase == Ready
  {
    if i > 0 {
      assert Next(h, worlds[i - 1], worlds[i], moves[i - 1].pid, moves[i - 1].action);
      if pid in worlds[i - 1].procs {
        SixAttempts(h, worlds, moves, pid, i - 1);
        NextCounts(h, worlds[i - 1], worlds[i], moves[i - 1], pid, Lost(worlds, moves, pid, i - 1));
      } else {
        NothingLost(h, worlds, moves, pid, i - 1);
        StartCounts(h, worlds[i - 1], worlds[i], moves[i - 1], pid);
      }
    }
  }

  lemma {:induction false} NextCommits(h: Hash, w: World, w': World, m: Move)
    requires Next(h, w, w', m.pid, m.action)
    ensures w'.commits == w.commits + if m.action.Commit? || m.action.OtherCommit? then 1 else 0
  {
  }

  /** The commit counter counts the commits of the run. */
  lemma {:induction false} CommitsAreCounted(h: Hash, worlds: seq<World>, moves: seq<Move>, i: nat)
    requires IsRun(h, worlds, moves) && i < |worlds|
    ensures worlds[i].commits == worlds[0].commits + Committed(moves, i)
  {
    if i > 0 {
      CommitsAreCounted(h, worlds, moves, i - 1);
      assert Next(h, worlds[i - 1], worlds[i], moves[i - 1].pid, moves[i - 1].action);
      NextCommits(h, worlds[i - 1], worlds[i], moves[i - 1]);
    }
  }

  // ----- a call left alone succeeds -----

  /** The world after the steps of a trail that starts in w. */
  function End(w: World, trail: seq<World>): World {
    if trail == [] then w else trail[|trail| - 1]
  }

  /** Consecutive steps of one call, with nothing else in between. */
  ghost predicate Alone(h: Hash, w: World, pid: nat, actions: seq<Action>, trail: seq<World>) {
    && |trail| == |actions|
    && (actions == [] ||
        var n := |actions| - 1;
        && Alone(h, w, pid, actions[..n], trail[..n])
        && actions[n] != OtherCommit && Next(h, End(w, trail[..n]), trail[n], pid, actions[n]))
  }

  lemma {:induction false} AloneStep(h: Hash, w: World, pid: nat, actions: seq<Action>, trail: seq<World>,
                                     x: World, action: Action)
    requires Alone(h, w, pid, actions, trail)
    requires action != OtherCommit && Next(h, End(w, trail), x, pid, action)
    ensures Alone(h, w, pid, actions + [action], trail + [x]) && End(w, trail + [x]) == x
  {
    assert (actions + [action])[..|actions|] == actions && (trail + [x])[..|trail|] == trail;
  }

  function MovesOf(pid: nat, actions: seq<Action>): (ms: seq<Move>)
    ensures |ms| == |actions| && forall i | 0 <= i < |ms| :: ms[i] == Move(pid, actions[i])
  {
    if actions == [] then [] else MovesOf(pid, actions[..|actions| - 1]) + [Move(pid, actions[|actions| - 1])]
  }

  lemma {:induction false} OneMore(h: Hash, worlds: seq<World>, moves: seq<Move>, w: World, pid: nat, action: Action)
    requires IsRun(h, worlds, moves) && Next(h, worlds[|worlds| - 1], w, pid, action)
    ensures IsRun(h, worlds + [w], moves + [Move(pid, action)])
  {
    var longer, more := worlds + [w], moves + [Move(pid, action)];
    forall i | 0 <= i < |more| ensures Next(h, longer[i], longer[i + 1], more[i].pid, more[i].action) {
      if i < |moves| {
        assert longer[i] == worlds[i] && longer[i + 1] == worlds[i + 1] && more[i] == moves[i];
      }
    }
  }

  /** A run goes on with the steps of one call. */
  lemma {:induction false} RunGoesOn(h: Hash, worlds: seq<World>, moves: seq<Move>, pid: nat,
                                     actions: seq<Action>, trail: seq<World>)
    requires IsRun(h, worlds, moves) && Alone(h, worlds[|worlds| - 1], pid, actions, trail)
    ensures IsRun(h, worlds + trail, moves + MovesOf(pid, actions))
    decreases |actions|
  {
    if actions == [] {
      assert worlds + trail == worlds && moves + MovesOf(pid, actions) == moves;
    } else {
      var n := |actions| - 1;
      RunGoesOn(h, worlds, moves, pid, actions[..n], trail[..n]);
      var longer, more := worlds + trail[..n], moves + MovesOf(pid, actions[..n]);
      assert longer[|longer| - 1] == End(worlds[|worlds| - 1], trail[..n]);
      OneMore(h, longer, more, trail[n], pid, actions[n]);
      assert longer + [trail[n]] == worlds + trail;
      assert more + [Move(pid, actions[n])] == moves + MovesOf(pid, actions);
    }
  }

  /** What a successful call does to the table: it finds its content, or appends it as the next version. */
  ghost predicate Stored(h: Hash, before: Table, r: Request, n: nat, v: int, after: Table) {
    if exists u :: SlotOf(r, u) in before && before[SlotOf(r, u)].hash == h(r.content)
    then SlotOf(r, v) in before && before[SlotOf(r, v)].hash == h(r.content) && after == before
    else v == n + 1 && after == before[SlotOf(r, n + 1) := Row(r.content, h(r.content))]
  }

  lemma {:induction false} FoundIsStored(h: Hash, t: Table, r: Request, n: nat, v: int)
    requires Holds(t, r, v, h(r.content))
    ensures Stored(h, t, r, n, v, t)
  {
  }

  lemma {:induction false} AppendedIsStored(h: Hash, t: Table, r: Request, n: nat)
    requires NoHash(t, r, h(r.content))
    ensures Stored(h, t, r, n, n + 1, t[SlotOf(r, n + 1) := Row(r.content, h(r.content))])
  {
    forall u | SlotOf(r, u) in t ensures t[SlotOf(r, u)].hash != h(r.content) {
      assert !Holds(t, r, u, h(r.content));
    }
  }

  lemma {:induction false} HolderIsOne(h: Hash, t: Table, r: Request, u: int, v: int)
    requires TableInv(h, t) && Holds(t, r, u, h(r.content)) && Holds(t, r, v, h(r.content))
    ensures u == v
  {
    assert SlotOf(r, u) == SlotOf(r, v);
  }

  /** The look-up on a snapshot of the present table. */
  lemma {:induction false} LookUpAlone(h: Hash, w: World, pid: nat) returns (x: World)
    requires TableInv(h, w.table) && pid in w.procs && w.procs[pid].phase == Reading(w.table, w.commits)
    ensures Next(h, w, x, pid, LookUp) && pid in x.procs && x == SetPhase(w, pid, x.procs[pid].phase)
    ensures var r := w.procs[pid].request;
            match x.procs[pid].phase
            case Returned(v) => Holds(w.table, r, v, h(r.content))
            case phase => phase == Absent(w.table, w.commits) && NoHash(w.table, r, h(r.content))
  {
    var r := w.procs[pid].request;
    if u :| Holds(w.table, r, u, h(r.content)) {
      forall v | Holds(w.table, r, v, h(r.content)) ensures v <= u {
        HolderIsOne(h, w.table, r, u, v);
      }
      x := SetPhase(w, pid, Returned(u));
    } else {
      x := SetPhase(w, pid, Absent(w.table, w.commits));
    }
  }

  /** The three steps after the look-up, when the content is new. */
  lemma {:induction false} AppendSteps(h: Hash, w: World, pid: nat, n: nat)
      returns (number: World, insert: World, done: World)
    requires pid in w.procs && w.writer == None && w.procs[pid].phase == Absent(w.table, w.commits)
    requires VersionsAre(w.table, w.procs[pid].request, n)
    ensures Next(h, w, number, pid, ReadMax) && Next(h, number, insert, pid, Insert)
    ensures Next(h, insert, done, pid, Commit)
    ensures Returns(done, pid, w.procs[pid].request, n + 1)
    ensures done.table == w.table[SlotOf(w.procs[pid].request, n + 1) :=
                                  Row(w.procs[pid].request.content, h(w.procs[pid].request.content))]
  {
    var r := w.procs[pid].request;
    assert IsMax(w.table, r, n);
    number := SetPhase(w, pid, Allocated(w.table, w.commits, n + 1));
    insert := SetPhase(number, pid, Inserted(n + 1)).(writer := Some(pid));
    done := SetPhase(insert, pid, Returned(n + 1))
      .(table := w.table[SlotOf(r, n + 1) := Row(r.content, h(r.content))], commits := w.commits + 1, writer := None);
  }

  predicate Returns(w: World, pid: nat, r: Request, v: int) {
    pid in w.procs && w.procs[pid].request == r && w.procs[pid].phase == Returned(v)
  }

  lemma {:induction false} AppendAlone(h: Hash, w: World, pid: nat, actions: seq<Action>, trail: seq<World>, n: nat)
      returns (all: seq<Action>, longer: seq<World>)
    requires Alone(h, w, pid, actions, trail) && pid in End(w, trail).procs && End(w, trail).writer == None
    requires End(w, trail).procs[pid].phase == Absent(End(w, trail).table, End(w, trail).commits)
    requires VersionsAre(End(w, trail).table, End(w, trail).procs[pid].request, n)
    requires NoHash(End(w, trail).table, End(w, trail).procs[pid].request, h(End(w, trail).procs[pid].request.content))
    ensures Alone(h, w, pid, all, longer) && actions <= all
    ensures Returns(End(w, longer), pid, End(w, trail).procs[pid].request, n + 1)
    ensures Stored(h, End(w, trail).table, End(w, trail).procs[pid].request, n, n + 1, End(w, longer).table)
  {
    var number, insert, done := AppendSteps(h, End(w, trail), pid, n);
    AppendedIsStored(h, End(w, trail).table, End(w, trail).procs[pid].request, n);
    AloneStep(h, w, pid, actions, trail, number, ReadMax);
    all, longer := actions + [ReadMax], trail + [number];
    AloneStep(h, w, pid, all, longer, insert, Insert);
    all, longer := all + [Insert], longer + [insert];
    AloneStep(h, w, pid, all, longer, done, Commit);
    all, longer := all + [Commit], longer + [done];
  }

  /** A call between two attempts, left alone, returns its version. */
  lemma {:induction false} ReadyCallReturns(h: Hash, w: World, pid: nat, actions: seq<Action>, trail: seq<World>,
                                            n: nat)
      returns (all: seq<Action>, longer: seq<World>, v: int)
    requires Alone(h, w, pid, actions, trail) && pid in End(w, trail).procs && End(w, trail).writer == None
    requires End(w, trail).procs[pid].phase == Ready && TableInv(h, End(w, trail).table)
    requires VersionsAre(End(w, trail).table, End(w, trail).procs[pid].request, n)
    ensures Alone(h, w, pid, all, longer) && actions <= all
    ensures Returns(End(w, longer), pid, End(w, trail).procs[pid].request, v)
    ensures Stored(h, End(w, trail).table, End(w, trail).procs[pid].request, n, v, End(w, longer).table)
  {
    var x := End(w, trail);
    var reading := SetPhase(x, pid, Reading(x.table, x.commits));
    AloneStep(h, w, pid, actions, trail, reading, Begin);
    all, longer := actions + [Begin], trail + [reading];
    var looked := LookUpAlone(h, reading, pid);
    AloneStep(h, w, pid, all, longer, looked, LookUp);
    all, longer := all + [LookUp], longer + [looked];
    if looked.procs[pid].phase.Returned? {
      v := looked.procs[pid].phase.version;
      FoundIsStored(h, x.table, x.procs[pid].request, n, v);
    } else {
      v := n + 1;
      all, longer := AppendAlone(h, w, pid, all, longer, n);
    }
  }

  lemma {:induction false} OnlyOwn(h: Hash, w: World, pid: nat, actions: seq<Action>, trail: seq<World>)
    requires Alone(h, w, pid, actions, trail)
    ensures OtherCommit !in actions
  {
    if actions != [] {
      OnlyOwn(h, w, pid, actions[..|actions| - 1], trail[..|trail| - 1]);
    }
  }

  lemma {:induction false} NewCallReturns(h: Hash, w: World, r: Request, pid: nat, n: nat)
      returns (actions: seq<Action>, trail: seq<World>, v: int)
    requires TableInv(h, w.table) && w.writer == None && pid !in w.procs && VersionsAre(w.table, r, n)
    ensures Alone(h, w, pid, actions, trail) && [Start(r)] <= actions && OtherCommit !in actions
    ensures Returns(End(w, trail), pid, r, v) && Stored(h, w.table, r, n, v, End(w, trail).table)
  {
    var started := w.(procs := w.procs[pid := Proc(r, Ready, w.commits, 0, 0)]);
    AloneStep(h, w, pid, [], [], started, Start(r));
    assert [] + [Start(r)] == [Start(r)] && [] + [started] == [started];
    actions, trail, v := ReadyCallReturns(h, w, pid, [Start(r)], [started], n);
    OnlyOwn(h, w, pid, actions, trail);
  }

  /**
   * From every reachable world in which nobody holds the write lock, a new call can run to its end by
   * its own steps. It returns the version that already holds its content, or else stores the content
   * as the next version, and changes nothing else in the table.
   */
  lemma {:induction false} LoneCallReturns(h: Hash, worlds: seq<World>, moves: seq<Move>, r: Request, pid: nat, n: nat)
      returns (actions: seq<Action>, trail: seq<World>, v: int)
    requires IsRun(h, worlds, moves) && worlds[|moves|].writer == None && pid !in worlds[|moves|].procs
    requires VersionsAre(worlds[|moves|].table, r, n)
    ensures IsRun(h, worlds + trail, moves + MovesOf(pid, actions)) && [Start(r)] <= actions && OtherCommit !in actions
    ensures Returns(End(worlds[|moves|], trail), pid, r, v)
    ensures Stored(h, worlds[|moves|].table, r, n, v, End(worlds[|moves|], trail).table)
  {
    RunKeepsInv(h, worlds, moves, |moves|);
    actions, trail, v := NewCallReturns(h, worlds[|moves|], r, pid, n);
    RunGoesOn(h, worlds, moves, pid, actions, trail);
  }
}
