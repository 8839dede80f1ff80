/**
 * Webhook delivery as a step system: calls of Notify, eight workers and any number of calls of Stop
 * share a bounded queue and a stop flag. One event is one atomic step of one of them, so a run is
 * any interleaving.
 */
module Dispatcher {
  const QUEUE_CAPACITY: nat := 1024
  const WORKERS: nat := 8
  const MAX_RETRIES: nat := 3

  datatype Job = Job(webhook: int, echo: bool)

  datatype Outcome = Delivered(posts: nat) | GaveUp(posts: nat) | Aborted(posts: nat) | Echoed | Unencodable

  /** Where a worker or a call of Stop is. Jobs are named by their place in the order of acceptance. */
  datatype Phase =
    | NotCalled
    | Looping
    | Waiting
    | Draining
    | Delivering(job: nat, posts: nat, backingOff: bool, draining: bool)
    | Drained(upTo: nat)
    | Cancelled
    | TimedOut

  /** A call of Notify: the jobs still to offer, and whether the stop flag was just found open. */
  datatype Notifier = Notifier(rest: seq<Job>, checked: bool)

  datatype State = State(
    queue: seq<Job>,
    dropped: nat,
    stop: bool,
    cancelled: bool,
    /** The first `WORKERS` are the workers, the others calls of Stop. */
    actors: seq<Phase>,
    notifiers: seq<Notifier>,
    /** History: what was offered, accepted, taken off the queue, posted, finished, and let go uncounted. */
    offered: nat,
    accepted: seq<Job>,
    taken: nat,
    posted: multiset<nat>,
    outcomes: map<nat, Outcome>,
    lost: nat)

  datatype Event =
    | Notify(n: nat, jobs: seq<Job>)
    | Check(n: nat)
    | Send(n: nat)
    | Cancel
    | CallStop(a: nat)
    | SeeStop(a: nat)
    | SeeCancel(a: nat)
    | Sweep(a: nat)
    | TimeOut(a: nat)
    | Take(a: nat)
    | PollEmpty(a: nat)
    | Encode(a: nat, fails: bool)
    | Post(a: nat, ok: bool)
    | Retry(a: nat)
    | Abort(a: nat)

  predicate IsWorker(a: nat) { a < WORKERS }

  predicate Gone(p: Phase) { p.Drained? || p.Cancelled? }

  predicate WorkersGone(actors: seq<Phase>) {
    forall a | 0 <= a < WORKERS && a < |actors| :: Gone(actors[a])
  }

  function Start(stops: nat, notifies: nat): State {
    State([], 0, false, false,
          seq(WORKERS + stops, i => if i < WORKERS then Looping else NotCalled),
          seq(notifies, _ => Notifier([], false)),
          0, [], 0, multiset{}, map[], 0)
  }

  predicate NotifierAt(s: State, n: nat, rest: bool, checked: bool) {
    n < |s.notifiers| && (s.notifiers[n].rest != []) == rest && s.notifiers[n].checked == checked
  }

  predicate ActorIn(s: State, a: nat) { a < |s.actors| }

  predicate InHand(s: State, a: nat, backingOff: bool) {
    ActorIn(s, a) && s.actors[a].Delivering? && s.actors[a].backingOff == backingOff
  }

  predicate Enabled(s: State, e: Event) {
    match e
    case Notify(n, _) => NotifierAt(s, n, false, false)
    case Check(n) => NotifierAt(s, n, true, false)
    case Send(n) => NotifierAt(s, n, true, true)
    case Cancel => true
    case CallStop(a) => ActorIn(s, a) && s.actors[a].NotCalled?
    case SeeStop(a) => ActorIn(s, a) && s.actors[a].Looping? && s.stop
    case SeeCancel(a) => ActorIn(s, a) && s.actors[a].Looping? && s.cancelled
    case Sweep(a) => ActorIn(s, a) && s.actors[a].Waiting? && WorkersGone(s.actors)
    case TimeOut(a) => ActorIn(s, a) && s.actors[a].Waiting?
    case Take(a) => ActorIn(s, a) && (s.actors[a].Looping? || s.actors[a].Draining?) && s.queue != []
    case PollEmpty(a) => ActorIn(s, a) && s.actors[a].Draining? && s.queue == []
    case Encode(a, fails) =>
      InHand(s, a, false) && s.actors[a].posts == 0 && s.actors[a].job < |s.accepted| &&
      (fails || s.accepted[s.actors[a].job].echo)
    case Post(a, _) =>
      InHand(s, a, false) && s.actors[a].job < |s.accepted| && !s.accepted[s.actors[a].job].echo
    case Retry(a) => InHand(s, a, true)
    case Abort(a) => InHand(s, a, true) && (s.stop || s.cancelled)
  }

  function SetActor(s: State, a: nat, p: Phase): State
    requires a < |s.actors|
  {
    s.(actors := s.actors[a := p])
  }

  /** The actor is done with its job and goes back to where it took it. */
  function Finish(s: State, a: nat, o: Outcome): State
    requires a < |s.actors| && s.actors[a].Delivering?
  {
    var p := s.actors[a];
    SetActor(s, a, if p.draining then Draining else Looping).(outcomes := s.outcomes[p.job := o])
  }

  /** One POST: done on success and after the last attempt, otherwise back off. */
  function Posted(s: State, a: nat, ok: bool): State
    requires a < |s.actors| && s.actors[a].Delivering?
  {
    var p := s.actors[a];
    var n := p.posts + 1;
    var s1 := s.(posted := s.posted + multiset{p.job});
    if ok then Finish(s1, a, Delivered(n))
    else if n >= MAX_RETRIES then Finish(s1, a, GaveUp(n))
    else SetActor(s1, a, p.(posts := n, backingOff := true))
  }

  function Offer(s: State, n: nat): State
    requires NotifierAt(s, n, true, true)
  {
    var rest := s.notifiers[n].rest;
    var s1 := s.(notifiers := s.notifiers[n := Notifier(rest[1..], false)]);
    if |s.queue| < QUEUE_CAPACITY
    then s1.(queue := s.queue + [rest[0]], accepted := s.accepted + [rest[0]])
    else s1.(dropped := s.dropped + 1)
  }

  function Apply(s: State, e: Event): State
    requires Enabled(s, e)
  {
    match e
    case Notify(n, jobs) =>
      if s.stop then s.(offered := s.offered + |jobs|, lost := s.lost + |jobs|)
      else s.(offered := s.offered + |jobs|, notifiers := s.notifiers[n := Notifier(jobs, false)])
    case Check(n) =>
      var rest := s.notifiers[n].rest;
      if s.stop
      then s.(dropped := s.dropped + 1, lost := s.lost + (|rest| - 1),
              notifiers := s.notifiers[n := Notifier([], false)])
      else s.(notifiers := s.notifiers[n := Notifier(rest, true)])
    case Send(n) => Offer(s, n)
    case Cancel => s.(cancelled := true)
    case CallStop(a) => SetActor(s, a, Waiting).(stop := true)
    case SeeStop(a) => SetActor(s, a, Draining)
    case SeeCancel(a) => SetActor(s, a, Cancelled)
    case Sweep(a) => SetActor(s, a, Draining)
    case TimeOut(a) => SetActor(s, a, TimedOut)
    case Take(a) =>
      SetActor(s, a, Delivering(s.taken, 0, false, s.actors[a].Draining?)).(queue := s.queue[1..], taken := s.taken + 1)
    case PollEmpty(a) => SetActor(s, a, Drained(|s.accepted|))
    case Encode(a, fails) => Finish(s, a, if fails then Unencodable else Echoed)
    case Post(a, ok) => Posted(s, a, ok)
    case Retry(a) => SetActor(s, a, s.actors[a].(backingOff := false))
    case Abort(a) => Finish(s, a, Aborted(s.actors[a].posts))
  }

  predicate Runs(s: State, run: seq<Event>)
    decreases |run|, 0
  {
    run == [] || (Runs(s, run[..|run| - 1]) && Enabled(After(s, run[..|run| - 1]), run[|run| - 1]))
  }

  function After(s: State, run: seq<Event>): State
    requires Runs(s, run)
    decreases |run|, 1
  {
    if run == [] then s else Apply(After(s, run[..|run| - 1]), run[|run| - 1])
  }

  // ----- the invariant -----

  predicate Holds(actors: seq<Phase>, a: nat, job: nat) {
    a < |actors| && actors[a].Delivering? && actors[a].job == job
  }

  ghost predicate Held(actors: seq<Phase>, job: nat) {
    exists a: nat :: Holds(actors, a, job)
  }

  /** First in, first out: the queue is what was accepted and not yet taken. */
  ghost predicate Fifo(s: State) {
    s.taken <= |s.accepted| && s.queue == s.accepted[s.taken..] && |s.queue| <= QUEUE_CAPACITY
  }

  /** Workers and calls of Stop are where their code can be. */
  ghost predicate PhaseOk(s: State, a: nat, p: Phase) {
    && (IsWorker(a) ==> p.Looping? || p.Draining? || p.Delivering? || Gone(p))
    && (!IsWorker(a) ==> !p.Looping? && !p.Cancelled?)
    && (!IsWorker(a) && !p.NotCalled? ==> s.stop)
    && (p.Draining? || p.Drained? || (p.Delivering? && p.draining) ==> s.stop)
    && (!IsWorker(a) && (p.Draining? || p.Delivering? || p.Drained?) ==> WorkersGone(s.actors))
    && (!IsWorker(a) && p.Delivering? ==> p.draining)
    && (p.Drained? ==> p.upTo <= s.taken)
  }

  ghost predicate Phases(s: State) {
    |s.actors| >= WORKERS && forall a: nat | a < |s.actors| :: PhaseOk(s, a, s.actors[a])
  }

  ghost predicate HandOk(s: State, p: Phase) {
    p.Delivering? ==>
      && p.job < s.taken && p.job !in s.outcomes
      && s.posted[p.job] == p.posts < MAX_RETRIES && (p.backingOff ==> p.posts > 0)
  }

  /** A taken job is finished or in exactly one pair of hands. */
  ghost predicate Handed(s: State) {
    && (forall a: nat | a < |s.actors| :: HandOk(s, s.actors[a]))
    && (forall a: nat, b: nat | a < b < |s.actors| && s.actors[a].Delivering? && s.actors[b].Delivering? ::
          s.actors[a].job != s.actors[b].job)
    && (forall k: nat | k < s.taken && k !in s.outcomes :: Held(s.actors, k))
    && (forall k | k in s.outcomes :: k < s.taken)
  }

  ghost predicate OutcomeOk(s: State, k: nat, o: Outcome) {
    match o
    case Delivered(n) => 1 <= n <= MAX_RETRIES && s.posted[k] == n
    case GaveUp(n) => n == MAX_RETRIES && s.posted[k] == n
    case Aborted(n) => 1 <= n < MAX_RETRIES && s.posted[k] == n && (s.stop || s.cancelled)
    case Echoed => s.posted[k] == 0 && k < |s.accepted| && s.accepted[k].echo
    case Unencodable => s.posted[k] == 0
  }

  ghost predicate Posts(s: State) {
    && (forall k | k in s.outcomes :: OutcomeOk(s, k, s.outcomes[k]))
    && (forall k: nat | k >= s.taken :: s.posted[k] == 0)
  }

  function Pending(ns: seq<Notifier>): nat {
    if ns == [] then 0 else Pending(ns[..|ns| - 1]) + |ns[|ns| - 1].rest|
  }

  /** Every job offered was accepted, counted as dropped, let go at shutdown, or is still to be offered. */
  ghost predicate Conserved(s: State) {
    s.offered == |s.accepted| + s.dropped + s.lost + Pending(s.notifiers) && (s.lost > 0 ==> s.stop)
  }

  ghost predicate Inv(s: State) {
    Fifo(s) && Phases(s) && Handed(s) && Posts(s) && Conserved(s)
  }

  lemma {:induction false} PendingUpdate(ns: seq<Notifier>, n: nat, x: Notifier)
    requires n < |ns|
    ensures Pending(ns[n := x]) == Pending(ns) - |ns[n].rest| + |x.rest|
  {
    var last := |ns| - 1;
    if n < last {
      assert ns[n := x][..last] == ns[..last][n := x];
      PendingUpdate(ns[..last], n, x);
    } else {
      assert ns[n := x][..last] == ns[..last];
    }
  }

  lemma {:induction false} NothingPending(ns: seq<Notifier>)
    requires forall i | 0 <= i < |ns| :: ns[i].rest == []
    ensures Pending(ns) == 0
  {
    if ns != [] {
      NothingPending(ns[..|ns| - 1]);
    }
  }

  lemma {:induction false} StartInv(stops: nat, notifies: nat)
    ensures Inv(Start(stops, notifies))
  {
    NothingPending(Start(stops, notifies).notifiers);
  }

  /** Only the place of an actor that holds no job changes. */
  predicate Idle(p: Phase) { !p.Delivering? }

  /** Changing one actor leaves held what the others hold. */
  lemma {:induction false} StillHeld(actors: seq<Phase>, a: nat, p: Phase, job: nat)
    requires a < |actors| && Held(actors, job) && !Holds(actors, a, job)
    ensures Held(actors[a := p], job)
  {
    var b: nat :| Holds(actors, b, job);
    assert Holds(actors[a := p], b, job);
  }

  lemma {:induction false} MoveKeepsHanded(s: State, a: nat, p: Phase, stop: bool)
    requires a < |s.actors| && Idle(s.actors[a]) && Idle(p) && (s.stop ==> stop)
    requires Handed(s) && Posts(s)
    ensures var t := SetActor(s, a, p).(stop := stop); Handed(t) && Posts(t)
  {
    var t := SetActor(s, a, p).(stop := stop);
    forall k: nat | k < t.taken && k !in t.outcomes ensures Held(t.actors, k) {
      StillHeld(s.actors, a, p, k);
    }
    forall b: nat | b < |t.actors| ensures HandOk(t, t.actors[b]) {
      assert HandOk(s, s.actors[b]);
    }
    forall k | k in t.outcomes ensures OutcomeOk(t, k, t.outcomes[k]) {
      assert OutcomeOk(s, k, s.outcomes[k]);
    }
  }

  lemma {:induction false} MoveKeepsInv(s: State, e: Event)
    requires Inv(s) && Enabled(s, e)
    requires e.CallStop? || e.SeeStop? || e.SeeCancel? || e.Sweep? || e.TimeOut? || e.PollEmpty?
    ensures Inv(Apply(s, e))
  {
    var t := Apply(s, e);
    assert PhaseOk(s, e.a, s.actors[e.a]);
    MoveKeepsHanded(s, e.a, t.actors[e.a], t.stop);
    assert t == SetActor(s, e.a, t.actors[e.a]).(stop := t.stop);
    forall b: nat | b < |t.actors| ensures PhaseOk(t, b, t.actors[b]) {
      assert PhaseOk(s, b, s.actors[b]);
    }
  }

  lemma {:induction false} SendKeepsCounts(s: State, n: nat)
    requires Fifo(s) && Conserved(s) && Enabled(s, Send(n))
    ensures Fifo(Apply(s, Send(n))) && Conserved(Apply(s, Send(n)))
  {
    PendingUpdate(s.notifiers, n, Notifier(s.notifiers[n].rest[1..], false));
    if |s.queue| < QUEUE_CAPACITY {
      var longer := s.accepted + [s.notifiers[n].rest[0]];
      assert longer[s.taken..] == s.accepted[s.taken..] + [s.notifiers[n].rest[0]];
    }
  }

  lemma {:induction false} SendKeepsInv(s: State, n: nat)
    requires Inv(s) && Enabled(s, Send(n))
    ensures Inv(Apply(s, Send(n)))
  {
    SendKeepsCounts(s, n);
    KeepsActors(s, Apply(s, Send(n)));
  }

  /** Steps that leave the actors, what they hold and what is finished alone. */
  lemma {:induction false} KeepsActors(s: State, t: State)
    requires Phases(s) && Handed(s) && Posts(s)
    requires t.actors == s.actors && t.taken == s.taken && t.posted == s.posted && t.outcomes == s.outcomes
    requires (s.stop ==> t.stop) && (s.cancelled ==> t.cancelled) && s.accepted <= t.accepted
    ensures Phases(t) && Handed(t) && Posts(t)
  {
  }

  lemma {:induction false} NotifyKeepsInv(s: State, e: Event)
    requires Inv(s) && Enabled(s, e) && (e.Notify? || e.Check? || e.Cancel?)
    ensures Inv(Apply(s, e))
  {
    var t := Apply(s, e);
    if !e.Cancel? {
      PendingUpdate(s.notifiers, e.n, t.notifiers[e.n]);
      assert t.notifiers == s.notifiers[e.n := t.notifiers[e.n]];
    }
    KeepsActors(s, t);
  }

  lemma {:induction false} TakeKeepsHanded(s: State, a: nat)
    requires Inv(s) && Enabled(s, Take(a))
    ensures Handed(Apply(s, Take(a))) && Posts(Apply(s, Take(a)))
  {
    var t := Apply(s, Take(a));
    forall k: nat | k < t.taken && k !in t.outcomes ensures Held(t.actors, k) {
      if k == s.taken {
        assert Holds(t.actors, a, k);
      } else {
        StillHeld(s.actors, a, t.actors[a], k);
      }
    }
    forall b: nat | b < |t.actors| ensures HandOk(t, t.actors[b]) {
      assert HandOk(s, s.actors[b]);
    }
    forall k | k in t.outcomes ensures OutcomeOk(t, k, t.outcomes[k]) {
      assert OutcomeOk(s, k, s.outcomes[k]);
    }
  }

  lemma {:induction false} TakeKeepsInv(s: State, a: nat)
    requires Inv(s) && Enabled(s, Take(a))
    ensures Inv(Apply(s, Take(a)))
  {
    var t := Apply(s, Take(a));
    TakeKeepsHanded(s, a);
    assert PhaseOk(s, a, s.actors[a]);
    forall b: nat | b < |t.actors| ensures PhaseOk(t, b, t.actors[b]) {
      assert PhaseOk(s, b, s.actors[b]);
    }
  }

  // ----- a job in hand -----

  /** What a step of an actor on its own job changes: its phase, its posts, and perhaps the outcome. */
  ghost predicate WorksOn(s: State, a: nat, t: State) {
    && a < |s.actors| && s.actors[a].Delivering?
    && t == s.(actors := t.actors, posted := t.posted, outcomes := t.outcomes)
    && |t.actors| == |s.actors|
    && t.actors == s.actors[a := t.actors[a]]
    && (forall k: nat | k != s.actors[a].job :: t.posted[k] == s.posted[k])
    && (forall k | k != s.actors[a].job ::
          (k in t.outcomes <==> k in s.outcomes) && (k in s.outcomes ==> t.outcomes[k] == s.outcomes[k]))
    && (if t.actors[a].Delivering?
        then t.actors[a].job == s.actors[a].job && t.actors[a].draining == s.actors[a].draining
             && t.outcomes == s.outcomes && HandOk(t, t.actors[a])
        else t.actors[a] == (if s.actors[a].draining then Draining else Looping)
             && s.actors[a].job in t.outcomes && OutcomeOk(t, s.actors[a].job, t.outcomes[s.actors[a].job]))
  }

  lemma {:induction false} WorkKeepsHanded(s: State, a: nat, t: State)
    requires Handed(s) && Posts(s) && WorksOn(s, a, t)
    ensures Handed(t) && Posts(t)
  {
    var job := s.actors[a].job;
    assert HandOk(s, s.actors[a]);
    forall k: nat | k < t.taken && k !in t.outcomes ensures Held(t.actors, k) {
      if k == job {
        assert Holds(t.actors, a, k);
      } else {
        StillHeld(s.actors, a, t.actors[a], k);
      }
    }
    forall b: nat | b < |t.actors| ensures HandOk(t, t.actors[b]) {
      assert HandOk(s, s.actors[b]);
    }
    forall k | k in t.outcomes ensures OutcomeOk(t, k, t.outcomes[k]) && k < t.taken {
      assert k != job ==> OutcomeOk(s, k, s.outcomes[k]);
    }
  }

  lemma {:induction false} WorkKeepsInv(s: State, a: nat, t: State)
    requires Inv(s) && WorksOn(s, a, t)
    ensures Inv(t)
  {
    WorkKeepsHanded(s, a, t);
    assert PhaseOk(s, a, s.actors[a]);
    forall b: nat | b < |t.actors| ensures PhaseOk(t, b, t.actors[b]) {
      assert PhaseOk(s, b, s.actors[b]);
    }
  }

  lemma {:induction false} FinishWorks(s: State, a: nat, o: Outcome, posted: multiset<nat>)
    requires a < |s.actors| && s.actors[a].Delivering?
    requires forall k: nat | k != s.actors[a].job :: posted[k] == s.posted[k]
    requires OutcomeOk(s.(posted := posted), s.actors[a].job, o)
    ensures WorksOn(s, a, Finish(s.(posted := posted), a, o))
  {
  }

  lemma {:induction false} PostWorks(s: State, a: nat, ok: bool)
    requires Enabled(s, Post(a, ok)) && HandOk(s, s.actors[a])
    ensures WorksOn(s, a, Posted(s, a, ok))
  {
    var p := s.actors[a];
    var posted := s.posted + multiset{p.job};
    if ok {
      FinishWorks(s, a, Delivered(p.posts + 1), posted);
    } else if p.posts + 1 >= MAX_RETRIES {
      FinishWorks(s, a, GaveUp(p.posts + 1), posted);
    }
  }

  lemma {:induction false} HandsWork(s: State, e: Event)
    requires (e.Encode? || e.Retry? || e.Abort?) && Enabled(s, e) && HandOk(s, s.actors[e.a])
    ensures WorksOn(s, e.a, Apply(s, e))
  {
  }

  lemma {:induction false} HandsKeepInv(s: State, e: Event)
    requires Inv(s) && Enabled(s, e) && (e.Encode? || e.Post? || e.Retry? || e.Abort?)
    ensures Inv(Apply(s, e))
  {
    assert HandOk(s, s.actors[e.a]);
    if e.Post? {
      PostWorks(s, e.a, e.ok);
    } else {
      HandsWork(s, e);
    }
    WorkKeepsInv(s, e.a, Apply(s, e));
  }

  lemma {:induction false} StepKeepsInv(s: State, e: Event)
    requires Inv(s) && Enabled(s, e)
    ensures Inv(Apply(s, e))
  {
    if e.Send? {
      SendKeepsInv(s, e.n);
    } else if e.Notify? || e.Check? || e.Cancel? {
      NotifyKeepsInv(s, e);
    } else if e.Take? {
      TakeKeepsInv(s, e.a);
    } else if e.Encode? || e.Post? || e.Retry? || e.Abort? {
      HandsKeepInv(s, e);
    } else {
      MoveKeepsInv(s, e);
    }
  }

  lemma {:induction false} RunKeepsInv(s: State, run: seq<Event>)
    requires Inv(s) && Runs(s, run)
    ensures Inv(After(s, run))
  {
    if run != [] {
      RunKeepsInv(s, run[..|run| - 1]);
      StepKeepsInv(After(s, run[..|run| - 1]), run[|run| - 1]);
    }
  }

  // ----- what every run keeps -----

  /**
   * However the calls interleave, an accepted job is in exactly one place: queued, in the hands of
   * one worker or one Stop, or finished. It is never posted more than three times, and jobs leave
   * the queue in the order they were accepted.
   */
  lemma {:induction false} EveryJobIsSomewhere(stops: nat, notifies: nat, run: seq<Event>, k: nat)
    requires Runs(Start(stops, notifies), run) && k < |After(Start(stops, notifies), run).accepted|
    ensures var s := After(Start(stops, notifies), run);
      && s.taken <= |s.accepted| && s.queue == s.accepted[s.taken..] && |s.queue| <= QUEUE_CAPACITY
      && (k >= s.taken <==> !Held(s.actors, k) && k !in s.outcomes)
      && !(Held(s.actors, k) && k in s.outcomes)
      && (forall a: nat, b: nat | Holds(s.actors, a, k) && Holds(s.actors, b, k) :: a == b)
      && s.posted[k] <= MAX_RETRIES
  {
    StartInv(stops, notifies);
    RunKeepsInv(Start(stops, notifies), run);
    var s := After(Start(stops, notifies), run);
    if Held(s.actors, k) {
      var a: nat :| Holds(s.actors, a, k);
      assert HandOk(s, s.actors[a]);
    }
  }

  /** A job that was taken and not interrupted by a shutdown ends in success or after three failed posts. */
  lemma {:induction false} EndsOnlyAfterTrying(stops: nat, notifies: nat, run: seq<Event>, k: nat)
    requires Runs(Start(stops, notifies), run)
    requires var s := After(Start(stops, notifies), run); k in s.outcomes && !s.stop && !s.cancelled
    ensures var s := After(Start(stops, notifies), run);
      match s.outcomes[k]
      case Delivered(n) => 1 <= s.posted[k] <= MAX_RETRIES
      case GaveUp(n) => s.posted[k] == MAX_RETRIES
      case Aborted(_) => false
      case Echoed => s.posted[k] == 0 && k < |s.accepted| && s.accepted[k].echo
      case Unencodable => s.posted[k] == 0
  {
    StartInv(stops, notifies);
    RunKeepsInv(Start(stops, notifies), run);
    var s := After(Start(stops, notifies), run);
    assert OutcomeOk(s, k, s.outcomes[k]);
  }

  /** An echo job is never posted, and a worker gives way to a cancellation only if there is one. */
  ghost predicate Proper(s: State) {
    && (forall k: nat | k < |s.accepted| && s.accepted[k].echo :: s.posted[k] == 0)
    && (forall k: nat | k >= |s.accepted| :: s.posted[k] == 0)
    && (forall a | 0 <= a < |s.actors| && s.actors[a].Cancelled? :: s.cancelled)
  }

  lemma {:induction false} ProperOutside(s: State, t: State)
    requires Proper(s) && t.actors == s.actors && t.posted == s.posted && s.accepted <= t.accepted
    requires s.cancelled ==> t.cancelled
    ensures Proper(t)
  {
  }

  lemma {:induction false} ProperMove(s: State, a: nat, t: State)
    requires Proper(s) && a < |s.actors| == |t.actors| && t.actors == s.actors[a := t.actors[a]]
    requires t.posted == s.posted && t.accepted == s.accepted && t.cancelled == s.cancelled
    requires t.actors[a].Cancelled? ==> s.cancelled
    ensures Proper(t)
  {
  }

  lemma {:induction false} ProperPost(s: State, a: nat, ok: bool)
    requires Proper(s) && Enabled(s, Post(a, ok))
    ensures Proper(Apply(s, Post(a, ok)))
  {
    var t := Apply(s, Post(a, ok));
    assert t.posted == s.posted + multiset{s.actors[a].job};
    assert t.actors == s.actors[a := t.actors[a]] && !t.actors[a].Cancelled?;
  }

  lemma {:induction false} OwnStep(s: State, e: Event)
    requires Enabled(s, e) && !(e.Notify? || e.Check? || e.Send? || e.Cancel? || e.Post?)
    ensures var t := Apply(s, e);
            && e.a < |s.actors| == |t.actors| && t.actors == s.actors[e.a := t.actors[e.a]]
            && t.posted == s.posted && t.accepted == s.accepted && t.cancelled == s.cancelled
            && (t.actors[e.a].Cancelled? ==> s.cancelled)
  {
  }

  lemma {:induction false} StepKeepsProper(s: State, e: Event)
    requires Proper(s) && Enabled(s, e)
    ensures Proper(Apply(s, e))
  {
    if e.Post? {
      ProperPost(s, e.a, e.ok);
    } else if e.Notify? || e.Check? || e.Send? || e.Cancel? {
      OutsideStep(s, e);
      ProperOutside(s, Apply(s, e));
    } else {
      OwnStep(s, e);
      ProperMove(s, e.a, Apply(s, e));
    }
  }

  /** In every run the echo log alone takes echo jobs, and only a cancelled server cancels its workers. */
  lemma {:induction false} EchoIsNeverPosted(stops: nat, notifies: nat, run: seq<Event>)
    requires Runs(Start(stops, notifies), run)
    ensures Proper(After(Start(stops, notifies), run))
  {
    if run != [] {
      EchoIsNeverPosted(stops, notifies, run[..|run| - 1]);
      StepKeepsProper(After(Start(stops, notifies), run[..|run| - 1]), run[|run| - 1]);
    }
  }

  // ----- what decides the outcome of a job -----

  /** What can happen to a job in hand: the answer to a post, the end without one, a shutdown. */
  datatype Try = Answered(ok: bool) | Unposted(fails: bool) | Interrupted

  function TryOf(e: Event): Try
    requires e.Post? || e.Encode? || e.Abort?
  {
    match e
    case Post(_, ok) => Answered(ok)
    case Encode(_, fails) => Unposted(fails)
    case Abort(_) => Interrupted
  }

  /** A step on job k by the one who holds it. */
  predicate Tries(s: State, e: Event, k: nat) {
    (e.Post? || e.Encode? || e.Abort?) && Holds(s.actors, e.a, k)
  }

  /** What happened to job k along a run, in order. */
  ghost function Story(s: State, run: seq<Event>, k: nat): seq<Try>
    requires Runs(s, run)
  {
    if run == [] then []
    else
      var before, e := run[..|run| - 1], run[|run| - 1];
      Story(s, before, k) + if Tries(After(s, before), e, k) then [TryOf(e)] else []
  }

  predicate AllFailed(story: seq<Try>) {
    forall i | 0 <= i < |story| :: story[i] == Answered(false)
  }

  /** Failed posts and then one thing more. */
  predicate EndsWith(story: seq<Try>, last: Try) {
    story != [] && story[|story| - 1] == last && AllFailed(story[..|story| - 1])
  }

  /** Where a job is after its story. */
  ghost predicate Told(s: State, k: nat, story: seq<Try>) {
    if k !in s.outcomes then AllFailed(story) && |story| == s.posted[k]
    else
      match s.outcomes[k]
      case Delivered(n) => |story| == n && EndsWith(story, Answered(true))
      case GaveUp(n) => |story| == n && AllFailed(story)
      case Aborted(n) => |story| == n + 1 && EndsWith(story, Interrupted)
      case Echoed => story == [Unposted(false)]
      case Unencodable => story == [Unposted(true)]
  }

  /** A step of the one who holds the job adds to its story. */
  lemma {:induction false} HolderTells(s: State, e: Event, k: nat, story: seq<Try>)
    requires Enabled(s, e) && Tries(s, e, k) && HandOk(s, s.actors[e.a]) && Told(s, k, story)
    ensures Told(Apply(s, e), k, story + [TryOf(e)])
  {
    assert (story + [TryOf(e)])[..|story|] == story;
  }

  lemma {:induction false} WorkElsewhere(s: State, e: Event, k: nat)
    requires Enabled(s, e) && (e.Post? || e.Encode? || e.Abort?) && !Holds(s.actors, e.a, k)
    ensures Untouched(s, Apply(s, e), k)
  {
  }

  lemma {:induction false} PlaceStep(s: State, e: Event)
    requires Enabled(s, e) && !(e.Post? || e.Encode? || e.Abort?)
    requires !(e.Notify? || e.Check? || e.Send? || e.Cancel?)
    ensures Apply(s, e).posted == s.posted && Apply(s, e).outcomes == s.outcomes
  {
  }

  /** Posts and outcome of a job as before. */
  predicate Untouched(s: State, t: State, k: nat) {
    && t.posted[k] == s.posted[k] && (k in t.outcomes <==> k in s.outcomes)
    && (k in s.outcomes ==> t.outcomes[k] == s.outcomes[k])
  }

  lemma {:induction false} StepTells(s: State, e: Event, k: nat, story: seq<Try>)
    requires Inv(s) && Enabled(s, e) && Told(s, k, story)
    ensures Told(Apply(s, e), k, story + if Tries(s, e, k) then [TryOf(e)] else [])
  {
    if Tries(s, e, k) {
      assert HandOk(s, s.actors[e.a]);
      HolderTells(s, e, k, story);
    } else {
      assert story + [] == story;
      if e.Post? || e.Encode? || e.Abort? {
        WorkElsewhere(s, e, k);
      } else if e.Notify? || e.Check? || e.Send? || e.Cancel? {
        OutsideStep(s, e);
      } else {
        PlaceStep(s, e);
      }
      assert Untouched(s, Apply(s, e), k);
    }
  }

  lemma {:induction false} RunTells(s: State, run: seq<Event>, k: nat)
    requires Inv(s) && Runs(s, run) && Told(s, k, [])
    ensures Told(After(s, run), k, Story(s, run, k))
  {
    if run != [] {
      var before := run[..|run| - 1];
      RunTells(s, before, k);
      RunKeepsInv(s, before);
      StepTells(After(s, before), run[|run| - 1], k, Story(s, before, k));
    }
  }

  lemma {:induction false} StoryOf(stops: nat, notifies: nat, run: seq<Event>, k: nat)
    requires Runs(Start(stops, notifies), run)
    ensures Told(After(Start(stops, notifies), run), k, Story(Start(stops, notifies), run, k))
  {
    StartInv(stops, notifies);
    assert Told(Start(stops, notifies), k, []);
    RunTells(Start(stops, notifies), run, k);
  }

  /** A job not finished has room for another post. */
  lemma {:induction false} UnfinishedPosts(s: State, k: nat)
    requires Inv(s) && k !in s.outcomes
    ensures s.posted[k] < MAX_RETRIES && (s.posted[k] > 0 ==> Held(s.actors, k))
  {
    if k < s.taken {
      assert Held(s.actors, k);
      var a: nat :| Holds(s.actors, a, k);
      assert HandOk(s, s.actors[a]);
    }
  }

  /** The outcome a story leads to, if it is over. */
  ghost predicate Decides(story: seq<Try>, o: Outcome) {
    match o
    case Delivered(n) => |story| == n && EndsWith(story, Answered(true))
    case GaveUp(n) => |story| == n == 3 && AllFailed(story)
    case Aborted(n) => |story| == n + 1 && EndsWith(story, Interrupted)
    case Echoed => story == [Unposted(false)]
    case Unencodable => story == [Unposted(true)]
  }

  /** An unfinished story decides nothing, and a story decides one outcome. */
  lemma {:induction false} FailuresDecideLast(story: seq<Try>, o: Outcome)
    requires AllFailed(story) && Decides(story, o)
    ensures o == GaveUp(3) && |story| == 3
  {
    assert story != [] ==> story[|story| - 1] == Answered(false);
  }

  lemma {:induction false} DecidesOnce(story: seq<Try>, o: Outcome, p: Outcome)
    requires Decides(story, o) && Decides(story, p)
    ensures o == p
  {
    if o.GaveUp? {
      FailuresDecideLast(story, p);
    } else if p.GaveUp? {
      FailuresDecideLast(story, o);
    }
  }

  lemma {:induction false} ToldDecides(s: State, k: nat, story: seq<Try>, o: Outcome)
    requires Told(s, k, story)
    requires if k in s.outcomes then OutcomeOk(s, k, s.outcomes[k]) else |story| < MAX_RETRIES
    ensures (k in s.outcomes && s.outcomes[k] == o) <==> Decides(story, o)
  {
    if k in s.outcomes {
      assert Decides(story, s.outcomes[k]);
      if Decides(story, o) {
        DecidesOnce(story, o, s.outcomes[k]);
      }
    } else if Decides(story, o) {
      FailuresDecideLast(story, o);
    }
  }

  /** Nothing follows a success, an end without a post, or a shutdown. */
  lemma {:induction false} OnlyFailuresGoOn(s: State, k: nat, story: seq<Try>)
    requires Told(s, k, story)
    ensures AllFailed(story[..if story == [] then 0 else |story| - 1])
  {
  }

  lemma {:induction false} ToldInHand(s: State, k: nat, story: seq<Try>, o: Outcome)
    requires Inv(s) && Told(s, k, story)
    ensures (k in s.outcomes && s.outcomes[k] == o) <==> Decides(story, o)
    ensures AllFailed(story[..if story == [] then 0 else |story| - 1])
    ensures 0 < |story| < 3 && AllFailed(story) ==> Held(s.actors, k)
  {
    if k in s.outcomes {
      assert OutcomeOk(s, k, s.outcomes[k]);
      ToldDecides(s, k, story, s.outcomes[k]);
      if AllFailed(story) {
        FailuresDecideLast(story, s.outcomes[k]);
      }
    } else {
      UnfinishedPosts(s, k);
    }
    ToldDecides(s, k, story, o);
    OnlyFailuresGoOn(s, k, story);
  }

  /**
   * What happens to a job decides its outcome and is decided by it. It is delivered at the n-th post if
   * and only if that one succeeded after n - 1 failures, given up if and only if three posts failed,
   * aborted if and only if a shutdown met it after failed posts only. Nothing follows a success, and a
   * job with one or two failed posts and nothing else is still in hand.
   */
  lemma {:induction false} StoryDecides(stops: nat, notifies: nat, run: seq<Event>, k: nat, o: Outcome)
    requires Runs(Start(stops, notifies), run)
    ensures var s := After(Start(stops, notifies), run);
            var story := Story(Start(stops, notifies), run, k);
            && ((k in s.outcomes && s.outcomes[k] == o) <==> Decides(story, o))
            && AllFailed(story[..if story == [] then 0 else |story| - 1])
            && (0 < |story| < 3 && AllFailed(story) ==> Held(s.actors, k))
  {
    StartInv(stops, notifies);
    RunKeepsInv(Start(stops, notifies), run);
    StoryOf(stops, notifies, run, k);
    ToldInHand(After(Start(stops, notifies), run), k, Story(Start(stops, notifies), run, k), o);
  }

  // ----- waiting between posts, and the two flags -----

  /** How often job k was waited for along a run before it was posted again. */
  ghost function Waits(s: State, run: seq<Event>, k: nat): nat
    requires Runs(s, run)
  {
    if run == [] then 0
    else
      var before, e := run[..|run| - 1], run[|run| - 1];
      Waits(s, before, k) + if e.Retry? && Holds(After(s, before).actors, e.a, k) then 1 else 0
  }

  /** Posts and waits alternate, the first post coming first. */
  ghost predicate Alternates(s: State, k: nat, waits: nat) {
    && waits <= s.posted[k] <= waits + 1
    && (forall a: nat | Holds(s.actors, a, k) :: s.posted[k] == waits + if s.actors[a].backingOff then 1 else 0)
    && (k >= s.taken ==> s.posted[k] == waits == 0)
  }

  lemma {:induction false} OneHolder(s: State, a: nat, b: nat, k: nat)
    requires Handed(s) && Holds(s.actors, a, k) && Holds(s.actors, b, k)
    ensures a == b
  {
  }

  /** A step of the one who holds the job. */
  lemma {:induction false} HolderAlternates(s: State, a: nat, t: State, k: nat, waits: nat, more: nat)
    requires Handed(s) && Alternates(s, k, waits) && Holds(s.actors, a, k) && |t.actors| == |s.actors|
    requires t.actors == s.actors[a := t.actors[a]] && t.taken == s.taken && k < s.taken
    requires more <= t.posted[k] <= more + 1
    requires t.actors[a].Delivering? ==> t.posted[k] == more + if t.actors[a].backingOff then 1 else 0
    ensures Alternates(t, k, more)
  {
    forall b: nat | Holds(t.actors, b, k) ensures b == a {
      if b != a {
        OneHolder(s, a, b, k);
      }
    }
  }

  lemma {:induction false} WorkAlternates(s: State, e: Event, k: nat, waits: nat)
    requires Inv(s) && Enabled(s, e) && Alternates(s, k, waits)
    requires (e.Post? || e.Encode? || e.Abort? || e.Retry?) && Holds(s.actors, e.a, k)
    ensures Alternates(Apply(s, e), k, waits + if e.Retry? then 1 else 0)
  {
    assert HandOk(s, s.actors[e.a]);
    assert s.posted[k] == waits + if s.actors[e.a].backingOff then 1 else 0;
    HolderAlternates(s, e.a, Apply(s, e), k, waits, waits + if e.Retry? then 1 else 0);
  }

  /** A step of one who does not. */
  lemma {:induction false} ElsewhereAlternates(s: State, a: nat, t: State, k: nat, waits: nat)
    requires Alternates(s, k, waits) && a < |s.actors| == |t.actors| && t.actors == s.actors[a := t.actors[a]]
    requires t.posted[k] == s.posted[k] && t.taken >= s.taken
    requires Holds(t.actors, a, k) ==> !t.actors[a].backingOff && t.posted[k] == waits
    ensures Alternates(t, k, waits)
  {
    forall b: nat | Holds(t.actors, b, k) && b != a ensures Holds(s.actors, b, k) {
    }
  }

  lemma {:induction false} OtherAlternates(s: State, e: Event, k: nat, waits: nat)
    requires Inv(s) && Enabled(s, e) && Alternates(s, k, waits)
    requires (e.Post? || e.Encode? || e.Abort? || e.Retry?) && !Holds(s.actors, e.a, k)
    ensures Alternates(Apply(s, e), k, waits)
  {
    ElsewhereAlternates(s, e.a, Apply(s, e), k, waits);
  }

  lemma {:induction false} PlaceAlternates(s: State, e: Event, k: nat, waits: nat)
    requires Inv(s) && Enabled(s, e) && Alternates(s, k, waits)
    requires !(e.Post? || e.Encode? || e.Abort? || e.Retry?)
    ensures Alternates(Apply(s, e), k, waits)
  {
    if e.Notify? || e.Check? || e.Send? || e.Cancel? {
      OutsideStep(s, e);
    } else {
      PlaceStep(s, e);
      ElsewhereAlternates(s, e.a, Apply(s, e), k, waits);
    }
  }

  /** In every run a job is posted again only after a wait, and waited for only after a failed post. */
  lemma {:induction false} PostsAlternateWithWaits(stops: nat, notifies: nat, run: seq<Event>, k: nat)
    requires Runs(Start(stops, notifies), run)
    ensures Alternates(After(Start(stops, notifies), run), k, Waits(Start(stops, notifies), run, k))
  {
    var start := Start(stops, notifies);
    if run != [] {
      var before, e := run[..|run| - 1], run[|run| - 1];
      PostsAlternateWithWaits(stops, notifies, before, k);
      StartInv(stops, notifies);
      RunKeepsInv(start, before);
      var s, waits := After(start, before), Waits(start, before, k);
      if !(e.Post? || e.Encode? || e.Abort? || e.Retry?) {
        PlaceAlternates(s, e, k, waits);
      } else if Holds(s.actors, e.a, k) {
        WorkAlternates(s, e, k, waits);
      } else {
        OtherAlternates(s, e, k, waits);
      }
    }
  }

  predicate IsStop(e: Event) { e.CallStop? }

  lemma {:induction false} StepSetsFlags(s: State, e: Event)
    requires Enabled(s, e)
    ensures Apply(s, e).stop == (s.stop || IsStop(e)) && Apply(s, e).cancelled == (s.cancelled || e == Cancel)
  {
  }

  /** The stop flag is set exactly once Stop was called, and the server is cancelled exactly once it was told to. */
  lemma {:induction false} FlagsAreSet(stops: nat, notifies: nat, run: seq<Event>)
    requires Runs(Start(stops, notifies), run)
    ensures var s := After(Start(stops, notifies), run);
            (s.stop <==> exists e <- run :: IsStop(e)) && (s.cancelled <==> Cancel in run)
  {
    if run != [] {
      var before, e := run[..|run| - 1], run[|run| - 1];
      FlagsAreSet(stops, notifies, before);
      StepSetsFlags(After(Start(stops, notifies), before), e);
      assert run == before + [e];
    }
  }

  /**
   * Until Stop is called, a job offered is accepted, counted as dropped, or still to be offered.
   * After it, jobs can also be let go without being counted.
   */
  lemma {:induction false} OfferedJobsAreCounted(stops: nat, notifies: nat, run: seq<Event>)
    requires Runs(Start(stops, notifies), run)
    ensures var s := After(Start(stops, notifies), run);
      && s.offered == |s.accepted| + s.dropped + s.lost + Pending(s.notifiers)
      && (!s.stop ==> s.lost == 0)
  {
    StartInv(stops, notifies);
    RunKeepsInv(Start(stops, notifies), run);
  }

  /**
   * When a call of Stop returns without timing out, no worker is left, and every job accepted
   * before its last look at the queue is finished or in the hands of another Stop.
   */
  lemma {:induction false} CleanStopHandsOverAll(stops: nat, notifies: nat, run: seq<Event>, a: nat, k: nat)
    requires Runs(Start(stops, notifies), run)
    requires var s := After(Start(stops, notifies), run);
      !IsWorker(a) && a < |s.actors| && s.actors[a].Drained? && k < s.actors[a].upTo
    ensures var s := After(Start(stops, notifies), run);
      WorkersGone(s.actors) && (k in s.outcomes || exists b: nat :: !IsWorker(b) && b != a && Holds(s.actors, b, k))
  {
    StartInv(stops, notifies);
    RunKeepsInv(Start(stops, notifies), run);
    var s := After(Start(stops, notifies), run);
    assert PhaseOk(s, a, s.actors[a]);
    if k !in s.outcomes {
      assert Held(s.actors, k);
      var b: nat :| Holds(s.actors, b, k);
      assert PhaseOk(s, b, s.actors[b]);
      assert !IsWorker(b) && b != a;
    }
  }

  // ----- jobs left behind -----

  predicate AtRest(p: Phase) { p.NotCalled? || p.Drained? || p.Cancelled? || p.TimedOut? }

  ghost predicate NobodyTakes(s: State) {
    forall a: nat | a < |s.actors| :: AtRest(s.actors[a])
  }

  /**
   * Once the workers and every Stop are done, jobs accepted later stay in the queue: unless Stop is
   * called again nobody takes them, and `dropped` does not count them.
   */
  lemma {:induction false} LateJobsStay(s: State, run: seq<Event>)
    requires Inv(s) && NobodyTakes(s) && s.queue == [] && Runs(s, run)
    requires forall i | 0 <= i < |run| :: !run[i].CallStop?
    ensures var t := After(s, run);
      && s.accepted <= t.accepted && t.queue == t.accepted[|s.accepted|..]
      && NobodyTakes(t)
      && t.posted == s.posted && t.outcomes == s.outcomes
  {
    RunKeepsInv(s, run);
    NobodyStarts(s, run);
  }

  lemma {:induction false} AtRestStep(s: State, e: Event)
    requires NobodyTakes(s) && Enabled(s, e) && !e.CallStop?
    ensures e.Notify? || e.Check? || e.Send? || e.Cancel?
  {
  }

  lemma {:induction false} OutsideStep(s: State, e: Event)
    requires Enabled(s, e) && (e.Notify? || e.Check? || e.Send? || e.Cancel?)
    ensures var t := Apply(s, e);
      && t.actors == s.actors && t.taken == s.taken && t.posted == s.posted && t.outcomes == s.outcomes
      && s.accepted <= t.accepted
  {
  }

  lemma {:induction false} NobodyStarts(s: State, run: seq<Event>)
    requires NobodyTakes(s) && Runs(s, run)
    requires forall i | 0 <= i < |run| :: !run[i].CallStop?
    ensures var t := After(s, run);
      && t.actors == s.actors && t.taken == s.taken && t.posted == s.posted && t.outcomes == s.outcomes
      && s.accepted <= t.accepted
  {
    if run != [] {
      NobodyStarts(s, run[..|run| - 1]);
      AtRestStep(After(s, run[..|run| - 1]), run[|run| - 1]);
      OutsideStep(After(s, run[..|run| - 1]), run[|run| - 1]);
    }
  }

  predicate Reaches(s: State, run: seq<Event>, t: State) { Runs(s, run) && After(s, run) == t }

  lemma {:induction false} OneMore(s: State, run: seq<Event>, t: State, e: Event)
    requires Reaches(s, run, t) && Enabled(t, e)
    ensures Reaches(s, run + [e], Apply(t, e))
  {
  }

  /** The eight workers, one after the other, see the stop flag and an empty queue. */
  lemma {:induction false} WorkersLeave(s: State, run: seq<Event>, t: State, n: nat)
      returns (longer: seq<Event>, u: State)
    requires Reaches(s, run, t) && t.stop && t.queue == [] && t.accepted == []
    requires n <= WORKERS <= |t.actors| && forall a | 0 <= a < WORKERS :: t.actors[a].Looping?
    ensures Reaches(s, longer, u) && u == t.(actors := u.actors) && |u.actors| == |t.actors|
    ensures forall a | 0 <= a < |t.actors| :: u.actors[a] == if a < n then Drained(0) else t.actors[a]
  {
    longer, u := run, t;
    if n > 0 {
      longer, u := WorkersLeave(s, run, t, n - 1);
      OneMore(s, longer, u, SeeStop(n - 1));
      longer, u := longer + [SeeStop(n - 1)], Apply(u, SeeStop(n - 1));
      OneMore(s, longer, u, PollEmpty(n - 1));
      longer, u := longer + [PollEmpty(n - 1)], Apply(u, PollEmpty(n - 1));
    }
  }

  /** Notify finds the stop flag open, Stop is called, and the workers leave. */
  lemma {:induction false} StopOvertakesNotify(job: Job) returns (run: seq<Event>, t: State)
    ensures Reaches(Start(1, 1), run, t) && t == Start(1, 1).(
      stop := true, offered := 1, notifiers := [Notifier([job], true)], actors := t.actors)
    ensures |t.actors| == WORKERS + 1 && WorkersGone(t.actors) && t.actors[WORKERS] == Waiting
  {
    var s := Start(1, 1);
    run, t := [], s;
    OneMore(s, run, t, Notify(0, [job]));
    run, t := run + [Notify(0, [job])], Apply(t, Notify(0, [job]));
    OneMore(s, run, t, Check(0));
    run, t := run + [Check(0)], Apply(t, Check(0));
    OneMore(s, run, t, CallStop(WORKERS));
    run, t := run + [CallStop(WORKERS)], Apply(t, CallStop(WORKERS));
    run, t := WorkersLeave(s, run, t, WORKERS);
  }

  /**
   * A job can be accepted after a clean Stop's last look at the queue. It is then left in the
   * queue and counted nowhere.
   */
  lemma {:induction false} StopCanMissAJob(job: Job) returns (run: seq<Event>, t: State)
    ensures Reaches(Start(1, 1), run, t) && NobodyTakes(t)
    ensures |t.actors| == WORKERS + 1 && t.actors[WORKERS] == Drained(0)
    ensures t.queue == [job] && t.dropped == 0 && t.lost == 0
  {
    var s := Start(1, 1);
    run, t := StopOvertakesNotify(job);
    OneMore(s, run, t, Sweep(WORKERS));
    run, t := run + [Sweep(WORKERS)], Apply(t, Sweep(WORKERS));
    OneMore(s, run, t, PollEmpty(WORKERS));
    run, t := run + [PollEmpty(WORKERS)], Apply(t, PollEmpty(WORKERS));
    OneMore(s, run, t, Send(0));
    run, t := run + [Send(0)], Apply(t, Send(0));
  }

  // ----- offers after Stop -----

  /** How many jobs of a Notify under way can still be accepted or counted once the stop flag is set. */
  function Due(n: Notifier): nat {
    if n.rest == [] then 0 else if n.checked && |n.rest| > 1 then 2 else 1
  }

  function AllDue(ns: seq<Notifier>): nat {
    if ns == [] then 0 else AllDue(ns[..|ns| - 1]) + Due(ns[|ns| - 1])
  }

  lemma {:induction false} DueUpdate(ns: seq<Notifier>, n: nat, x: Notifier)
    requires n < |ns|
    ensures AllDue(ns[n := x]) == AllDue(ns) - Due(ns[n]) + Due(x)
  {
    var last := |ns| - 1;
    if n < last {
      assert ns[n := x][..last] == ns[..last][n := x];
      DueUpdate(ns[..last], n, x);
    } else {
      assert ns[n := x][..last] == ns[..last];
    }
  }

  function Tallied(s: State): nat {
    s.dropped + |s.accepted| + AllDue(s.notifiers)
  }

  lemma {:induction false} StepAfterStop(s: State, e: Event)
    requires s.stop && Enabled(s, e)
    ensures Apply(s, e).stop && Tallied(Apply(s, e)) == Tallied(s)
  {
    match e
    case Check(n) => DueUpdate(s.notifiers, n, Notifier([], false));
    case Send(n) => DueUpdate(s.notifiers, n, Notifier(s.notifiers[n].rest[1..], false));
    case _ =>
  }

  /**
   * From Stop on, only the calls of Notify then under way still add to what is accepted or counted as
   * dropped, each at most two jobs; however many more are offered, they are lost uncounted.
   */
  lemma {:induction false} LateNotifyIsNotCounted(s: State, run: seq<Event>)
    requires s.stop && Runs(s, run)
    ensures var t := After(s, run);
      t.stop && t.dropped + |t.accepted| + AllDue(t.notifiers) == s.dropped + |s.accepted| + AllDue(s.notifiers)
  {
    if run != [] {
      LateNotifyIsNotCounted(s, run[..|run| - 1]);
      StepAfterStop(After(s, run[..|run| - 1]), run[|run| - 1]);
    }
  }
}
