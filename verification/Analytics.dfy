/**
 * The two-step analytics query over tables of rows: join and aggregate per group, then one lookup per
 * group for a run that attains the aggregate.
 */
module Analytics {
  import opened Wrappers

  datatype Lifecycle = Active | Deleted

  datatype Metric = Metric(run: string, key: string, value: real)

  datatype Run = Run(id: string, name: string, experiment: int, lifecycle: Lifecycle, status: string, start: int)

  datatype Experiment = Experiment(id: int, workspace: string)

  /** A row of params or tags. */
  datatype Pair = Pair(run: string, key: string, value: string)

  datatype Db = Db(latest: seq<Metric>, runs: seq<Run>, experiments: seq<Experiment>, params: seq<Pair>,
                   tags: seq<Pair>)

  ghost predicate PairKeys(t: seq<Pair>) {
    forall i, j | 0 <= i < j < |t| :: t[i].run != t[j].run || t[i].key != t[j].key
  }

  ghost predicate MetricKeys(t: seq<Metric>) {
    forall i, j | 0 <= i < j < |t| :: t[i].run != t[j].run || t[i].key != t[j].key
  }

  ghost predicate RunKeys(t: seq<Run>) {
    forall i, j | 0 <= i < j < |t| :: t[i].id != t[j].id
  }

  ghost predicate ExperimentKeys(t: seq<Experiment>) {
    forall i, j | 0 <= i < j < |t| :: t[i].id != t[j].id
  }

  /** The primary keys of the schema. */
  ghost predicate PrimaryKeys(db: Db) {
    && MetricKeys(db.latest) && RunKeys(db.runs) && ExperimentKeys(db.experiments)
    && PairKeys(db.params) && PairKeys(db.tags)
  }

  datatype Agg = Max | Min | Avg

  datatype GroupBy = NoGroup | ByExperiment | ByStatus | ByParam(key: string) | ByTag(key: string)

  /** The value of the group column; a param or tag that is missing is not the empty string. */
  datatype Group = Whole | OfExperiment(id: int) | OfStatus(status: string) | OfText(value: Option<string>)

  datatype Query = Query(
    metric: string,
    agg: Agg,
    groupBy: GroupBy,
    workspace: string,
    experiments: seq<int>,
    timeAfter: int,
    lifecycle: Option<Lifecycle>,
    statuses: seq<string>,
    min: Option<real>,
    max: Option<real>,
    limit: nat)

  // ----- the join -----

  /** A joined row; `text` is the param or tag value, if there is one. */
  datatype Tuple = Tuple(m: Metric, r: Run, e: Experiment, text: Option<string>)

  function PairsOf(t: seq<Pair>, run: string, key: string): seq<Option<string>> {
    if t == [] then []
    else
      var rest, last := PairsOf(t[..|t| - 1], run, key), t[|t| - 1];
      if last.run == run && last.key == key then rest + [Some(last.value)] else rest
  }

  /** LEFT JOIN: every matching row, or one missing value. */
  function LeftJoin(t: seq<Pair>, run: string, key: string): seq<Option<string>> {
    var found := PairsOf(t, run, key);
    if found == [] then [None] else found
  }

  function Texts(db: Db, q: Query, run: string): seq<Option<string>> {
    match q.groupBy
    case ByParam(k) => LeftJoin(db.params, run, k)
    case ByTag(k) => LeftJoin(db.tags, run, k)
    case _ => [None]
  }

  function WithTexts(m: Metric, r: Run, e: Experiment, texts: seq<Option<string>>): seq<Tuple> {
    if texts == [] then [] else WithTexts(m, r, e, texts[..|texts| - 1]) + [Tuple(m, r, e, texts[|texts| - 1])]
  }

  function WithExperiments(m: Metric, r: Run, es: seq<Experiment>, texts: seq<Option<string>>): seq<Tuple> {
    if es == [] then []
    else
      var rest, last := WithExperiments(m, r, es[..|es| - 1], texts), es[|es| - 1];
      if last.id == r.experiment then rest + WithTexts(m, r, last, texts) else rest
  }

  function WithRuns(db: Db, q: Query, m: Metric, rs: seq<Run>): seq<Tuple> {
    if rs == [] then []
    else
      var rest, last := WithRuns(db, q, m, rs[..|rs| - 1]), rs[|rs| - 1];
      if last.id == m.run then rest + WithExperiments(m, last, db.experiments, Texts(db, q, last.id)) else rest
  }

  /** metrics_latest JOIN runs JOIN experiments LEFT JOIN params or tags. */
  function Join(db: Db, q: Query, ms: seq<Metric>): seq<Tuple> {
    if ms == [] then [] else Join(db, q, ms[..|ms| - 1]) + WithRuns(db, q, ms[|ms| - 1], db.runs)
  }

  // ----- the filters -----

  /** The conditions both steps share. */
  predicate Passes(q: Query, t: Tuple) {
    && t.m.key == q.metric && t.e.workspace == q.workspace
    && (q.lifecycle.Some? ==> t.r.lifecycle == q.lifecycle.value)
    && (q.experiments != [] ==> t.r.experiment in q.experiments)
    && (q.timeAfter > 0 ==> t.r.start >= q.timeAfter)
    && (q.statuses != [] ==> t.r.status in q.statuses)
  }

  predicate InBounds(q: Query, v: real) {
    (q.min.Some? ==> v >= q.min.value) && (q.max.Some? ==> v <= q.max.value)
  }

  predicate Matches(q: Query, t: Tuple) {
    Passes(q, t) && InBounds(q, t.m.value)
  }

  function GroupOf(q: Query, t: Tuple): Group {
    match q.groupBy
    case NoGroup => Whole
    case ByExperiment => OfExperiment(t.r.experiment)
    case ByStatus => OfStatus(t.r.status)
    case ByParam(_) => OfText(t.text)
    case ByTag(_) => OfText(t.text)
  }

  /** The joined rows of a group that match. */
  function Selected(q: Query, ts: seq<Tuple>, g: Group): seq<Tuple> {
    if ts == [] then []
    else
      var rest, last := Selected(q, ts[..|ts| - 1], g), ts[|ts| - 1];
      if Matches(q, last) && GroupOf(q, last) == g then rest + [last] else rest
  }

  // ----- the join, by key lookups -----

  function FindRun(rs: seq<Run>, id: string): (r: Option<Run>)
    ensures r.Some? ==> r.value in rs && r.value.id == id
    ensures r.None? ==> forall x <- rs :: x.id != id
  {
    if rs == [] then None
    else if rs[|rs| - 1].id == id then Some(rs[|rs| - 1])
    else FindRun(rs[..|rs| - 1], id)
  }

  function FindExperiment(es: seq<Experiment>, id: int): (e: Option<Experiment>)
    ensures e.Some? ==> e.value in es && e.value.id == id
    ensures e.None? ==> forall x <- es :: x.id != id
  {
    if es == [] then None
    else if es[|es| - 1].id == id then Some(es[|es| - 1])
    else FindExperiment(es[..|es| - 1], id)
  }

  function FindPair(t: seq<Pair>, run: string, key: string): Option<string> {
    if t == [] then None
    else if t[|t| - 1].run == run && t[|t| - 1].key == key then Some(t[|t| - 1].value)
    else FindPair(t[..|t| - 1], run, key)
  }

  function TextOf(db: Db, q: Query, run: string): Option<string> {
    match q.groupBy
    case ByParam(k) => FindPair(db.params, run, k)
    case ByTag(k) => FindPair(db.tags, run, k)
    case _ => None
  }

  /** The one joined row of a metric row, if its run and experiment exist. */
  function TupleOf(db: Db, q: Query, m: Metric): Option<Tuple> {
    var r := FindRun(db.runs, m.run);
    if r.None? then None
    else
      var e := FindExperiment(db.experiments, r.value.experiment);
      if e.None? then None else Some(Tuple(m, r.value, e.value, TextOf(db, q, m.run)))
  }

  function AsSeq<T>(x: Option<T>): seq<T> {
    if x.None? then [] else [x.value]
  }

  lemma {:induction false} PairsAreOne(t: seq<Pair>, run: string, key: string)
    requires PairKeys(t)
    ensures PairsOf(t, run, key) == if FindPair(t, run, key).None? then [] else [FindPair(t, run, key)]
    ensures FindPair(t, run, key).None? ==> forall x <- t :: x.run != run || x.key != key
  {
    if t != [] {
      var rest, last := t[..|t| - 1], t[|t| - 1];
      PairsAreOne(rest, run, key);
      assert t == rest + [last];
      if last.run == run && last.key == key {
        NoPair(rest, run, key);
      }
    }
  }

  lemma {:induction false} NoPair(t: seq<Pair>, run: string, key: string)
    requires forall x <- t :: x.run != run || x.key != key
    ensures PairsOf(t, run, key) == []
  {
    if t != [] {
      assert t[|t| - 1] in t;
      NoPair(t[..|t| - 1], run, key);
    }
  }

  lemma {:induction false} TextsAreOne(db: Db, q: Query, run: string)
    requires PrimaryKeys(db)
    ensures Texts(db, q, run) == [TextOf(db, q, run)]
  {
    match q.groupBy
    case ByParam(k) => PairsAreOne(db.params, run, k);
    case ByTag(k) => PairsAreOne(db.tags, run, k);
    case _ =>
  }

  lemma {:induction false} NoExperiment(m: Metric, r: Run, es: seq<Experiment>, texts: seq<Option<string>>)
    requires forall x <- es :: x.id != r.experiment
    ensures WithExperiments(m, r, es, texts) == []
  {
    if es != [] {
      assert es[|es| - 1] in es;
      NoExperiment(m, r, es[..|es| - 1], texts);
    }
  }

  lemma {:induction false} OneExperiment(m: Metric, r: Run, es: seq<Experiment>, text: Option<string>)
    requires ExperimentKeys(es)
    ensures var e := FindExperiment(es, r.experiment);
      WithExperiments(m, r, es, [text]) == if e.None? then [] else [Tuple(m, r, e.value, text)]
  {
    if es != [] {
      var rest, last := es[..|es| - 1], es[|es| - 1];
      if last.id == r.experiment {
        NoExperiment(m, r, rest, [text]);
        assert [text][..0] == [];
        assert WithTexts(m, r, last, [text]) == [Tuple(m, r, last, text)];
      } else {
        OneExperiment(m, r, rest, text);
      }
    }
  }

  lemma {:induction false} NoRun(db: Db, q: Query, m: Metric, rs: seq<Run>)
    requires forall x <- rs :: x.id != m.run
    ensures WithRuns(db, q, m, rs) == []
  {
    if rs != [] {
      assert rs[|rs| - 1] in rs;
      NoRun(db, q, m, rs[..|rs| - 1]);
    }
  }

  lemma {:induction false} OneRun(db: Db, q: Query, m: Metric, rs: seq<Run>)
    requires PrimaryKeys(db) && RunKeys(rs)
    ensures var r := FindRun(rs, m.run);
      WithRuns(db, q, m, rs) == if r.None? then [] else WithExperiments(m, r.value, db.experiments, Texts(db, q, m.run))
  {
    if rs != [] {
      var rest, last := rs[..|rs| - 1], rs[|rs| - 1];
      if last.id == m.run {
        NoRun(db, q, m, rest);
      } else {
        OneRun(db, q, m, rest);
      }
    }
  }

  /** The primary keys keep the join from multiplying rows: a metric row has one joined row, or none. */
  lemma {:induction false} JoinIsLookup(db: Db, q: Query, m: Metric)
    requires PrimaryKeys(db)
    ensures WithRuns(db, q, m, db.runs) == AsSeq(TupleOf(db, q, m))
  {
    OneRun(db, q, m, db.runs);
    TextsAreOne(db, q, m.run);
    var r := FindRun(db.runs, m.run);
    if r.Some? {
      OneExperiment(m, r.value, db.experiments, TextOf(db, q, m.run));
    }
  }

  // ----- the runs of a group -----

  /** The metric row puts its run in the group: found by keys, past every filter. */
  predicate Belongs(db: Db, q: Query, g: Group, m: Metric) {
    var t := TupleOf(db, q, m);
    t.Some? && Matches(q, t.value) && GroupOf(q, t.value) == g
  }

  /** The value of a parameter or tag of a run, read off the table. */
  ghost predicate HasText(t: seq<Pair>, run: string, key: string, value: Option<string>) {
    match value
    case Some(x) => Pair(run, key, x) in t
    case None => forall x :: Pair(run, key, x) !in t
  }

  /** What the group column of a run says, read off the tables. */
  ghost predicate InGroup(db: Db, q: Query, g: Group, r: Run) {
    match q.groupBy
    case NoGroup => g == Whole
    case ByExperiment => g == OfExperiment(r.experiment)
    case ByStatus => g == OfStatus(r.status)
    case ByParam(key) => g.OfText? && HasText(db.params, r.id, key, g.value)
    case ByTag(key) => g.OfText? && HasText(db.tags, r.id, key, g.value)
  }

  /** The run and experiment of a metric row, and every filter of the query on their columns. */
  ghost predicate PutBy(db: Db, q: Query, g: Group, m: Metric, r: Run, e: Experiment) {
    && r in db.runs && r.id == m.run && e in db.experiments && e.id == r.experiment
    && e.workspace == q.workspace && m.key == q.metric
    && (q.lifecycle.None? || q.lifecycle == Some(r.lifecycle))
    && (q.experiments == [] || r.experiment in q.experiments)
    && (q.timeAfter <= 0 || q.timeAfter <= r.start)
    && (q.statuses == [] || r.status in q.statuses)
    && (q.min.None? || q.min.value <= m.value) && (q.max.None? || m.value <= q.max.value)
    && InGroup(db, q, g, r)
  }

  lemma {:induction false} RunIsFound(rs: seq<Run>, r: Run)
    requires RunKeys(rs) && r in rs
    ensures FindRun(rs, r.id) == Some(r)
  {
  }

  lemma {:induction false} ExperimentIsFound(es: seq<Experiment>, e: Experiment)
    requires ExperimentKeys(es) && e in es
    ensures FindExperiment(es, e.id) == Some(e)
  {
  }

  lemma {:induction false} PairIsFound(t: seq<Pair>, run: string, key: string, value: Option<string>)
    requires PairKeys(t)
    ensures HasText(t, run, key, value) <==> FindPair(t, run, key) == value
  {
    if t != [] {
      var rest, last := t[..|t| - 1], t[|t| - 1];
      assert t == rest + [last];
      PairIsFound(rest, run, key, value);
    }
  }

  /** A metric row puts its run in a group exactly when the tables hold its run and experiment and all filters pass. */
  lemma {:induction false} BelongsOnTables(db: Db, q: Query, g: Group, m: Metric)
    requires PrimaryKeys(db)
    ensures Belongs(db, q, g, m) <==> exists r, e :: PutBy(db, q, g, m, r, e)
  {
    if r, e :| PutBy(db, q, g, m, r, e) {
      RunIsFound(db.runs, r);
      ExperimentIsFound(db.experiments, e);
      GroupOnTables(db, q, g, r);
    }
    if Belongs(db, q, g, m) {
      var t := TupleOf(db, q, m).value;
      GroupOnTables(db, q, g, t.r);
      assert PutBy(db, q, g, m, t.r, t.e);
    }
  }

  lemma {:induction false} GroupOnTables(db: Db, q: Query, g: Group, r: Run)
    requires PrimaryKeys(db)
    ensures InGroup(db, q, g, r) <==>
            match q.groupBy
            case NoGroup => g == Whole
            case ByExperiment => g == OfExperiment(r.experiment)
            case ByStatus => g == OfStatus(r.status)
            case _ => g == OfText(TextOf(db, q, r.id))
  {
    if g.OfText? {
      match q.groupBy
      case ByParam(key) => PairIsFound(db.params, r.id, key, g.value);
      case ByTag(key) => PairIsFound(db.tags, r.id, key, g.value);
      case _ =>
    }
  }

  function MembersIn(db: Db, q: Query, g: Group, ms: seq<Metric>): set<string> {
    set m | m in ms && Belongs(db, q, g, m) :: m.run
  }

  /** The runs a group is about. */
  function Members(db: Db, q: Query, g: Group): set<string> {
    MembersIn(db, q, g, db.latest)
  }

  function AllIn(db: Db, q: Query, ms: seq<Metric>): set<string> {
    set m | m in ms && TupleOf(db, q, m).Some? && Matches(q, TupleOf(db, q, m).value) :: m.run
  }

  /** The runs the query is about. */
  function Matching(db: Db, q: Query): set<string> {
    AllIn(db, q, db.latest)
  }

  function Rows(db: Db, q: Query, g: Group): seq<Tuple> {
    Selected(q, Join(db, q, db.latest), g)
  }

  lemma {:induction false} SelectedPush(q: Query, ts: seq<Tuple>, t: Tuple, g: Group)
    ensures Selected(q, ts + [t], g)
         == if Matches(q, t) && GroupOf(q, t) == g then Selected(q, ts, g) + [t] else Selected(q, ts, g)
  {
    assert (ts + [t])[..|ts|] == ts;
  }

  lemma {:induction false} JoinPush(db: Db, q: Query, ms: seq<Metric>, g: Group)
    requires PrimaryKeys(db) && ms != []
    ensures var rest, m := ms[..|ms| - 1], ms[|ms| - 1];
      Selected(q, Join(db, q, ms), g)
        == if Belongs(db, q, g, m) then Selected(q, Join(db, q, rest), g) + [TupleOf(db, q, m).value]
           else Selected(q, Join(db, q, rest), g)
  {
    var rest, m := ms[..|ms| - 1], ms[|ms| - 1];
    JoinIsLookup(db, q, m);
    var t := TupleOf(db, q, m);
    if t.None? {
      assert Join(db, q, ms) == Join(db, q, rest);
    } else {
      SelectedPush(q, Join(db, q, rest), t.value, g);
    }
  }

  /** The selected rows of a group are those of the metric rows that belong to it. */
  lemma {:induction false} SelectedBelong(db: Db, q: Query, g: Group, ms: seq<Metric>, t: Tuple)
    requires PrimaryKeys(db)
    ensures t in Selected(q, Join(db, q, ms), g) <==>
            t.m in ms && TupleOf(db, q, t.m) == Some(t) && Belongs(db, q, g, t.m)
  {
    if ms != [] {
      var rest, m := ms[..|ms| - 1], ms[|ms| - 1];
      assert ms == rest + [m];
      SelectedBelong(db, q, g, rest, t);
      JoinPush(db, q, ms, g);
    }
  }

  lemma {:induction false} MembersPush(db: Db, q: Query, g: Group, ms: seq<Metric>)
    requires MetricKeys(ms) && ms != []
    ensures var rest, m := ms[..|ms| - 1], ms[|ms| - 1];
      && MembersIn(db, q, g, ms) == MembersIn(db, q, g, rest) + (if Belongs(db, q, g, m) then {m.run} else {})
      && (Belongs(db, q, g, m) ==> m.run !in MembersIn(db, q, g, rest))
  {
    var rest, m := ms[..|ms| - 1], ms[|ms| - 1];
    assert ms == rest + [m];
    forall x | x in rest && Belongs(db, q, g, x) && Belongs(db, q, g, m) ensures x.run != m.run {
      var i :| 0 <= i < |rest| && rest[i] == x;
      assert ms[i] == x;
    }
  }

  /** Counting joined rows counts distinct runs. */
  lemma {:induction false} CountsDistinctRuns(db: Db, q: Query, g: Group, ms: seq<Metric>)
    requires PrimaryKeys(db) && MetricKeys(ms)
    ensures |Selected(q, Join(db, q, ms), g)| == |MembersIn(db, q, g, ms)|
  {
    if ms != [] {
      CountsDistinctRuns(db, q, g, ms[..|ms| - 1]);
      JoinPush(db, q, ms, g);
      MembersPush(db, q, g, ms);
    }
  }

  function SumOf(ts: seq<Tuple>): real {
    if ts == [] then 0.0 else SumOf(ts[..|ts| - 1]) + ts[|ts| - 1].m.value
  }

  /** The sum over the metric rows that belong to a group. */
  function SumBelonging(db: Db, q: Query, g: Group, ms: seq<Metric>): real {
    if ms == [] then 0.0
    else
      var rest, m := SumBelonging(db, q, g, ms[..|ms| - 1]), ms[|ms| - 1];
      if Belongs(db, q, g, m) then rest + m.value else rest
  }

  lemma {:induction false} SumPush(ts: seq<Tuple>, t: Tuple)
    ensures SumOf(ts + [t]) == SumOf(ts) + t.m.value
  {
    assert (ts + [t])[..|ts|] == ts;
  }

  lemma {:induction false} SumsAgree(db: Db, q: Query, g: Group, ms: seq<Metric>)
    requires PrimaryKeys(db)
    ensures SumOf(Selected(q, Join(db, q, ms), g)) == SumBelonging(db, q, g, ms)
  {
    if ms != [] {
      var rest, m := ms[..|ms| - 1], ms[|ms| - 1];
      SumsAgree(db, q, g, rest);
      JoinPush(db, q, ms, g);
      if Belongs(db, q, g, m) {
        SumPush(Selected(q, Join(db, q, rest), g), TupleOf(db, q, m).value);
      }
    }
  }

  // ----- the first step: aggregate per group -----

  datatype Acc = Acc(count: nat, sum: real, max: real, min: real)

  ghost predicate Summarises(a: Acc, ts: seq<Tuple>) {
    && a.count == |ts| > 0 && a.sum == SumOf(ts)
    && (forall t <- ts :: a.min <= t.m.value <= a.max)
    && (exists t :: t in ts && t.m.value == a.max) && (exists t :: t in ts && t.m.value == a.min)
  }

  function Added(acc: map<Group, Acc>, g: Group, v: real): map<Group, Acc> {
    if g !in acc then acc[g := Acc(1, v, v, v)]
    else
      var a := acc[g];
      acc[g := Acc(a.count + 1, a.sum + v, if v > a.max then v else a.max, if v < a.min then v else a.min)]
  }

  ghost predicate Accumulates(q: Query, ts: seq<Tuple>, acc: map<Group, Acc>) {
    forall g: Group :: AccumulatesAt(q, ts, acc, g)
  }

  lemma {:induction false} SummariesGrow(a: Acc, ts: seq<Tuple>, t: Tuple)
    requires Summarises(a, ts)
    ensures var v := t.m.value;
      Summarises(Acc(a.count + 1, a.sum + v, if v > a.max then v else a.max, if v < a.min then v else a.min), ts + [t])
  {
    SumPush(ts, t);
    var hi :| hi in ts && hi.m.value == a.max;
    var lo :| lo in ts && lo.m.value == a.min;
    assert hi in ts + [t] && lo in ts + [t] && t in ts + [t];
  }

  ghost predicate AccumulatesAt(q: Query, ts: seq<Tuple>, acc: map<Group, Acc>, g: Group) {
    (g in acc <==> Selected(q, ts, g) != []) && (g in acc ==> Summarises(acc[g], Selected(q, ts, g)))
  }

  function AddedIf(q: Query, acc: map<Group, Acc>, t: Tuple): map<Group, Acc> {
    if Matches(q, t) then Added(acc, GroupOf(q, t), t.m.value) else acc
  }

  lemma {:induction false} AddAccumulates(q: Query, ts: seq<Tuple>, t: Tuple, acc: map<Group, Acc>)
    requires Accumulates(q, ts, acc)
    ensures Accumulates(q, ts + [t], AddedIf(q, acc, t))
  {
    var longer, next := ts + [t], AddedIf(q, acc, t);
    forall g: Group ensures AccumulatesAt(q, longer, next, g) {
      assert AccumulatesAt(q, ts, acc, g);
      AddAt(q, ts, t, acc, g);
    }
  }

  lemma {:induction false} AddAt(q: Query, ts: seq<Tuple>, t: Tuple, acc: map<Group, Acc>, g: Group)
    requires AccumulatesAt(q, ts, acc, g)
    ensures AccumulatesAt(q, ts + [t], AddedIf(q, acc, t), g)
  {
    SelectedPush(q, ts, t, g);
    if Matches(q, t) && GroupOf(q, t) == g {
      if g in acc {
        SummariesGrow(acc[g], Selected(q, ts, g), t);
      } else {
        FirstSummary(t);
        assert Selected(q, ts, g) + [t] == [t];
      }
    }
  }

  lemma {:induction false} FirstSummary(t: Tuple)
    ensures Summarises(Acc(1, t.m.value, t.m.value, t.m.value), [t])
  {
    SumPush([], t);
    assert [] + [t] == [t] && t in [t];
  }

  /** GROUP BY: one accumulator for each group that has a matching row. */
  method Aggregate(q: Query, ts: seq<Tuple>) returns (acc: map<Group, Acc>)
    ensures Accumulates(q, ts, acc)
  {
    acc := map[];
    for i := 0 to |ts|
      invariant Accumulates(q, ts[..i], acc)
    {
      assert ts[..i + 1] == ts[..i] + [ts[i]];
      AddAccumulates(q, ts[..i], ts[i], acc);
      acc := AddedIf(q, acc, ts[i]);
    }
    assert ts[..|ts|] == ts;
  }

  function Value(agg: Agg, a: Acc): real
    requires a.count > 0
  {
    match agg
    case Max => a.max
    case Min => a.min
    case Avg => a.sum / a.count as real
  }

  /** A row of the aggregate query; without groups and without matches its value is missing. */
  datatype Raw = Raw(group: Group, value: Option<real>, count: nat)

  ghost predicate Attained(db: Db, q: Query, g: Group, v: real) {
    exists m :: m in db.latest && Belongs(db, q, g, m) && m.value == v
  }

  ghost predicate IsMean(v: real, sum: real, count: nat) {
    v * count as real == sum
  }

  /** The maximum, the minimum or the mean over the runs of a group. */
  ghost predicate IsAggregate(db: Db, q: Query, g: Group, v: real) {
    match q.agg
    case Max => Attained(db, q, g, v) && forall m | m in db.latest && Belongs(db, q, g, m) :: m.value <= v
    case Min => Attained(db, q, g, v) && forall m | m in db.latest && Belongs(db, q, g, m) :: m.value >= v
    case Avg => Members(db, q, g) != {} && IsMean(v, SumBelonging(db, q, g, db.latest), |Members(db, q, g)|)
  }

  ghost predicate Listed(raw: seq<Raw>, g: Group) {
    exists i :: 0 <= i < |raw| && raw[i].group == g
  }

  ghost predicate RawOk(db: Db, q: Query, r: Raw) {
    && r.count == |Members(db, q, r.group)|
    && (r.value.Some? ==> IsAggregate(db, q, r.group, r.value.value))
    && (r.value.None? ==> Members(db, q, r.group) == {})
  }

  /** The answer of the aggregate query, in some order, cut at the limit. */
  ghost predicate IsAnswer(db: Db, q: Query, limit: nat, raw: seq<Raw>) {
    && |raw| <= limit
    && (forall i, j | 0 <= i < j < |raw| :: raw[i].group != raw[j].group)
    && (forall i | 0 <= i < |raw| :: RawOk(db, q, raw[i]))
    && (|raw| < limit ==> forall g: Group | Members(db, q, g) != {} :: Listed(raw, g))
  }

  lemma {:induction false} AccBounds(db: Db, q: Query, g: Group, a: Acc)
    requires PrimaryKeys(db) && Summarises(a, Rows(db, q, g))
    ensures Attained(db, q, g, a.max) && Attained(db, q, g, a.min)
    ensures forall m | m in db.latest && Belongs(db, q, g, m) :: a.min <= m.value <= a.max
  {
    forall m | m in db.latest && Belongs(db, q, g, m) ensures a.min <= m.value <= a.max {
      SelectedBelong(db, q, g, db.latest, TupleOf(db, q, m).value);
    }
    var hi :| hi in Rows(db, q, g) && hi.m.value == a.max;
    var lo :| lo in Rows(db, q, g) && lo.m.value == a.min;
    SelectedBelong(db, q, g, db.latest, hi);
    SelectedBelong(db, q, g, db.latest, lo);
  }

  lemma {:induction false} AccIsMean(db: Db, q: Query, g: Group, a: Acc)
    requires PrimaryKeys(db) && Summarises(a, Rows(db, q, g))
    ensures a.count == |Members(db, q, g)| && a.sum == SumBelonging(db, q, g, db.latest)
  {
    CountsDistinctRuns(db, q, g, db.latest);
    SumsAgree(db, q, g, db.latest);
  }

  /** What an accumulator holds is the aggregate over the runs of its group. */
  lemma {:induction false} AccIsAggregate(db: Db, q: Query, g: Group, a: Acc)
    requires PrimaryKeys(db) && Summarises(a, Rows(db, q, g))
    ensures a.count == |Members(db, q, g)| && IsAggregate(db, q, g, Value(q.agg, a))
  {
    AccIsMean(db, q, g, a);
    match q.agg
    case Max => AccBounds(db, q, g, a);
    case Min => AccBounds(db, q, g, a);
    case Avg => MeanTimesCount(a.sum, a.count);
  }

  lemma {:induction false} MeanTimesCount(sum: real, count: nat)
    requires count > 0
    ensures IsMean(sum / count as real, sum, count)
  {
  }

  lemma {:induction false} NoRows(db: Db, q: Query, g: Group)
    requires PrimaryKeys(db)
    ensures Rows(db, q, g) == [] <==> Members(db, q, g) == {}
  {
    CountsDistinctRuns(db, q, g, db.latest);
  }

  /** One row a group, in whatever order the groups come; the groups still to be listed are in `rest`. */
  method ListGroups(db: Db, q: Query, acc: map<Group, Acc>) returns (raw: seq<Raw>)
    requires PrimaryKeys(db) && Accumulates(q, Join(db, q, db.latest), acc)
    ensures forall i, j | 0 <= i < j < |raw| :: raw[i].group != raw[j].group
    ensures forall i | 0 <= i < |raw| :: RawOk(db, q, raw[i])
    ensures forall g: Group | Members(db, q, g) != {} :: Listed(raw, g)
  {
    raw := [];
    var rest := acc.Keys;
    while rest != {}
      invariant rest <= acc.Keys
      invariant forall i | 0 <= i < |raw| :: raw[i].group in acc.Keys - rest && RawOk(db, q, raw[i])
      invariant forall i, j | 0 <= i < j < |raw| :: raw[i].group != raw[j].group
      invariant forall g | g in acc.Keys - rest :: Listed(raw, g)
      decreases rest
    {
      var g :| g in rest;
      assert AccumulatesAt(q, Join(db, q, db.latest), acc, g);
      AccIsAggregate(db, q, g, acc[g]);
      ghost var before := raw;
      raw := raw + [Raw(g, Some(Value(q.agg, acc[g])), acc[g].count)];
      forall h | h in acc.Keys - (rest - {g}) ensures Listed(raw, h) {
        ListedPush(before, raw[|before|], h);
      }
      rest := rest - {g};
    }
    GroupsWithRuns(db, q, acc);
    if q.groupBy == NoGroup && acc == map[] {
      raw := [Raw(Whole, None, 0)];
    }
  }

  lemma {:induction false} GroupsWithRuns(db: Db, q: Query, acc: map<Group, Acc>)
    requires PrimaryKeys(db) && Accumulates(q, Join(db, q, db.latest), acc)
    ensures forall g: Group :: g in acc <==> Members(db, q, g) != {}
  {
    forall g: Group ensures g in acc <==> Members(db, q, g) != {} {
      NoRows(db, q, g);
      assert AccumulatesAt(q, Join(db, q, db.latest), acc, g);
    }
  }

  lemma {:induction false} ListedPush(raw: seq<Raw>, r: Raw, g: Group)
    ensures Listed(raw + [r], g) <==> Listed(raw, g) || r.group == g
  {
    var longer := raw + [r];
    if Listed(raw, g) {
      var i :| 0 <= i < |raw| && raw[i].group == g;
      assert longer[i].group == g;
    }
    if r.group == g {
      assert longer[|raw|].group == g;
    }
  }

  /** The first step: join, filter, group, cut at the limit. */
  method RunAggregateQuery(db: Db, q: Query, limit: nat) returns (raw: seq<Raw>)
    requires PrimaryKeys(db)
    ensures IsAnswer(db, q, limit, raw)
  {
    var acc := Aggregate(q, Join(db, q, db.latest));
    raw := ListGroups(db, q, acc);
    if |raw| > limit {
      raw := raw[..limit];
    }
  }

  // ----- reading the answer -----

  datatype Best = Best(run: string, name: string, experiment: int)

  datatype Row = Row(group: Group, value: real, runCount: nat, best: Option<Best>)

  /** The rows that have a value, and how many runs they count. */
  method ScanRows(raw: seq<Raw>) returns (rows: seq<Row>, total: nat)
    ensures rows == Valued(raw) && total == Counted(raw)
  {
    rows, total := [], 0;
    for i := 0 to |raw|
      invariant rows == Valued(raw[..i]) && total == Counted(raw[..i])
    {
      assert raw[..i + 1][..i] == raw[..i];
      if raw[i].value.Some? {
        total := total + raw[i].count;
        rows := rows + [Row(raw[i].group, raw[i].value.value, raw[i].count, None)];
      }
    }
    assert raw[..|raw|] == raw;
  }

  function Valued(raw: seq<Raw>): seq<Row> {
    if raw == [] then []
    else
      var rest, r := Valued(raw[..|raw| - 1]), raw[|raw| - 1];
      if r.value.Some? then rest + [Row(r.group, r.value.value, r.count, None)] else rest
  }

  function Counted(raw: seq<Raw>): nat {
    if raw == [] then 0
    else
      var rest, r := Counted(raw[..|raw| - 1]), raw[|raw| - 1];
      if r.value.Some? then rest + r.count else rest
  }

  lemma {:induction false} ValuedRow(db: Db, q: Query, raw: seq<Raw>, i: nat)
    requires i < |Valued(raw)| && forall j | 0 <= j < |raw| :: RawOk(db, q, raw[j])
    ensures var row := Valued(raw)[i];
      row.best == None && IsAggregate(db, q, row.group, row.value) && row.runCount == |Members(db, q, row.group)|
  {
    if i < |Valued(raw[..|raw| - 1])| {
      ValuedRow(db, q, raw[..|raw| - 1], i);
    }
  }

  // ----- the second step: a run for each row -----

  /** What the lookup asks for: the shared filters, the value and the group, but not the bounds. */
  predicate Candidate(q: Query, t: Tuple, g: Group, v: real) {
    Passes(q, t) && t.m.value == v && GroupOf(q, t) == g
  }

  /** LIMIT 1: the first joined row the lookup meets. */
  method FindCandidate(q: Query, ts: seq<Tuple>, g: Group, v: real) returns (best: Option<Tuple>)
    ensures best.Some? ==> best.value in ts && Candidate(q, best.value, g, v)
    ensures best.None? ==> forall t <- ts :: !Candidate(q, t, g, v)
  {
    for i := 0 to |ts|
      invariant forall j | 0 <= j < i :: !Candidate(q, ts[j], g, v)
    {
      if Candidate(q, ts[i], g, v) {
        return Some(ts[i]);
      }
    }
    return None;
  }

  lemma {:induction false} JoinedRows(db: Db, q: Query, ms: seq<Metric>, t: Tuple)
    requires PrimaryKeys(db)
    ensures t in Join(db, q, ms) <==> t.m in ms && TupleOf(db, q, t.m) == Some(t)
  {
    if ms != [] {
      var rest, m := ms[..|ms| - 1], ms[|ms| - 1];
      assert ms == rest + [m];
      JoinedRows(db, q, rest, t);
      JoinIsLookup(db, q, m);
    }
  }

  /** The bounds need not be asked again: there is a candidate, and each is a run the row is about. */
  lemma {:induction false} CandidatesMatch(db: Db, q: Query, g: Group, v: real)
    requires PrimaryKeys(db) && Attained(db, q, g, v)
    ensures exists t :: t in Join(db, q, db.latest) && Candidate(q, t, g, v)
    ensures forall t | t in Join(db, q, db.latest) && Candidate(q, t, g, v) ::
              t.m in db.latest && TupleOf(db, q, t.m) == Some(t) && Belongs(db, q, g, t.m)
  {
    var m :| m in db.latest && Belongs(db, q, g, m) && m.value == v;
    forall t: Tuple ensures t in Join(db, q, db.latest) <==> t.m in db.latest && TupleOf(db, q, t.m) == Some(t) {
      JoinedRows(db, q, db.latest, t);
    }
    assert TupleOf(db, q, m).value in Join(db, q, db.latest);
  }

  /** The representative of a row is a run of its group, past every filter, with the value of the row. */
  ghost predicate Represents(db: Db, q: Query, row: Row, b: Best) {
    exists m :: m in db.latest && Belongs(db, q, row.group, m) &&
                m.value == row.value && b == BestOf(TupleOf(db, q, m).value)
  }

  function BestOf(t: Tuple): Best {
    Best(t.r.id, t.r.name, t.r.experiment)
  }

  method ResolveBestRuns(db: Db, q: Query, rows: array<Row>)
    requires PrimaryKeys(db)
    requires forall i | 0 <= i < rows.Length :: Attained(db, q, rows[i].group, rows[i].value)
    modifies rows
    ensures forall i | 0 <= i < rows.Length ::
      && rows[i] == old(rows[i]).(best := rows[i].best)
      && rows[i].best.Some? && Represents(db, q, rows[i], rows[i].best.value)
  {
    for i := 0 to rows.Length
      invariant forall j | i <= j < rows.Length :: rows[j] == old(rows[j])
      invariant forall j | 0 <= j < i ::
        && rows[j] == old(rows[j]).(best := rows[j].best)
        && rows[j].best.Some? && Represents(db, q, rows[j], rows[j].best.value)
    {
      var best := BestFor(db, q, rows[i]);
      rows[i] := rows[i].(best := Some(best));
    }
  }

  method BestFor(db: Db, q: Query, row: Row) returns (b: Best)
    requires PrimaryKeys(db) && Attained(db, q, row.group, row.value)
    ensures Represents(db, q, row, b) && Represents(db, q, row.(best := Some(b)), b)
  {
    CandidatesMatch(db, q, row.group, row.value);
    var t := FindCandidate(q, Join(db, q, db.latest), row.group, row.value);
    b := BestOf(t.value);
  }

  /** The limit of the query: 100 by default, 1000 at most. */
  function Limit(q: Query): nat {
    if q.limit == 0 then 100 else if q.limit > 1000 then 1000 else q.limit
  }

  /**
   * The whole query: every row counts the distinct runs of its group and carries its aggregate, and
   * for a maximum or a minimum it names a run of the group that passes all filters and attains it.
   */
  method AnalyticsQuery(db: Db, q: Query) returns (rows: array<Row>, total: nat, ghost raw: seq<Raw>)
    requires PrimaryKeys(db)
    ensures IsAnswer(db, q, Limit(q), raw)
    ensures Limit(q) <= 1000 && (q.limit == 0 ==> Limit(q) == 100) && (0 < q.limit <= 1000 ==> Limit(q) == q.limit)
    ensures q.limit > 1000 ==> Limit(q) == 1000
    ensures fresh(rows) && rows.Length == |Valued(raw)| && total == Counted(raw)
    ensures forall i | 0 <= i < rows.Length ::
      && rows[i] == Valued(raw)[i].(best := rows[i].best)
      && IsAggregate(db, q, rows[i].group, rows[i].value) && rows[i].runCount == |Members(db, q, rows[i].group)|
      && (if q.agg.Avg? then rows[i].best == None
          else rows[i].best.Some? && Represents(db, q, rows[i], rows[i].best.value))
  {
    var answer := RunAggregateQuery(db, q, Limit(q));
    raw := answer;
    var scanned, n := ScanRows(answer);
    total := n;
    rows := new Row[|scanned|](i requires 0 <= i < |scanned| => scanned[i]);
    forall i | 0 <= i < |scanned|
      ensures scanned[i].best == None && IsAggregate(db, q, scanned[i].group, scanned[i].value)
      ensures scanned[i].runCount == |Members(db, q, scanned[i].group)|
    {
      ValuedRow(db, q, answer, i);
    }
    if !q.agg.Avg? {
      ResolveBestRuns(db, q, rows);
    }
  }

  // ----- the rows of an answer -----

  ghost predicate HasRow(rows: seq<Row>, g: Group) {
    exists r <- rows :: r.group == g
  }

  ghost predicate HasValue(raw: seq<Raw>, g: Group) {
    exists r <- raw :: r.group == g && r.value.Some?
  }

  lemma {:induction false} RowsOfValues(raw: seq<Raw>, g: Group)
    ensures HasRow(Valued(raw), g) <==> HasValue(raw, g)
  {
    if raw != [] {
      var init, last := raw[..|raw| - 1], raw[|raw| - 1];
      assert raw == init + [last];
      RowsOfValues(init, g);
    }
  }

  lemma {:induction false} AggregateHasMembers(db: Db, q: Query, g: Group, v: real)
    requires IsAggregate(db, q, g, v)
    ensures Members(db, q, g) != {}
  {
    if !q.agg.Avg? {
      var m :| m in db.latest && Belongs(db, q, g, m) && m.value == v;
      assert m.run in Members(db, q, g);
    }
  }

  /** When the limit cuts nothing off, the groups that have a row are exactly the groups that have a run. */
  lemma {:induction false} EveryGroupHasARow(db: Db, q: Query, limit: nat, raw: seq<Raw>, g: Group)
    requires IsAnswer(db, q, limit, raw) && |raw| < limit
    ensures HasRow(Valued(raw), g) <==> Members(db, q, g) != {}
  {
    RowsOfValues(raw, g);
    if HasValue(raw, g) {
      var r :| r in raw && r.group == g && r.value.Some?;
      AggregateHasMembers(db, q, g, r.value.value);
    }
    if Members(db, q, g) != {} {
      assert Listed(raw, g);
      var i :| 0 <= i < |raw| && raw[i].group == g;
      assert RawOk(db, q, raw[i]) && raw[i] in raw;
    }
  }

  /** The run, its name and its experiment, read off the tables. */
  ghost predicate BestBy(db: Db, q: Query, row: Row, b: Best, m: Metric, r: Run, e: Experiment) {
    && m in db.latest && PutBy(db, q, row.group, m, r, e) && m.value == row.value
    && b.run == r.id && b.name == r.name && b.experiment == e.id
  }

  /** A row names exactly a run of its group that has its value, with the name and experiment of that run. */
  lemma {:induction false} BestOnTables(db: Db, q: Query, row: Row, b: Best)
    requires PrimaryKeys(db)
    ensures Represents(db, q, row, b) <==> exists m, r, e :: BestBy(db, q, row, b, m, r, e)
  {
    if m, r, e :| BestBy(db, q, row, b, m, r, e) {
      BelongsOnTables(db, q, row.group, m);
      RunIsFound(db.runs, r);
      ExperimentIsFound(db.experiments, e);
      assert b == BestOf(TupleOf(db, q, m).value);
    }
    if Represents(db, q, row, b) {
      var m :| m in db.latest && Belongs(db, q, row.group, m) && m.value == row.value &&
               b == BestOf(TupleOf(db, q, m).value);
      var t := TupleOf(db, q, m).value;
      GroupOnTables(db, q, row.group, t.r);
      assert BestBy(db, q, row, b, m, t.r, t.e);
    }
  }

  // ----- the total -----

  /** A run has one metric row for the query, so it is in one group. */
  lemma {:induction false} OneGroup(db: Db, q: Query, g: Group, h: Group, run: string)
    requires PrimaryKeys(db) && run in Members(db, q, g) && run in Members(db, q, h)
    ensures g == h
  {
    var m :| m in db.latest && Belongs(db, q, g, m) && m.run == run;
    var n :| n in db.latest && Belongs(db, q, h, n) && n.run == run;
    assert m == n;
  }

  /** The runs of the listed groups. */
  function Covered(db: Db, q: Query, raw: seq<Raw>): set<string> {
    if raw == [] then {} else Covered(db, q, raw[..|raw| - 1]) + Members(db, q, raw[|raw| - 1].group)
  }

  lemma {:induction false} CoveredRuns(db: Db, q: Query, raw: seq<Raw>, run: string)
    ensures run in Covered(db, q, raw) <==> exists i :: 0 <= i < |raw| && run in Members(db, q, raw[i].group)
  {
    if raw != [] {
      var rest := raw[..|raw| - 1];
      CoveredRuns(db, q, rest, run);
      if run in Covered(db, q, rest) {
        var i :| 0 <= i < |rest| && run in Members(db, q, rest[i].group);
        assert run in Members(db, q, raw[i].group);
      }
    }
  }

  lemma {:induction false} CountedIsCovered(db: Db, q: Query, raw: seq<Raw>)
    requires PrimaryKeys(db)
    requires forall i, j | 0 <= i < j < |raw| :: raw[i].group != raw[j].group
    requires forall i | 0 <= i < |raw| :: RawOk(db, q, raw[i])
    ensures Counted(raw) == |Covered(db, q, raw)|
  {
    if raw != [] {
      var rest, r := raw[..|raw| - 1], raw[|raw| - 1];
      CountedIsCovered(db, q, rest);
      forall run | run in Covered(db, q, rest) ensures run !in Members(db, q, r.group) {
        CoveredRuns(db, q, rest, run);
        var i :| 0 <= i < |rest| && run in Members(db, q, rest[i].group);
        if run in Members(db, q, r.group) {
          OneGroup(db, q, rest[i].group, r.group, run);
        }
      }
      assert Covered(db, q, rest) !! Members(db, q, r.group);
    }
  }

  /** When the limit cuts nothing off, the runs scanned are all the runs that match, each counted once. */
  lemma {:induction false} TotalIsMatching(db: Db, q: Query, limit: nat, raw: seq<Raw>)
    requires PrimaryKeys(db) && IsAnswer(db, q, limit, raw) && |raw| < limit
    ensures Counted(raw) == |Matching(db, q)|
  {
    CountedIsCovered(db, q, raw);
    forall run ensures run in Covered(db, q, raw) <==> run in Matching(db, q) {
      CoveredRuns(db, q, raw, run);
      if run in Matching(db, q) {
        var m :| m in db.latest && TupleOf(db, q, m).Some? && Matches(q, TupleOf(db, q, m).value) && m.run == run;
        var g := GroupOf(q, TupleOf(db, q, m).value);
        assert Belongs(db, q, g, m);
        assert run in Members(db, q, g);
        var i :| 0 <= i < |raw| && raw[i].group == g;
      }
    }
    assert Covered(db, q, raw) == Matching(db, q);
  }
}
