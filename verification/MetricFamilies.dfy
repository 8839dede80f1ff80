/** Counters and histograms of the metrics registry, with the cap on the number of series. */
module MetricFamilies {
  import opened Collections
  import opened MetricLabels

  const MAX_SERIES: nat := 10000
  const OVERFLOW: string := "__overflow__"

  /** One call of Add or Observe: the key of its label set, and its delta or value. */
  datatype Obs = Obs(key: string, value: real)

  function OverflowKey(labels: seq<string>): string {
    SetKey(labels, seq(|labels|, _ => OVERFLOW))
  }

  /** The series an observation goes to: its own, unless it is new and the family is full. */
  function BoundedKey(labels: seq<string>, series: set<string>, k: string): string {
    if labels == [] || |series| < MAX_SERIES || k in series then k else OverflowKey(labels)
  }

  /** The series of a family after a history of observations. */
  function Series(labels: seq<string>, h: seq<Obs>): set<string>
    decreases |h|, 0
  {
    if h == [] then {} else Series(labels, h[..|h| - 1]) + {Route(labels, h, |h| - 1)}
  }

  /** Where observation `i` of the history went. */
  function Route(labels: seq<string>, h: seq<Obs>, i: nat): string
    requires i < |h|
    decreases i, 1
  {
    BoundedKey(labels, Series(labels, h[..i]), h[i].key)
  }

  /** The values that went to a series, in order. */
  function Routed(labels: seq<string>, h: seq<Obs>, k: string): seq<real> {
    if h == [] then []
    else
      var rest := Routed(labels, h[..|h| - 1], k);
      if Route(labels, h, |h| - 1) == k then rest + [h[|h| - 1].value] else rest
  }

  /** The values observed with a label set, in order. */
  function Own(h: seq<Obs>, k: string): seq<real> {
    if h == [] then []
    else
      var rest := Own(h[..|h| - 1], k);
      if h[|h| - 1].key == k then rest + [h[|h| - 1].value] else rest
  }

  function Sum(vs: seq<real>): real {
    if vs == [] then 0.0 else Sum(vs[..|vs| - 1]) + vs[|vs| - 1]
  }

  function AtMost(vs: seq<real>, b: real): nat {
    if vs == [] then 0
    else
      var rest := AtMost(vs[..|vs| - 1], b);
      if vs[|vs| - 1] <= b then rest + 1 else rest
  }

  function AllValues(h: seq<Obs>): seq<real> {
    if h == [] then [] else AllValues(h[..|h| - 1]) + [h[|h| - 1].value]
  }

  // ----- the cap -----

  lemma {:induction false} SeriesPush(labels: seq<string>, h: seq<Obs>, o: Obs)
    ensures Series(labels, h + [o]) == Series(labels, h) + {BoundedKey(labels, Series(labels, h), o.key)}
    ensures Route(labels, h + [o], |h|) == BoundedKey(labels, Series(labels, h), o.key)
  {
  }

  lemma {:induction false} Insert(s: set<string>, x: string)
    ensures |s + {x}| == if x in s then |s| else |s| + 1
  {
    if x in s {
      assert s + {x} == s;
    }
  }

  /** A labelled family never has more than one series over the cap, and that one is the overflow series. */
  lemma {:induction false} SeriesAreCapped(labels: seq<string>, h: seq<Obs>)
    requires labels != []
    ensures || |Series(labels, h)| <= MAX_SERIES
            || (|Series(labels, h)| == MAX_SERIES + 1 && OverflowKey(labels) in Series(labels, h))
  {
    if h != [] {
      SeriesAreCapped(labels, h[..|h| - 1]);
      Insert(Series(labels, h[..|h| - 1]), Route(labels, h, |h| - 1));
    }
  }

  /** While there is room, and always without labels, an observation is in the series of its own label set. */
  lemma {:induction false} NewSeriesWhileRoom(labels: seq<string>, h: seq<Obs>, i: nat)
    requires i < |h| && (labels == [] || |Series(labels, h[..i])| < MAX_SERIES || h[i].key in Series(labels, h[..i]))
    ensures h[i].key in Series(labels, h) && h[i].value in Routed(labels, h, h[i].key)
    decreases |h|
  {
    var before := h[..|h| - 1];
    if i < |before| {
      assert before[..i] == h[..i];
      NewSeriesWhileRoom(labels, before, i);
    }
  }

  /** Once the family is full, a label set without a series never gets one. */
  lemma {:induction false} FullStaysFull(labels: seq<string>, h: seq<Obs>, i: nat, j: nat, k: string)
    requires labels != [] && i <= j <= |h| && |Series(labels, h[..i])| >= MAX_SERIES
    requires k !in Series(labels, h[..i]) && k != OverflowKey(labels)
    ensures k !in Series(labels, h[..j]) && |Series(labels, h[..j])| >= MAX_SERIES
    decreases j
  {
    if i < j {
      FullStaysFull(labels, h, i, j - 1, k);
      assert h[..j][..j - 1] == h[..j - 1];
      Insert(Series(labels, h[..j - 1]), Route(labels, h[..j], j - 1));
    }
  }

  lemma {:induction false} RouteOfPrefix(labels: seq<string>, h: seq<Obs>, n: nat, i: nat)
    requires i < n <= |h|
    ensures Route(labels, h[..n], i) == Route(labels, h, i)
  {
    assert h[..n][..i] == h[..i];
  }

  /** All that is observed with a label set that has a series, and nothing else, goes to its series. */
  lemma {:induction false} OwnSeries(labels: seq<string>, h: seq<Obs>, k: string, i: nat)
    requires i < |h| && k in Series(labels, h) && k != OverflowKey(labels)
    ensures Route(labels, h, i) == k <==> h[i].key == k
  {
    assert h[..|h|] == h;
    if labels != [] && |Series(labels, h[..i])| >= MAX_SERIES && k !in Series(labels, h[..i]) {
      FullStaysFull(labels, h, i, |h|, k);
      assert false;
    }
  }

  lemma {:induction false} RoutedIsOwn(labels: seq<string>, h: seq<Obs>, k: string, n: nat)
    requires n <= |h| && k in Series(labels, h) && k != OverflowKey(labels)
    ensures Routed(labels, h[..n], k) == Own(h[..n], k)
  {
    if n > 0 {
      RoutedIsOwn(labels, h, k, n - 1);
      OwnSeries(labels, h, k, n - 1);
      RouteOfPrefix(labels, h, n, n - 1);
      assert h[..n][..n - 1] == h[..n - 1];
    }
  }

  /** A series other than the overflow series holds exactly the values of its own label set. */
  lemma {:induction false} SeriesHoldsItsOwn(labels: seq<string>, h: seq<Obs>, k: string)
    requires k in Series(labels, h) && k != OverflowKey(labels)
    ensures Routed(labels, h, k) == Own(h, k)
  {
    RoutedIsOwn(labels, h, k, |h|);
    assert h[..|h|] == h;
  }

  lemma {:induction false} NothingRouted(labels: seq<string>, h: seq<Obs>, k: string)
    requires k !in Series(labels, h)
    ensures Routed(labels, h, k) == []
  {
    if h != [] {
      NothingRouted(labels, h[..|h| - 1], k);
    }
  }

  lemma {:induction false} RoutedPush(labels: seq<string>, h: seq<Obs>, o: Obs, k: string)
    ensures Routed(labels, h + [o], k) ==
      if BoundedKey(labels, Series(labels, h), o.key) == k then Routed(labels, h, k) + [o.value]
      else Routed(labels, h, k)
  {
  }

  lemma {:induction false} SumPush(vs: seq<real>, v: real)
    ensures Sum(vs + [v]) == Sum(vs) + v
  {
  }

  lemma {:induction false} AtMostPush(vs: seq<real>, v: real, b: real)
    ensures AtMost(vs + [v], b) == AtMost(vs, b) + if v <= b then 1 else 0
  {
  }

  // ----- nothing is lost -----

  /** Every key of the map, once, in some order. */
  ghost predicate Lists(ks: seq<string>, m: map<string, real>) {
    Distinct(ks) && forall k :: k in ks <==> k in m
  }

  lemma {:induction false} FirstListed(ks: seq<string>, m: map<string, real>)
    requires Lists(ks, m) && ks != []
    ensures m.Keys != {}
  {
    assert ks[0] in m;
  }

  function SumOver(m: map<string, real>, ks: seq<string>): real
    requires forall k <- ks :: k in m
  {
    if ks == [] then 0.0
    else
      assert forall k <- ks[..|ks| - 1] :: k in ks;
      SumOver(m, ks[..|ks| - 1]) + m[ks[|ks| - 1]]
  }

  lemma {:induction false} SumOverSame(m: map<string, real>, n: map<string, real>, ks: seq<string>)
    requires forall k <- ks :: k in m && k in n && m[k] == n[k]
    ensures SumOver(m, ks) == SumOver(n, ks)
  {
    if ks != [] {
      assert forall k <- ks[..|ks| - 1] :: k in ks;
      SumOverSame(m, n, ks[..|ks| - 1]);
    }
  }

  lemma {:induction false} SumOverPush(m: map<string, real>, ks: seq<string>, k: string)
    requires k in m && forall x <- ks :: x in m
    ensures SumOver(m, ks + [k]) == SumOver(m, ks) + m[k]
  {
    assert (ks + [k])[..|ks|] == ks;
  }

  lemma {:induction false} SumOverCut(m: map<string, real>, ks: seq<string>, i: nat)
    requires i < |ks| && forall k <- ks :: k in m
    ensures forall k <- Cut(ks, i) :: k in m
    ensures SumOver(m, ks) == SumOver(m, Cut(ks, i)) + m[ks[i]]
  {
    var init, last := ks[..|ks| - 1], ks[|ks| - 1];
    assert forall k <- Cut(ks, i) :: k in ks;
    assert forall k <- init :: k in ks;
    if i == |ks| - 1 {
      assert Cut(ks, i) == init;
    } else {
      SumOverCut(m, init, i);
      assert Cut(ks, i) == Cut(init, i) + [last];
      SumOverPush(m, Cut(init, i), last);
    }
  }

  /** Adding to one key adds to the sum over all keys, however they are listed. */
  lemma {:induction false} SumOverAdded(p: map<string, real>, k: string, d: real, ks: seq<string>)
      returns (qs: seq<string>)
    requires Lists(ks, Added(p, k, d))
    ensures Lists(qs, p) && SumOver(Added(p, k, d), ks) == SumOver(p, qs) + d
  {
    var m := Added(p, k, d);
    assert k in ks;
    var i :| 0 <= i < |ks| && ks[i] == k;
    var rest := Cut(ks, i);
    CutDistinct(ks, i);
    forall x ensures x in rest <==> x in p && x != k {
      CutMembers(ks, i, x);
    }
    SumOverCut(m, ks, i);
    SumOverSame(m, p, rest);
    if k in p {
      qs := ks;
      SumOverCut(p, ks, i);
    } else {
      qs := rest;
    }
  }

  // ----- counters -----

  /** Each series holds the total of what went to it. */
  ghost predicate Totals(labels: seq<string>, values: map<string, real>, h: seq<Obs>) {
    && values.Keys == Series(labels, h)
    && (forall k | k in values :: values[k] == Sum(Routed(labels, h, k)))
  }

  function Added(values: map<string, real>, k: string, delta: real): map<string, real> {
    values[k := (if k in values then values[k] else 0.0) + delta]
  }

  lemma {:induction false} AddTotal(labels: seq<string>, values: map<string, real>, h: seq<Obs>, o: Obs, x: string)
    requires Totals(labels, values, h)
    ensures var k := BoundedKey(labels, values.Keys, o.key); var w := Added(values, k, o.value);
      x in w ==> w[x] == Sum(Routed(labels, h + [o], x))
  {
    RoutedPush(labels, h, o, x);
    SumPush(Routed(labels, h, x), o.value);
    if x !in values {
      NothingRouted(labels, h, x);
    }
  }

  lemma {:induction false} AddKeepsTotals(labels: seq<string>, values: map<string, real>, h: seq<Obs>, o: Obs)
    requires Totals(labels, values, h)
    ensures Totals(labels, Added(values, BoundedKey(labels, values.Keys, o.key), o.value), h + [o])
  {
    var w := Added(values, BoundedKey(labels, values.Keys, o.key), o.value);
    SeriesPush(labels, h, o);
    forall x | x in w ensures w[x] == Sum(Routed(labels, h + [o], x)) {
      AddTotal(labels, values, h, o, x);
    }
  }

  lemma {:induction false} TotalsAreUnique(labels: seq<string>, u: map<string, real>, v: map<string, real>, h: seq<Obs>)
    requires Totals(labels, u, h) && Totals(labels, v, h)
    ensures u == v
  {
  }

  lemma {:induction false} SomeTotals(labels: seq<string>, h: seq<Obs>) returns (p: map<string, real>)
    ensures Totals(labels, p, h)
  {
    p := map x | x in Series(labels, h) :: Sum(Routed(labels, h, x));
  }

  lemma {:induction false} AllValuesPush(h: seq<Obs>, o: Obs)
    ensures Sum(AllValues(h + [o])) == Sum(AllValues(h)) + o.value
  {
    assert (h + [o])[..|h|] == h;
    SumPush(AllValues(h), o.value);
  }

  lemma {:induction false} TotalsStep(labels: seq<string>, values: map<string, real>, h: seq<Obs>, o: Obs,
                                      ks: seq<string>)
    returns (p: map<string, real>, qs: seq<string>)
    requires Totals(labels, values, h + [o]) && Lists(ks, values)
    ensures Totals(labels, p, h) && Lists(qs, p)
    ensures SumOver(values, ks) == SumOver(p, qs) + o.value
  {
    p := SomeTotals(labels, h);
    var k := BoundedKey(labels, p.Keys, o.key);
    AddKeepsTotals(labels, p, h, o);
    TotalsAreUnique(labels, values, Added(p, k, o.value), h + [o]);
    qs := SumOverAdded(p, k, o.value, ks);
  }

  lemma {:induction false} NoTotals(labels: seq<string>, values: map<string, real>, ks: seq<string>)
    requires Totals(labels, values, []) && Lists(ks, values)
    ensures SumOver(values, ks) == 0.0
  {
    if ks != [] {
      FirstListed(ks, values);
    }
  }

  /** The series of a counter, however they are listed, together hold everything that was added. */
  lemma {:induction false} TotalsAddUp(labels: seq<string>, values: map<string, real>, h: seq<Obs>, ks: seq<string>)
    requires Totals(labels, values, h) && Lists(ks, values)
    ensures SumOver(values, ks) == Sum(AllValues(h))
    decreases |h|
  {
    if h == [] {
      NoTotals(labels, values, ks);
    } else {
      var before, o := h[..|h| - 1], h[|h| - 1];
      assert h == before + [o];
      var p, qs := TotalsStep(labels, values, before, o, ks);
      TotalsAddUp(labels, p, before, qs);
      AllValuesPush(before, o);
    }
  }

  class Counter {
    const labels: seq<string>
    var values: map<string, real>
    ghost var history: seq<Obs>

    ghost predicate Valid()
      reads this
    {
      Totals(labels, values, history)
    }

    constructor (labels: seq<string>)
      ensures Valid() && this.labels == labels && history == []
    {
      this.labels := labels;
      values, history := map[], [];
    }

    method Add(delta: real, labelValues: seq<string>)
      requires Valid()
      modifies this
      ensures Valid() && history == old(history) + [Obs(SetKey(labels, labelValues), delta)]
    {
      var key := LabelSetKey(labels, labelValues);
      AddKeepsTotals(labels, values, history, Obs(key, delta));
      key := BoundedKey(labels, values.Keys, key);
      values := Added(values, key, delta);
      history := history + [Obs(SetKey(labels, labelValues), delta)];
    }
  }

  // ----- histograms -----

  datatype Sample = Sample(counts: seq<nat>, sum: real, count: nat)

  /** `counts[i]` observations are at most `buckets[i]`. */
  ghost predicate Summarises(s: Sample, buckets: seq<real>, vs: seq<real>) {
    && |s.counts| == |buckets| && s.count == |vs| && s.sum == Sum(vs)
    && forall i | 0 <= i < |buckets| :: s.counts[i] == AtMost(vs, buckets[i])
  }

  method Record(s: Sample, buckets: seq<real>, value: real, ghost vs: seq<real>) returns (t: Sample)
    requires Summarises(s, buckets, vs)
    ensures Summarises(t, buckets, vs + [value])
  {
    var counts := s.counts;
    for i := 0 to |buckets|
      invariant |counts| == |buckets|
      invariant forall j | 0 <= j < i :: counts[j] == AtMost(vs + [value], buckets[j])
      invariant forall j | i <= j < |buckets| :: counts[j] == AtMost(vs, buckets[j])
    {
      AtMostPush(vs, value, buckets[i]);
      if value <= buckets[i] {
        counts := counts[i := counts[i] + 1];
      }
    }
    SumPush(vs, value);
    t := Sample(counts, s.sum + value, s.count + 1);
  }

  ghost predicate Summaries(labels: seq<string>, buckets: seq<real>, obs: map<string, Sample>, h: seq<Obs>) {
    && obs.Keys == Series(labels, h)
    && (forall k | k in obs :: Summarises(obs[k], buckets, Routed(labels, h, k)))
  }

  /** The sample a series has, or the one it starts with. */
  function Current(obs: map<string, Sample>, buckets: seq<real>, k: string): Sample {
    if k in obs then obs[k] else Sample(seq(|buckets|, _ => 0), 0.0, 0)
  }

  lemma {:induction false} CurrentSummarises(labels: seq<string>, buckets: seq<real>, obs: map<string, Sample>,
                                             h: seq<Obs>, k: string)
    requires Summaries(labels, buckets, obs, h)
    ensures Summarises(Current(obs, buckets, k), buckets, Routed(labels, h, k))
  {
    if k !in obs {
      NothingRouted(labels, h, k);
    }
  }

  lemma {:induction false} ObserveKeepsSummaries(labels: seq<string>, buckets: seq<real>, obs: map<string, Sample>,
                                                 h: seq<Obs>, o: Obs, s: Sample)
    requires Summaries(labels, buckets, obs, h)
    requires Summarises(s, buckets, Routed(labels, h, BoundedKey(labels, obs.Keys, o.key)) + [o.value])
    ensures Summaries(labels, buckets, obs[BoundedKey(labels, obs.Keys, o.key) := s], h + [o])
  {
    var k := BoundedKey(labels, obs.Keys, o.key);
    SeriesPush(labels, h, o);
    forall x | x in obs[k := s] ensures Summarises(obs[k := s][x], buckets, Routed(labels, h + [o], x)) {
      RoutedPush(labels, h, o, x);
    }
  }

  class Histogram {
    const labels: seq<string>
    const buckets: seq<real>
    var obs: map<string, Sample>
    ghost var history: seq<Obs>

    ghost predicate Valid()
      reads this
    {
      Summaries(labels, buckets, obs, history)
    }

    constructor (labels: seq<string>, buckets: seq<real>)
      ensures Valid() && this.labels == labels && this.buckets == buckets && history == []
    {
      this.labels, this.buckets := labels, buckets;
      obs, history := map[], [];
    }

    method Observe(value: real, labelValues: seq<string>)
      requires Valid()
      modifies this
      ensures Valid() && history == old(history) + [Obs(SetKey(labels, labelValues), value)]
    {
      var key := LabelSetKey(labels, labelValues);
      ghost var o := Obs(key, value);
      key := BoundedKey(labels, obs.Keys, key);
      CurrentSummarises(labels, buckets, obs, history, key);
      var s := Record(Current(obs, buckets, key), buckets, value, Routed(labels, history, key));
      ObserveKeepsSummaries(labels, buckets, obs, history, o, s);
      obs := obs[key := s];
      history := history + [o];
    }
  }

  /** How many observations each series has. */
  ghost predicate Counts(labels: seq<string>, h: seq<Obs>, m: map<string, real>) {
    m.Keys == Series(labels, h) && forall k | k in m :: m[k] == |Routed(labels, h, k)| as real
  }

  lemma {:induction false} SomeCounts(labels: seq<string>, h: seq<Obs>) returns (p: map<string, real>)
    ensures Counts(labels, h, p)
  {
    p := map x | x in Series(labels, h) :: |Routed(labels, h, x)| as real;
  }

  ghost predicate Raised(p: map<string, real>, k: string, m: map<string, real>, x: string) {
    x in m && m[x] == (if x in p then p[x] else 0.0) + if x == k then 1.0 else 0.0
  }

  lemma {:induction false} RaisedIsAdded(p: map<string, real>, k: string, m: map<string, real>)
    requires m.Keys == p.Keys + {k} && forall x | x in m :: Raised(p, k, m, x)
    ensures m == Added(p, k, 1.0)
  {
    forall x | x in m ensures m[x] == Added(p, k, 1.0)[x] {
      assert Raised(p, k, m, x);
    }
  }

  lemma {:induction false} CountOne(labels: seq<string>, h: seq<Obs>, o: Obs, p: map<string, real>,
                                    m: map<string, real>, x: string)
    requires Counts(labels, h, p) && Counts(labels, h + [o], m) && x in m
    ensures Raised(p, BoundedKey(labels, p.Keys, o.key), m, x)
  {
    RoutedPush(labels, h, o, x);
    if x !in p {
      NothingRouted(labels, h, x);
    }
  }

  lemma {:induction false} CountPush(labels: seq<string>, h: seq<Obs>, o: Obs, p: map<string, real>,
                                     m: map<string, real>)
    requires Counts(labels, h, p) && Counts(labels, h + [o], m)
    ensures m == Added(p, BoundedKey(labels, p.Keys, o.key), 1.0)
  {
    SeriesPush(labels, h, o);
    forall x | x in m ensures Raised(p, BoundedKey(labels, p.Keys, o.key), m, x) {
      CountOne(labels, h, o, p, m, x);
    }
    RaisedIsAdded(p, BoundedKey(labels, p.Keys, o.key), m);
  }

  lemma {:induction false} EachCountedOnce(labels: seq<string>, h: seq<Obs>, m: map<string, real>, ks: seq<string>)
    requires Counts(labels, h, m) && Lists(ks, m)
    ensures SumOver(m, ks) == |h| as real
    decreases |h|
  {
    if h == [] {
      if ks != [] {
        FirstListed(ks, m);
      }
    } else {
      var before, o := h[..|h| - 1], h[|h| - 1];
      assert h == before + [o];
      var p := SomeCounts(labels, before);
      CountPush(labels, before, o, p, m);
      var qs := SumOverAdded(p, BoundedKey(labels, p.Keys, o.key), 1.0, ks);
      EachCountedOnce(labels, before, p, qs);
    }
  }

  function CountsOf(obs: map<string, Sample>): map<string, real> {
    map k | k in obs :: obs[k].count as real
  }

  /** The counts of a histogram's series, however they are listed, add up to the number of observations. */
  lemma {:induction false} CountsAddUp(labels: seq<string>, buckets: seq<real>, obs: map<string, Sample>, h: seq<Obs>,
                                       ks: seq<string>)
    requires Summaries(labels, buckets, obs, h) && Lists(ks, CountsOf(obs))
    ensures SumOver(CountsOf(obs), ks) == |h| as real
  {
    EachCountedOnce(labels, h, CountsOf(obs), ks);
  }
}
