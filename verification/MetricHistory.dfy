/** Pages of a metric's history and of experiments: their keys, their tokens, and what following the tokens gives. */
module MetricHistory {
  import opened Wrappers
  import opened Keyset
  import opened Paging
  import opened MetricTokens

  datatype Metric = Metric(value: real, timestamp: int, step: int)

  datatype HistoryError = MalformedToken

  const ORDER: seq<bool> := [false, false]

  function KeyOf(timestamp: int, step: int): Key {
    [Num(timestamp as real), Num(step as real)]
  }

  /** The points of one metric of one run: no two share timestamp and step. */
  ghost predicate IsSeries(points: seq<Metric>) {
    && (forall i | 0 <= i < |points| :: Int64(points[i].timestamp) && Int64(points[i].step))
    && (forall i, j | 0 <= i < j < |points| ::
          points[i].timestamp != points[j].timestamp || points[i].step != points[j].step)
  }

  function KeyedPoints(points: seq<Metric>): (s: seq<Keyed<Metric>>)
    ensures |s| == |points|
    ensures forall i | 0 <= i < |points| :: s[i] == Keyed(KeyOf(points[i].timestamp, points[i].step), points[i])
  {
    if points == [] then []
    else
      var last := points[|points| - 1];
      KeyedPoints(points[..|points| - 1]) + [Keyed(KeyOf(last.timestamp, last.step), last)]
  }

  lemma {:induction false} SeriesFormsTable(points: seq<Metric>)
    requires IsSeries(points)
    ensures Table(ORDER, KeyedPoints(points))
  {
  }

  /** The condition of the query: a later timestamp, or the same one and a later step. */
  predicate PastPoint(p: Metric, c: Cursor) {
    p.timestamp > c.timestamp || (p.timestamp == c.timestamp && p.step > c.step)
  }

  lemma {:induction false} PastPointIsPastCursor(p: Metric, c: Cursor)
    ensures PastPoint(p, c) <==> KeyBefore(ORDER, KeyOf(c.timestamp, c.step), KeyOf(p.timestamp, p.step))
  {
  }

  function KeyAt(c: Option<Cursor>): Option<Key> {
    if c.None? then None else Some(KeyOf(c.value.timestamp, c.value.step))
  }

  method SelectPoints(points: seq<Metric>, c: Option<Cursor>) returns (out: seq<Keyed<Metric>>)
    ensures Widths(ORDER, KeyedPoints(points)) && out == Rest(ORDER, KeyedPoints(points), KeyAt(c))
  {
    out := [];
    var keyed := KeyedPoints(points);
    for i := 0 to |points|
      invariant out == Rest(ORDER, keyed[..i], KeyAt(c))
    {
      assert keyed[..i + 1][..i] == keyed[..i];
      if c.Some? {
        PastPointIsPastCursor(points[i], c.value);
      }
      if c.None? || PastPoint(points[i], c.value) {
        out := out + [keyed[i]];
      }
    }
    assert keyed[..|points|] == keyed;
  }

  function TokenOf(p: Metric): string {
    Encode(Cursor(p.timestamp, p.step))
  }

  /** At most `max` points, and the token of the last of them if there are more. */
  method CutPage(all: seq<Keyed<Metric>>, max: nat) returns (out: seq<Keyed<Metric>>, next: string)
    requires max > 0
    ensures |all| <= max ==> out == all && next == ""
    ensures |all| > max ==> out == all[..max] && next == TokenOf(all[max - 1].row)
  {
    next := "";
    out := if |all| > max + 1 then all[..max + 1] else all;
    if |out| > max {
      out := out[..max];
      next := TokenOf(out[max - 1].row);
    }
  }

  /** The token says where the next page begins, or is empty if there is none. */
  ghost predicate TokenMatches(next: string, key: Option<Key>) {
    if key.None? then next == "" else Decode(next).Some? && KeyAt(Decode(next)) == key
  }

  lemma {:induction false} TokenOfPoint(p: Metric)
    requires Int64(p.timestamp) && Int64(p.step)
    ensures TokenMatches(TokenOf(p), Some(KeyOf(p.timestamp, p.step)))
  {
    TokenReadsBack(Cursor(p.timestamp, p.step));
  }

  lemma {:induction false} TokenForCut(points: seq<Metric>, at: Option<Key>, all: seq<Keyed<Metric>>, max: nat)
    requires IsSeries(points) && CursorFits(ORDER, at) && Widths(ORDER, KeyedPoints(points)) && max > 0
    requires all == Listing(ORDER, KeyedPoints(points), at) && |all| > max
    ensures TokenMatches(TokenOf(all[max - 1].row), Some(all[max - 1].key))
  {
    SeriesFormsTable(points);
    LastPoint(points, at, all, max - 1);
    TokenOfPoint(all[max - 1].row);
  }

  lemma {:induction false} CutIsPage(points: seq<Metric>, at: Option<Key>, all: seq<Keyed<Metric>>, max: nat,
                                     out: seq<Keyed<Metric>>, next: string)
    requires CursorFits(ORDER, at) && Widths(ORDER, KeyedPoints(points)) && max > 0
    requires all == Listing(ORDER, KeyedPoints(points), at)
    requires |all| <= max ==> out == all && next == ""
    requires |all| > max ==> out == all[..max] && TokenMatches(next, Some(all[max - 1].key))
    ensures var page := PageOf(ORDER, KeyedPoints(points), at, max); out == page.items && TokenMatches(next, page.next)
  {
  }

  /** The points past a position: a page of them, or all when no page size is given. */
  method HistoryFrom(points: seq<Metric>, c: Option<Cursor>, max: int) returns (out: seq<Keyed<Metric>>, next: string)
    requires IsSeries(points)
    ensures Widths(ORDER, KeyedPoints(points))
    ensures max <= 0 ==> out == Listing(ORDER, KeyedPoints(points), KeyAt(c)) && next == ""
    ensures max > 0 ==>
      var page := PageOf(ORDER, KeyedPoints(points), KeyAt(c), max); out == page.items && TokenMatches(next, page.next)
  {
    var matching := SelectPoints(points, c);
    var all := OrderBy(ORDER, matching);
    if max <= 0 {
      return all, "";
    }
    out, next := CutPage(all, max);
    if |all| > max {
      TokenForCut(points, KeyAt(c), all, max);
    }
    CutIsPage(points, KeyAt(c), all, max, out, next);
  }

  /**
   * One page of the history, all of it when no page size is given. A token is refused exactly when
   * it is not of the form it is written in, and the token of a page decodes to its last point.
   */
  method GetMetricHistory(points: seq<Metric>, token: string, max: int)
    returns (answer: Result<seq<Keyed<Metric>>, HistoryError>, next: string)
    requires IsSeries(points)
    ensures answer.Err? <==> token != "" && Decode(token).None?
    ensures Widths(ORDER, KeyedPoints(points))
    ensures answer.Ok? ==>
      var at := KeyAt(if token == "" then None else Decode(token));
      && (max <= 0 ==> answer.value == Listing(ORDER, KeyedPoints(points), at) && next == "")
      && (max > 0 ==>
            var page := PageOf(ORDER, KeyedPoints(points), at, max);
            answer.value == page.items && TokenMatches(next, page.next))
  {
    var c: Option<Cursor> := None;
    if token != "" {
      c := Decode(token);
      if c.None? {
        return Err(MalformedToken), "";
      }
    }
    var out;
    out, next := HistoryFrom(points, c, max);
    answer := Ok(out);
  }

  lemma {:induction false} LastPoint(points: seq<Metric>, at: Option<Key>, all: seq<Keyed<Metric>>, i: nat)
    requires IsSeries(points) && Table(ORDER, KeyedPoints(points)) && CursorFits(ORDER, at)
    requires all == Listing(ORDER, KeyedPoints(points), at) && i < |all|
    ensures all[i].key == KeyOf(all[i].row.timestamp, all[i].row.step)
    ensures Int64(all[i].row.timestamp) && Int64(all[i].row.step)
  {
    ListingMembers(ORDER, KeyedPoints(points), at);
    assert all[i] in all;
    var j :| 0 <= j < |points| && KeyedPoints(points)[j] == all[i];
  }

  /** Following the tokens over an unchanged series gives every point once, by timestamp and then step. */
  lemma {:induction false} PagesAreTheSeries(points: seq<Metric>, max: nat)
    requires IsSeries(points) && max > 0
    ensures Table(ORDER, KeyedPoints(points))
    ensures var all := Flatten(WalkFrom(ORDER, KeyedPoints(points), None, max));
      && Widths(ORDER, all) && Sorted(ORDER, all) && |all| == |points|
      && (forall x :: x in all <==> x in KeyedPoints(points))
  {
    SeriesFormsTable(points);
    var keyed := KeyedPoints(points);
    WalkIsListing(ORDER, keyed, None, max);
    ListingMembers(ORDER, keyed, None);
    AllPass(ORDER, keyed);
    OrderBySorted(ORDER, keyed);
  }

  lemma {:induction false} AllPass<T(!new)>(desc: seq<bool>, rows: seq<Keyed<T>>)
    requires Widths(desc, rows)
    ensures Rest(desc, rows, None) == rows
  {
    if rows != [] {
      AllPass(desc, rows[..|rows| - 1]);
    }
  }

  // ----- experiments -----

  datatype Experiment = Experiment(id: int, name: string, creationTime: int)

  /** Newest first; the id decides between experiments of one moment. */
  const NEWEST: seq<bool> := [true, false]

  function KeyedExperiments(es: seq<Experiment>): (s: seq<Keyed<Experiment>>)
    ensures |s| == |es|
    ensures forall i | 0 <= i < |es| :: s[i] == Keyed(KeyOf(es[i].creationTime, es[i].id), es[i])
  {
    if es == [] then []
    else
      var last := es[|es| - 1];
      KeyedExperiments(es[..|es| - 1]) + [Keyed(KeyOf(last.creationTime, last.id), last)]
  }

  ghost predicate DistinctIds(es: seq<Experiment>) {
    forall i, j | 0 <= i < j < |es| :: es[i].id != es[j].id
  }

  lemma {:induction false} ExperimentsFormTable(es: seq<Experiment>)
    requires DistinctIds(es)
    ensures Table(NEWEST, KeyedExperiments(es))
  {
  }

  /** Along a page creation times never increase, and ids increase within one moment. */
  ghost predicate NewestFirst(items: seq<Keyed<Experiment>>) {
    forall i, j | 0 <= i < j < |items| ::
      var a, b := items[i].row, items[j].row;
      a.creationTime > b.creationTime || (a.creationTime == b.creationTime && a.id < b.id)
  }

  lemma {:induction false} NewerBefore(x: Experiment, y: Experiment)
    requires KeyBefore(NEWEST, KeyOf(x.creationTime, x.id), KeyOf(y.creationTime, y.id))
    ensures x.creationTime > y.creationTime || (x.creationTime == y.creationTime && x.id < y.id)
  {
  }

  lemma {:induction false} PageNewestFirst(es: seq<Experiment>, token: Option<Key>, max: nat)
    requires DistinctIds(es) && Table(NEWEST, KeyedExperiments(es)) && CursorFits(NEWEST, token) && max > 0
    ensures NewestFirst(PageOf(NEWEST, KeyedExperiments(es), token, max).items)
  {
    PageInOrder(NEWEST, KeyedExperiments(es), token, max);
    var items := PageOf(NEWEST, KeyedExperiments(es), token, max).items;
    forall i, j | 0 <= i < j < |items|
      ensures var a, b := items[i].row, items[j].row;
              a.creationTime > b.creationTime || (a.creationTime == b.creationTime && a.id < b.id)
    {
      assert items[i] in KeyedExperiments(es) && items[j] in KeyedExperiments(es);
      NewerBefore(items[i].row, items[j].row);
    }
  }

  /** One page of the experiments that pass the filter; the token is the key of its last experiment. */
  method SearchExperiments(es: seq<Experiment>, token: Option<Key>, maxResults: int)
    returns (answer: Result<Page<Experiment>, HistoryError>)
    requires DistinctIds(es)
    ensures Widths(NEWEST, KeyedExperiments(es))
    ensures answer == if token.Some? && |token.value| != 2 then Err(MalformedToken)
                      else Ok(PageOf(NEWEST, KeyedExperiments(es), token, PageSize(maxResults)))
    ensures answer.Ok? ==> NewestFirst(answer.value.items)
  {
    ExperimentsFormTable(es);
    if token.Some? && |token.value| != 2 {
      return Err(MalformedToken);
    }
    var max := PageSize(maxResults);
    var out, more := FetchPage(NEWEST, KeyedExperiments(es), token, max);
    var next := None;
    if more {
      var last := out[|out| - 1];
      PageRange(NEWEST, KeyedExperiments(es), token, max, last);
      assert last in KeyedExperiments(es);
      next := Some(KeyOf(last.row.creationTime, last.row.id));
    }
    PageNewestFirst(es, token, max);
    return Ok(Page(out, next));
  }
}
