/** SearchRuns: one page of runs in the order a caller asks for. */
module RunSearch {
  import opened Wrappers
  import opened Keyset
  import opened Paging

  datatype SearchError = TokenMismatch

  ghost predicate DistinctIds(runs: seq<RunRow>) {
    forall i, j | 0 <= i < j < |runs| :: runs[i].id != runs[j].id
  }

  function KeyedRuns(terms: seq<OrderTerm>, runs: seq<RunRow>): (s: seq<Keyed<RunRow>>)
    ensures |s| == |runs| && forall i | 0 <= i < |runs| :: s[i] == Keyed(RunKey(terms, runs[i]), runs[i])
  {
    if runs == [] then []
    else
      var last := runs[|runs| - 1];
      KeyedRuns(terms, runs[..|runs| - 1]) + [Keyed(RunKey(terms, last), last)]
  }

  /** The id tie-break makes key vectors unique for any list of order terms. */
  lemma {:induction false} RunsFormTable(terms: seq<OrderTerm>, runs: seq<RunRow>)
    requires DistinctIds(runs)
    ensures Table(RunDirs(terms), KeyedRuns(terms, runs))
  {
    forall i | 0 <= i < |runs| ensures |RunKey(terms, runs[i])| == |RunDirs(terms)| {
      KeyWidth(terms, runs[i]);
    }
    forall i, j | 0 <= i < j < |runs| ensures RunKey(terms, runs[i]) != RunKey(terms, runs[j]) {
      KeysSeparateIds(terms, runs[i]);
      KeysSeparateIds(terms, runs[j]);
    }
  }

  lemma {:induction false} KeyedMembers(terms: seq<OrderTerm>, runs: seq<RunRow>)
    ensures forall r: RunRow :: Keyed(RunKey(terms, r), r) in KeyedRuns(terms, runs) <==> r in runs
    ensures forall x <- KeyedRuns(terms, runs) :: x == Keyed(RunKey(terms, x.row), x.row)
  {
  }

  /** The unpaged result: every run, once, in the caller's order with missing values last. */
  lemma {:induction false} RunListing(terms: seq<OrderTerm>, runs: seq<RunRow>)
    requires DistinctIds(runs)
    ensures Widths(RunDirs(terms), KeyedRuns(terms, runs))
    ensures var all := Listing(RunDirs(terms), KeyedRuns(terms, runs), None);
            && (forall r: RunRow :: Keyed(RunKey(terms, r), r) in all <==> r in runs)
            && (forall x <- all :: x == Keyed(RunKey(terms, x.row), x.row))
            && (forall i, j | 0 <= i < j < |all| :: RowBefore(terms, all[i].row, all[j].row))
  {
    RunsFormTable(terms, runs);
    var dirs, keyed := RunDirs(terms), KeyedRuns(terms, runs);
    ListingMembers(dirs, keyed, None);
    var all := Listing(dirs, keyed, None);
    KeyedMembers(terms, runs);
    forall i, j | 0 <= i < j < |all| ensures RowBefore(terms, all[i].row, all[j].row) {
      assert all[i] in all && all[j] in all;
      KeysRefineRows(terms, all[i].row, all[j].row);
    }
  }

  /** Without order terms the newest runs come first. */
  function Effective(terms: seq<OrderTerm>): seq<OrderTerm> {
    if terms == [] then [OrderTerm(StartTime, true)] else terms
  }

  /** The rows of a page, in the order of the page. */
  function RowsOf(items: seq<Keyed<RunRow>>): (rows: seq<RunRow>)
    ensures |rows| == |items| && forall i | 0 <= i < |rows| :: rows[i] == items[i].row
  {
    if items == [] then [] else RowsOf(items[..|items| - 1]) + [items[|items| - 1].row]
  }

  /** Runs in the order of their fields. */
  ghost predicate InFieldOrder(terms: seq<OrderTerm>, rows: seq<RunRow>) {
    forall i, j | 0 <= i < j < |rows| :: FieldsBefore(terms, rows[i], rows[j])
  }

  /** Every run not on the page comes after every run that is. */
  ghost predicate LeavesLater(terms: seq<OrderTerm>, runs: seq<RunRow>, rows: seq<RunRow>) {
    forall r <- runs, x <- rows | r !in rows :: FieldsBefore(terms, x, r)
  }

  /** What a page shows: runs of the table in the order of their fields, the first ones on the first page. */
  ghost predicate Shows(terms: seq<OrderTerm>, runs: seq<RunRow>, token: Option<Key>, rows: seq<RunRow>) {
    && InFieldOrder(terms, rows) && (forall x <- rows :: x in runs)
    && (token.None? ==> LeavesLater(terms, runs, rows))
  }

  lemma {:induction false} KeyedInFieldOrder(terms: seq<OrderTerm>, a: RunRow, b: RunRow)
    requires |RunKey(terms, a)| == |RunKey(terms, b)| == |RunDirs(terms)|
    requires KeyBefore(RunDirs(terms), RunKey(terms, a), RunKey(terms, b))
    ensures FieldsBefore(terms, a, b)
  {
    KeysRefineRows(terms, a, b);
    RowBeforeOnFields(terms, a, b);
  }

  lemma {:induction false} PageRows(terms: seq<OrderTerm>, runs: seq<RunRow>, items: seq<Keyed<RunRow>>, i: nat)
    requires i < |items| && items[i] in KeyedRuns(terms, runs)
    ensures RowsOf(items)[i] in runs && items[i] == Keyed(RunKey(terms, RowsOf(items)[i]), RowsOf(items)[i])
  {
    KeyedMembers(terms, runs);
  }

  /** A page holds runs of the table in the order of their fields. */
  lemma {:induction false} PageOnFields(terms: seq<OrderTerm>, runs: seq<RunRow>, token: Option<Key>, max: nat)
    requires max > 0 && Table(RunDirs(terms), KeyedRuns(terms, runs)) && CursorFits(RunDirs(terms), token)
    ensures var rows := RowsOf(PageOf(RunDirs(terms), KeyedRuns(terms, runs), token, max).items);
            InFieldOrder(terms, rows) && (forall x <- rows :: x in runs) && |rows| <= max
  {
    PageInOrder(RunDirs(terms), KeyedRuns(terms, runs), token, max);
    var items := PageOf(RunDirs(terms), KeyedRuns(terms, runs), token, max).items;
    var rows := RowsOf(items);
    forall i | 0 <= i < |rows| ensures rows[i] in runs {
      PageRows(terms, runs, items, i);
    }
    forall i, j | 0 <= i < j < |rows| ensures FieldsBefore(terms, rows[i], rows[j]) {
      PageRows(terms, runs, items, i);
      PageRows(terms, runs, items, j);
      KeyedInFieldOrder(terms, rows[i], rows[j]);
    }
  }

  lemma {:induction false} FirstPageRow(terms: seq<OrderTerm>, runs: seq<RunRow>, items: seq<Keyed<RunRow>>,
                                        r: RunRow, i: nat)
    requires Widths(RunDirs(terms), KeyedRuns(terms, runs)) && r in runs && r !in RowsOf(items) && i < |items|
    requires forall x <- items :: x in KeyedRuns(terms, runs)
    requires forall x <- KeyedRuns(terms, runs), y <- items | x !in items :: KeyBefore(RunDirs(terms), y.key, x.key)
    ensures FieldsBefore(terms, RowsOf(items)[i], r)
  {
    PageRows(terms, runs, items, i);
    KeyedMembers(terms, runs);
    assert Keyed(RunKey(terms, r), r) !in items;
    KeyedInFieldOrder(terms, RowsOf(items)[i], r);
  }

  /** The first page holds the first runs. */
  lemma {:induction false} FirstPageOnFields(terms: seq<OrderTerm>, runs: seq<RunRow>, max: nat)
    requires max > 0 && Table(RunDirs(terms), KeyedRuns(terms, runs))
    ensures LeavesLater(terms, runs, RowsOf(PageOf(RunDirs(terms), KeyedRuns(terms, runs), None, max).items))
  {
    PageInOrder(RunDirs(terms), KeyedRuns(terms, runs), None, max);
    var items := PageOf(RunDirs(terms), KeyedRuns(terms, runs), None, max).items;
    var rows := RowsOf(items);
    forall r <- runs, x <- rows | r !in rows ensures FieldsBefore(terms, x, r) {
      var i :| 0 <= i < |rows| && rows[i] == x;
      FirstPageRow(terms, runs, items, r, i);
    }
  }

  /** In the default order start times never increase, and the id decides between equal ones. */
  lemma {:induction false} DefaultIsNewestFirst(a: RunRow, b: RunRow)
    ensures FieldsBefore(Effective([]), a, b) <==>
            a.startTime > b.startTime || (a.startTime == b.startTime && TextLess(a.id, b.id))
  {
    var terms := Effective([]);
    assert DecidedBy(terms, a, b, 0) <==> a.startTime > b.startTime;
    assert DecidedBy(terms, a, b, 1) <==> a.startTime == b.startTime && TextLess(a.id, b.id);
  }

  lemma {:induction false} NewestFirst(rows: seq<RunRow>)
    requires InFieldOrder(Effective([]), rows)
    ensures forall i, j | 0 <= i < j < |rows| :: rows[i].startTime >= rows[j].startTime
  {
    forall i, j | 0 <= i < j < |rows| ensures rows[i].startTime >= rows[j].startTime {
      assert FieldsBefore(Effective([]), rows[i], rows[j]);
      DefaultIsNewestFirst(rows[i], rows[j]);
    }
  }

  lemma {:induction false} RowsKeepKeys(terms: seq<OrderTerm>, runs: seq<RunRow>, token: Option<Key>,
                                        x: Keyed<RunRow>, max: nat)
    requires Table(RunDirs(terms), KeyedRuns(terms, runs)) && CursorFits(RunDirs(terms), token) && max > 0
    requires x in PageOf(RunDirs(terms), KeyedRuns(terms, runs), token, max).items
    ensures x.key == RunKey(terms, x.row)
  {
    PageRange(RunDirs(terms), KeyedRuns(terms, runs), token, max, x);
    assert x in KeyedRuns(terms, runs);
  }

  method FetchRuns(order: seq<OrderTerm>, runs: seq<RunRow>, token: Option<Key>, max: nat) returns (page: Page<RunRow>)
    requires Table(RunDirs(order), KeyedRuns(order, runs)) && CursorFits(RunDirs(order), token) && max > 0
    ensures page == PageOf(RunDirs(order), KeyedRuns(order, runs), token, max)
  {
    var out, more := FetchPage(RunDirs(order), KeyedRuns(order, runs), token, max);
    var next := None;
    if more {
      RowsKeepKeys(order, runs, token, out[|out| - 1], max);
      var cursor := EmitCursor(order, out[|out| - 1].row);
      next := Some(cursor);
    }
    return Page(out, next);
  }

  /**
   * One page in the order a caller asks for, read off the fields of the runs; without order terms start
   * times never increase. A token is refused exactly when it has the wrong width.
   */
  method SearchRuns(terms: seq<OrderTerm>, runs: seq<RunRow>, token: Option<Key>, maxResults: int)
    returns (answer: Result<Page<RunRow>, SearchError>)
    requires DistinctIds(runs)
    ensures Widths(RunDirs(Effective(terms)), KeyedRuns(Effective(terms), runs))
    ensures var order := Effective(terms);
            answer
              == if token.Some? && |token.value| != |RunDirs(order)| then Err(TokenMismatch)
                 else Ok(PageOf(RunDirs(order), KeyedRuns(order, runs), token, PageSize(maxResults)))
    ensures answer.Ok? ==>
              var rows := RowsOf(answer.value.items);
              && Shows(Effective(terms), runs, token, rows)
              && (terms == [] ==> forall i, j | 0 <= i < j < |rows| :: rows[i].startTime >= rows[j].startTime)
              && |rows| <= (if maxResults <= 0 then 1000 else maxResults) && |rows| <= 50000
  {
    var order := Effective(terms);
    RunsFormTable(order, runs);
    if token.Some? && |token.value| != |RunDirs(order)| {
      return Err(TokenMismatch);
    }
    var page := FetchRuns(order, runs, token, PageSize(maxResults));
    PageOnFields(order, runs, token, PageSize(maxResults));
    FirstPageOnFields(order, runs, PageSize(maxResults));
    if terms == [] {
      NewestFirst(RowsOf(page.items));
    }
    return Ok(page);
  }
}
