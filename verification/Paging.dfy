/** Following page tokens: pages cut from a sorted result by a keyset cursor. */
module Paging {
  import opened Wrappers
  import opened Keyset

  /** A row with its key vector. */
  datatype Keyed<T> = Keyed(key: Key, row: T)

  datatype Page<T> = Page(items: seq<Keyed<T>>, next: Option<Key>)

  predicate Widths<T(!new)>(desc: seq<bool>, rows: seq<Keyed<T>>) {
    forall i | 0 <= i < |rows| :: |rows[i].key| == |desc|
  }

  /** Key vectors of one width, no two alike: what a unique last column gives. */
  ghost predicate Table<T(!new)>(desc: seq<bool>, rows: seq<Keyed<T>>) {
    && Widths(desc, rows)
    && (forall i, j | 0 <= i < j < |rows| :: rows[i].key != rows[j].key)
  }

  ghost predicate Sorted<T(!new)>(desc: seq<bool>, rows: seq<Keyed<T>>)
    requires Widths(desc, rows)
  {
    forall i, j | 0 <= i < j < |rows| :: KeyBefore(desc, rows[i].key, rows[j].key)
  }

  // ----- ORDER BY -----

  function InsertRow<T(!new)>(desc: seq<bool>, rows: seq<Keyed<T>>, r: Keyed<T>): (s: seq<Keyed<T>>)
    requires Widths(desc, rows) && |r.key| == |desc|
    ensures Widths(desc, s)
    decreases |rows|
  {
    if rows == [] || KeyBefore(desc, rows[|rows| - 1].key, r.key) then rows + [r]
    else InsertRow(desc, rows[..|rows| - 1], r) + [rows[|rows| - 1]]
  }

  function OrderBy<T(!new)>(desc: seq<bool>, rows: seq<Keyed<T>>): (s: seq<Keyed<T>>)
    requires Widths(desc, rows)
    ensures Widths(desc, s)
    decreases |rows|
  {
    if rows == [] then [] else InsertRow(desc, OrderBy(desc, rows[..|rows| - 1]), rows[|rows| - 1])
  }

  lemma {:induction false} InsertRowSorted<T(!new)>(desc: seq<bool>, rows: seq<Keyed<T>>, r: Keyed<T>)
    requires Widths(desc, rows) && |r.key| == |desc| && Sorted(desc, rows)
    requires forall i | 0 <= i < |rows| :: rows[i].key != r.key
    ensures Sorted(desc, InsertRow(desc, rows, r))
    ensures |InsertRow(desc, rows, r)| == |rows| + 1
    ensures forall x :: x in InsertRow(desc, rows, r) <==> x in rows || x == r
    decreases |rows|
  {
    if rows != [] {
      var init, last := rows[..|rows| - 1], rows[|rows| - 1];
      assert rows == init + [last];
      if KeyBefore(desc, last.key, r.key) {
        forall i | 0 <= i < |init| ensures KeyBefore(desc, init[i].key, r.key) {
          KeyBeforeTransitive(desc, rows[i].key, last.key, r.key);
        }
      } else {
        KeyBeforeTotal(desc, last.key, r.key);
        InsertRowSorted(desc, init, r);
        var s := InsertRow(desc, init, r);
        forall i | 0 <= i < |s| ensures KeyBefore(desc, s[i].key, last.key) {
          assert s[i] in init || s[i] == r;
          if s[i] in init {
            var j :| 0 <= j < |init| && init[j] == s[i];
            assert rows[j] == s[i];
          }
        }
      }
    }
  }

  lemma {:induction false} OrderBySorted<T(!new)>(desc: seq<bool>, rows: seq<Keyed<T>>)
    requires Table(desc, rows)
    ensures Sorted(desc, OrderBy(desc, rows))
    ensures |OrderBy(desc, rows)| == |rows|
    ensures forall x :: x in OrderBy(desc, rows) <==> x in rows
    decreases |rows|
  {
    if rows != [] {
      var init, last := rows[..|rows| - 1], rows[|rows| - 1];
      assert rows == init + [last];
      OrderBySorted(desc, init);
      var s := OrderBy(desc, init);
      forall i | 0 <= i < |s| ensures s[i].key != last.key {
        assert s[i] in init;
        var j :| 0 <= j < |init| && init[j] == s[i];
        assert rows[j].key != rows[|rows| - 1].key;
      }
      InsertRowSorted(desc, s, last);
    }
  }

  /** Two sorted lists with the same rows are the same list. */
  lemma {:induction false} SortedUnique<T(!new)>(desc: seq<bool>, s: seq<Keyed<T>>, t: seq<Keyed<T>>)
    requires Widths(desc, s) && Widths(desc, t) && Sorted(desc, s) && Sorted(desc, t)
    requires forall x :: x in s <==> x in t
    ensures s == t
    decreases |s|
  {
    assert s != [] ==> s[0] in t;
    assert t != [] ==> t[0] in s;
    if s != [] {
      var i :| 0 <= i < |t| && t[i] == s[0];
      var j :| 0 <= j < |s| && s[j] == t[0];
      if i > 0 && j > 0 {
        KeyBeforeTotal(desc, s[0].key, t[0].key);
        assert false;
      }
      assert s[0] == t[0];
      KeyBeforeTotal(desc, s[0].key, s[0].key);
      forall x ensures x in s[1..] <==> x in t[1..] {
        assert x in s <==> x in [s[0]] + s[1..];
        assert x in t <==> x in [t[0]] + t[1..];
      }
      SortedUnique(desc, s[1..], t[1..]);
      assert s == [s[0]] + s[1..] && t == [t[0]] + t[1..];
    }
  }

  // ----- one page -----

  predicate PastCursor(desc: seq<bool>, cursor: Option<Key>, key: Key)
    requires |key| == |desc| && (cursor.Some? ==> |cursor.value| == |desc|)
  {
    cursor.None? || KeyBefore(desc, cursor.value, key)
  }

  predicate CursorFits(desc: seq<bool>, cursor: Option<Key>) {
    cursor.Some? ==> |cursor.value| == |desc|
  }

  /** WHERE: the rows strictly after the cursor. */
  function Rest<T(!new)>(desc: seq<bool>, rows: seq<Keyed<T>>, cursor: Option<Key>): (s: seq<Keyed<T>>)
    requires Widths(desc, rows) && CursorFits(desc, cursor)
    ensures Widths(desc, s) && |s| <= |rows|
    decreases |rows|
  {
    if rows == [] then []
    else
      var init := Rest(desc, rows[..|rows| - 1], cursor);
      if PastCursor(desc, cursor, rows[|rows| - 1].key) then init + [rows[|rows| - 1]] else init
  }

  lemma {:induction false} RestMembers<T(!new)>(desc: seq<bool>, rows: seq<Keyed<T>>, cursor: Option<Key>)
    requires Table(desc, rows) && CursorFits(desc, cursor)
    ensures Table(desc, Rest(desc, rows, cursor))
    ensures forall x :: x in Rest(desc, rows, cursor) <==> x in rows && PastCursor(desc, cursor, x.key)
    decreases |rows|
  {
    if rows != [] {
      var init, last := rows[..|rows| - 1], rows[|rows| - 1];
      assert rows == init + [last];
      RestMembers(desc, init, cursor);
      var s := Rest(desc, init, cursor);
      forall i | 0 <= i < |s| ensures s[i].key != last.key {
        assert s[i] in init;
        var j :| 0 <= j < |init| && init[j] == s[i];
        assert rows[j].key != rows[|rows| - 1].key;
      }
    }
  }

  /** The whole result after a cursor, in order. */
  function Listing<T(!new)>(desc: seq<bool>, rows: seq<Keyed<T>>, cursor: Option<Key>): (s: seq<Keyed<T>>)
    requires Widths(desc, rows) && CursorFits(desc, cursor)
    ensures Widths(desc, s)
  {
    OrderBy(desc, Rest(desc, rows, cursor))
  }

  lemma {:induction false} ListingMembers<T(!new)>(desc: seq<bool>, rows: seq<Keyed<T>>, cursor: Option<Key>)
    requires Table(desc, rows) && CursorFits(desc, cursor)
    ensures Sorted(desc, Listing(desc, rows, cursor))
    ensures forall x :: x in Listing(desc, rows, cursor) <==> x in rows && PastCursor(desc, cursor, x.key)
  {
    RestMembers(desc, rows, cursor);
    OrderBySorted(desc, Rest(desc, rows, cursor));
  }

  /** Page sizes: 1000 by default, 50000 at most. */
  function PageSize(maxResults: int): nat {
    if maxResults <= 0 then 1000 else if maxResults > 50000 then 50000 else maxResults
  }

  /** LIMIT max + 1; the extra row only says that there is a next page. */
  function PageOf<T(!new)>(desc: seq<bool>, rows: seq<Keyed<T>>, cursor: Option<Key>, max: nat): (p: Page<T>)
    requires Widths(desc, rows) && CursorFits(desc, cursor) && max > 0
    ensures CursorFits(desc, p.next)
  {
    var all := Listing(desc, rows, cursor);
    if |all| > max then Page(all[..max], Some(all[max - 1].key)) else Page(all, None)
  }

  /** A page is in order, and what it leaves out for later pages comes after it. */
  lemma {:induction false} PageInOrder<T(!new)>(desc: seq<bool>, rows: seq<Keyed<T>>, cursor: Option<Key>, max: nat)
    requires Table(desc, rows) && CursorFits(desc, cursor) && max > 0
    ensures var page := PageOf(desc, rows, cursor, max);
            && Sorted(desc, page.items) && (forall x <- page.items :: x in rows)
            && |page.items| <= max && (page.next.Some? ==> |page.items| == max)
            && (forall x <- rows, y <- page.items | PastCursor(desc, cursor, x.key) && x !in page.items ::
                  KeyBefore(desc, y.key, x.key))
            && (page.next.None? ==> forall x <- rows | PastCursor(desc, cursor, x.key) :: x in page.items)
  {
    ListingMembers(desc, rows, cursor);
    var page, all := PageOf(desc, rows, cursor, max), Listing(desc, rows, cursor);
    forall x <- rows, y <- page.items | PastCursor(desc, cursor, x.key) && x !in page.items
      ensures KeyBefore(desc, y.key, x.key)
    {
      assert x in all;
      var i :| 0 <= i < |all| && all[i] == x;
      var j :| 0 <= j < |page.items| && page.items[j] == y;
      assert all[j] == y;
    }
  }

  /** WHERE with the keyset clause evaluated on every row. */
  method SelectPast<T(!new)>(desc: seq<bool>, rows: seq<Keyed<T>>, token: Option<Key>) returns (out: seq<Keyed<T>>)
    requires Widths(desc, rows) && CursorFits(desc, token)
    ensures out == Rest(desc, rows, token)
  {
    var ors, args := [], [];
    if token.Some? {
      ors, args := KeysetPredicate(desc, token.value);
    }
    out := [];
    for i := 0 to |rows|
      invariant out == Rest(desc, rows[..i], token)
    {
      assert rows[..i + 1][..i] == rows[..i];
      if token.None? || EvalOrs(ors, args, rows[i].key) {
        out := out + [rows[i]];
      }
    }
    assert rows[..|rows|] == rows;
  }

  /** Fetch at most max + 1 rows after the token; the extra row only says that there are more. */
  method FetchPage<T(!new)>(desc: seq<bool>, rows: seq<Keyed<T>>, token: Option<Key>, max: nat)
    returns (out: seq<Keyed<T>>, more: bool)
    requires Widths(desc, rows) && CursorFits(desc, token) && max > 0
    ensures var page := PageOf(desc, rows, token, max);
            && out == page.items && more == page.next.Some?
            && (more ==> |out| == max && page.next == Some(out[max - 1].key))
  {
    var matching := SelectPast(desc, rows, token);
    var all := OrderBy(desc, matching);
    out := if |all| > max + 1 then all[..max + 1] else all;
    more := |out| > max;
    if more {
      out := out[..max];
    }
  }

  /** A sorted list cut at k: the rows from k on are the ones after row k - 1, the others are not. */
  lemma {:induction false} SortedSplit<T(!new)>(desc: seq<bool>, all: seq<Keyed<T>>, k: nat, x: Keyed<T>)
    requires Widths(desc, all) && Sorted(desc, all) && 0 < k <= |all| && x in all
    ensures |x.key| == |desc|
    ensures x in all[k..] <==> KeyBefore(desc, all[k - 1].key, x.key)
    ensures x in all[..k] <==> !KeyBefore(desc, all[k - 1].key, x.key)
  {
    var i :| 0 <= i < |all| && all[i] == x;
    KeyBeforeTotal(desc, all[k - 1].key, x.key);
    if i < k {
      assert all[..k][i] == x;
      forall j | k <= j < |all| ensures all[j] != x {
        KeyBeforeTotal(desc, all[i].key, all[j].key);
      }
    } else {
      assert all[k..][i - k] == x;
      forall j | 0 <= j < k ensures all[j] != x {
        KeyBeforeTotal(desc, all[j].key, all[i].key);
      }
    }
  }

  /** The result after the k-th row's key is the rest of the result. */
  lemma {:induction false} CutListing<T(!new)>(desc: seq<bool>, rows: seq<Keyed<T>>, cursor: Option<Key>, k: nat)
    requires Table(desc, rows) && CursorFits(desc, cursor) && 0 < k <= |Listing(desc, rows, cursor)|
    ensures Listing(desc, rows, Some(Listing(desc, rows, cursor)[k - 1].key)) == Listing(desc, rows, cursor)[k..]
  {
    var all := Listing(desc, rows, cursor);
    var at := all[k - 1].key;
    ListingMembers(desc, rows, cursor);
    ListingMembers(desc, rows, Some(at));
    assert all[k - 1] in all;
    var rest := Listing(desc, rows, Some(at));
    forall x: Keyed<T> ensures x in rest <==> x in all[k..] {
      if cursor.Some? && x in rest {
        KeyBeforeTransitive(desc, cursor.value, at, x.key);
      }
      if x in all {
        SortedSplit(desc, all, k, x);
      }
    }
    SortedUnique(desc, rest, all[k..]);
  }

  // ----- following tokens over an unchanged table -----

  function Pages(n: nat, max: nat): nat
    requires max > 0
  {
    if n <= max then 1 else 1 + Pages(n - max, max)
  }

  /** The number of pages is max(1, ceil(n / max)). */
  lemma {:induction false} PagesIsCeiling(n: nat, max: nat)
    requires max > 0
    ensures n == 0 ==> Pages(n, max) == 1
    ensures n > 0 ==> (Pages(n, max) - 1) * max < n <= Pages(n, max) * max
  {
    if n > max {
      PagesIsCeiling(n - max, max);
      var p := Pages(n - max, max);
      assert (p + 1) * max == p * max + max && p * max == (p - 1) * max + max;
    }
  }

  function Flatten<T>(pages: seq<seq<T>>): seq<T> {
    if pages == [] then [] else pages[0] + Flatten(pages[1..])
  }

  /** Ask for pages from a cursor on until no token comes back. */
  function WalkFrom<T(!new)>(desc: seq<bool>, rows: seq<Keyed<T>>, cursor: Option<Key>, max: nat): seq<seq<Keyed<T>>>
    requires Table(desc, rows) && CursorFits(desc, cursor) && max > 0
    decreases |Listing(desc, rows, cursor)|
  {
    var page := PageOf(desc, rows, cursor, max);
    if page.next.None? then [page.items]
    else
      CutListing(desc, rows, cursor, max);
      [page.items] + WalkFrom(desc, rows, page.next, max)
  }

  lemma {:induction false} PageAndRest<T(!new)>(desc: seq<bool>, rows: seq<Keyed<T>>, cursor: Option<Key>, max: nat)
    requires Table(desc, rows) && CursorFits(desc, cursor) && max > 0
    requires PageOf(desc, rows, cursor, max).next.Some?
    ensures var page := PageOf(desc, rows, cursor, max);
            && CursorFits(desc, page.next) && |page.items| == max
            && Listing(desc, rows, cursor) == page.items + Listing(desc, rows, page.next)
  {
    CutListing(desc, rows, cursor, max);
  }

  /** Over an unchanged table the pages concatenate to the sorted result. */
  lemma {:induction false} WalkIsListing<T(!new)>(desc: seq<bool>, rows: seq<Keyed<T>>, cursor: Option<Key>, max: nat)
    requires Table(desc, rows) && CursorFits(desc, cursor) && max > 0
    ensures Flatten(WalkFrom(desc, rows, cursor, max)) == Listing(desc, rows, cursor)
    decreases |Listing(desc, rows, cursor)|
  {
    var page := PageOf(desc, rows, cursor, max);
    if page.next.None? {
      FlattenCons(page.items, []);
    } else {
      PageAndRest(desc, rows, cursor, max);
      WalkIsListing(desc, rows, page.next, max);
      FlattenCons(page.items, WalkFrom(desc, rows, page.next, max));
    }
  }

  /** All but the last are full. */
  ghost predicate FullBut<T>(pages: seq<seq<T>>, max: nat) {
    forall i | 0 <= i < |pages| - 1 :: |pages[i]| == max
  }

  lemma {:induction false} FullCons<T>(page: seq<T>, rest: seq<seq<T>>, max: nat)
    requires |page| == max && FullBut(rest, max)
    ensures FullBut([page] + rest, max)
  {
  }

  /** Every page but the last is full, and there are max(1, ceil(n / max)) of them. */
  lemma {:induction false} WalkPageCount<T(!new)>(desc: seq<bool>, rows: seq<Keyed<T>>, cursor: Option<Key>, max: nat)
    requires Table(desc, rows) && CursorFits(desc, cursor) && max > 0
    ensures var pages := WalkFrom(desc, rows, cursor, max);
            |pages| == Pages(|Listing(desc, rows, cursor)|, max) && FullBut(pages, max)
    decreases |Listing(desc, rows, cursor)|
  {
    var page := PageOf(desc, rows, cursor, max);
    if page.next.Some? {
      CutListing(desc, rows, cursor, max);
      WalkPageCount(desc, rows, page.next, max);
      FullCons(page.items, WalkFrom(desc, rows, page.next, max), max);
    }
  }

  lemma {:induction false} FlattenCons<T>(page: seq<T>, rest: seq<seq<T>>)
    ensures Flatten([page] + rest) == page + Flatten(rest)
  {
  }

  // ----- following tokens while the table changes -----

  /** Page i is read from table i; each token leads to the next page, the last page has none. */
  ghost predicate CompletedWalk<T(!new)>(desc: seq<bool>, max: nat, tables: seq<seq<Keyed<T>>>,
                                         cursors: seq<Option<Key>>, pages: seq<Page<T>>) {
    && max > 0 && |tables| == |cursors| == |pages| > 0 && cursors[0] == None
    && (forall i | 0 <= i < |pages| ::
          && Table(desc, tables[i]) && CursorFits(desc, cursors[i])
          && pages[i] == PageOf(desc, tables[i], cursors[i], max))
    && (forall i | 0 < i < |pages| :: pages[i - 1].next.Some? && cursors[i] == pages[i - 1].next)
    && pages[|pages| - 1].next.None?
  }

  /** A page holds exactly the rows after its cursor, up to and including its token. */
  lemma {:induction false} PageRange<T(!new)>(desc: seq<bool>, rows: seq<Keyed<T>>, cursor: Option<Key>, max: nat,
                                              x: Keyed<T>)
    requires Table(desc, rows) && CursorFits(desc, cursor) && max > 0
    ensures var page := PageOf(desc, rows, cursor, max);
            x in page.items <==>
              && x in rows && PastCursor(desc, cursor, x.key)
              && (page.next.None? || !KeyBefore(desc, page.next.value, x.key))
  {
    var all := Listing(desc, rows, cursor);
    ListingMembers(desc, rows, cursor);
    if |all| > max {
      assert all == all[..max] + all[max..];
      if x in all {
        SortedSplit(desc, all, max, x);
      }
    }
  }

  lemma {:induction false} PageSorted<T(!new)>(desc: seq<bool>, rows: seq<Keyed<T>>, cursor: Option<Key>, max: nat)
    requires Table(desc, rows) && CursorFits(desc, cursor) && max > 0
    ensures var page := PageOf(desc, rows, cursor, max);
            && Widths(desc, page.items) && Sorted(desc, page.items)
            && (page.next.Some? ==> PastCursor(desc, cursor, page.next.value))
  {
    var all := Listing(desc, rows, cursor);
    ListingMembers(desc, rows, cursor);
    assert |all| > max ==> all[max - 1] in all;
  }

  /** A later page's cursor is at or past an earlier page's token. */
  lemma {:induction false} CursorsAdvance<T(!new)>(desc: seq<bool>, max: nat, tables: seq<seq<Keyed<T>>>,
                                                   cursors: seq<Option<Key>>, pages: seq<Page<T>>, i: nat, j: nat)
    requires CompletedWalk(desc, max, tables, cursors, pages) && i < j < |pages|
    ensures pages[i].next.Some? && cursors[j].Some?
    ensures |pages[i].next.value| == |desc| == |cursors[j].value|
    ensures pages[i].next == cursors[j] || KeyBefore(desc, pages[i].next.value, cursors[j].value)
    decreases j
  {
    assert cursors[j] == pages[j - 1].next;
    if i + 1 < j {
      CursorsAdvance(desc, max, tables, cursors, pages, i, j - 1);
      PageSorted(desc, tables[j - 1], cursors[j - 1], max);
      if pages[i].next != cursors[j - 1] {
        KeyBeforeTransitive(desc, pages[i].next.value, cursors[j - 1].value, cursors[j].value);
      }
    }
  }

  /** A completed walk returns rows in strictly increasing key order, whatever happened to the tables. */
  lemma {:induction false} WalkIncreases<T(!new)>(desc: seq<bool>, max: nat, tables: seq<seq<Keyed<T>>>,
                               cursors: seq<Option<Key>>, pages: seq<Page<T>>, i: nat, k: nat, j: nat, l: nat)
    requires CompletedWalk(desc, max, tables, cursors, pages)
    requires i <= j < |pages| && k < |pages[i].items| && l < |pages[j].items| && (i < j || k < l)
    ensures |pages[i].items[k].key| == |pages[j].items[l].key| == |desc|
    ensures KeyBefore(desc, pages[i].items[k].key, pages[j].items[l].key)
  {
    var x, y := pages[i].items[k], pages[j].items[l];
    PageSorted(desc, tables[i], cursors[i], max);
    PageSorted(desc, tables[j], cursors[j], max);
    if i < j {
      PageRange(desc, tables[i], cursors[i], max, x);
      PageRange(desc, tables[j], cursors[j], max, y);
      CursorsAdvance(desc, max, tables, cursors, pages, i, j);
      var token, cursor := pages[i].next.value, cursors[j].value;
      KeyBeforeTotal(desc, token, x.key);
      if x.key != token {
        if token != cursor {
          KeyBeforeTransitive(desc, x.key, token, cursor);
        }
        KeyBeforeTransitive(desc, x.key, cursor, y.key);
      } else if token != cursor {
        KeyBeforeTransitive(desc, token, cursor, y.key);
      }
    }
  }

  ghost predicate HasKey<T>(rows: seq<Keyed<T>>, key: Key) {
    exists x <- rows :: x.key == key
  }

  /** From page i on, a key past the cursor that stays in the table is met. */
  lemma {:induction false} StableKeyIsMet<T(!new)>(desc: seq<bool>, max: nat, tables: seq<seq<Keyed<T>>>,
                                                   cursors: seq<Option<Key>>, pages: seq<Page<T>>, key: Key, i: nat)
      returns (p: nat, k: nat)
    requires CompletedWalk(desc, max, tables, cursors, pages) && |key| == |desc| && i < |pages|
    requires forall t <- tables :: HasKey(t, key)
    requires PastCursor(desc, cursors[i], key)
    ensures p < |pages| && k < |pages[p].items| && pages[p].items[k].key == key
    decreases |pages| - i
  {
    assert HasKey(tables[i], key);
    var x :| x in tables[i] && x.key == key;
    PageRange(desc, tables[i], cursors[i], max, x);
    if x in pages[i].items {
      p := i;
      k :| 0 <= k < |pages[i].items| && pages[i].items[k] == x;
    } else {
      assert cursors[i + 1] == pages[i].next;
      p, k := StableKeyIsMet(desc, max, tables, cursors, pages, key, i + 1);
    }
  }

  /** The key of a row is met at exactly one place of a walk. */
  ghost predicate MetOnce<T(!new)>(pages: seq<Page<T>>, key: Key) {
    exists i, k | 0 <= i < |pages| && 0 <= k < |pages[i].items| ::
      && pages[i].items[k].key == key
      && (forall j, l | 0 <= j < |pages| && 0 <= l < |pages[j].items| && pages[j].items[l].key == key ::
            j == i && l == k)
  }

  /** A row present throughout with unchanged keys appears exactly once, while others come and go. */
  lemma {:induction false} StableRowSeenOnce<T(!new)>(desc: seq<bool>, max: nat, tables: seq<seq<Keyed<T>>>,
                                   cursors: seq<Option<Key>>, pages: seq<Page<T>>, key: Key)
    requires CompletedWalk(desc, max, tables, cursors, pages) && |key| == |desc|
    requires forall t <- tables :: HasKey(t, key)
    ensures MetOnce(pages, key)
  {
    var i, k := StableKeyIsMet(desc, max, tables, cursors, pages, key, 0);
    forall j, l | 0 <= j < |pages| && 0 <= l < |pages[j].items| && pages[j].items[l].key == key
      ensures j == i && l == k
    {
      KeyBeforeTotal(desc, key, key);
      if j < i || (j == i && l < k) {
        WalkIncreases(desc, max, tables, cursors, pages, j, l, i, k);
        assert false;
      } else if i < j || k < l {
        WalkIncreases(desc, max, tables, cursors, pages, i, k, j, l);
        assert false;
      }
    }
  }
}
