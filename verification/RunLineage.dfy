/** Walks over the parent column of runs: any graph, cycles and foreign workspaces included. */
module RunLineage {
  import opened Collections
  import opened Wrappers

  const MAX_ANCESTOR_DEPTH: nat := 256

  /** A run row; parent "" is no parent. */
  datatype Run = Run(id: string, parent: string, startTime: int, active: bool, workspace: string)

  ghost predicate DistinctIds(rows: seq<Run>) {
    forall i, j | 0 <= i < j < |rows| :: rows[i].id != rows[j].id
  }

  // ----- ancestors -----

  /** The run with an id, if it exists in the workspace. */
  function Find(table: seq<Run>, id: string, ws: string): (r: Option<Run>)
    ensures r.Some? ==> r.value in table && r.value.id == id && r.value.workspace == ws
    ensures r.None? ==> forall x <- table :: !(x.id == id && x.workspace == ws)
  {
    if table == [] then None
    else if table[0].id == id && table[0].workspace == ws then Some(table[0])
    else Find(table[1..], id, ws)
  }

  /** The parent that follows a chain of ancestors. */
  function NextParent(table: seq<Run>, ws: string, first: string, chain: seq<string>): string {
    if chain == [] then first
    else
      var last := Find(table, chain[|chain| - 1], ws);
      if last.Some? then last.value.parent else ""
  }

  /** The n-th run of a chain is the parent of the one before, in the workspace, and not met earlier. */
  ghost predicate Link(table: seq<Run>, ws: string, self: string, first: string, chain: seq<string>, n: nat)
    requires n < |chain|
  {
    && chain[n] == NextParent(table, ws, first, chain[..n])
    && chain[n] != "" && chain[n] != self && chain[n] !in chain[..n] && Find(table, chain[n], ws).Some?
  }

  /** A repeat-free prefix of the parent chain inside the workspace. */
  ghost predicate ChainPrefix(table: seq<Run>, ws: string, self: string, first: string, chain: seq<string>) {
    forall n | 0 <= n < |chain| :: Link(table, ws, self, first, chain, n)
  }

  /** The prefix cannot be extended: the cap, the end, a repeat, or a run outside the workspace. */
  ghost predicate CannotExtend(table: seq<Run>, ws: string, self: string, first: string, chain: seq<string>) {
    var next := NextParent(table, ws, first, chain);
    |chain| == MAX_ANCESTOR_DEPTH || next == "" || next == self || next in chain || Find(table, next, ws).None?
  }

  lemma {:induction false} ChainPush(table: seq<Run>, ws: string, self: string, first: string, chain: seq<string>,
                                     next: string)
    requires ChainPrefix(table, ws, self, first, chain) && next == NextParent(table, ws, first, chain)
    requires next != "" && next != self && next !in chain && Find(table, next, ws).Some?
    ensures ChainPrefix(table, ws, self, first, chain + [next])
    ensures NextParent(table, ws, first, chain + [next]) == Find(table, next, ws).value.parent
  {
    var longer := chain + [next];
    forall n | 0 <= n < |longer| ensures Link(table, ws, self, first, longer, n) {
      assert longer[..n] == chain[..n];
      assert chain[..|chain|] == chain;
      assert n < |chain| ==> Link(table, ws, self, first, chain, n);
    }
  }

  /** The walk returns the longest repeat-free in-workspace prefix of the parent chain. */
  method WalkAncestors(table: seq<Run>, run: Run, ws: string) returns (ancestors: seq<string>)
    ensures ChainPrefix(table, ws, run.id, run.parent, ancestors) && |ancestors| <= MAX_ANCESTOR_DEPTH
    ensures CannotExtend(table, ws, run.id, run.parent, ancestors)
  {
    var visited := {run.id};
    ancestors := [];
    var cur := run.parent;
    while cur != ""
      invariant ChainPrefix(table, ws, run.id, run.parent, ancestors) && |ancestors| <= MAX_ANCESTOR_DEPTH
      invariant cur == NextParent(table, ws, run.parent, ancestors)
      invariant visited == {run.id} + set id | id in ancestors
      decreases MAX_ANCESTOR_DEPTH - |ancestors|
    {
      if cur in visited {
        return;
      }
      if |ancestors| >= MAX_ANCESTOR_DEPTH {
        return;
      }
      visited := visited + {cur};
      var p := Find(table, cur, ws);
      if p.None? {
        return;
      }
      ChainPush(table, ws, run.id, run.parent, ancestors, cur);
      ancestors := ancestors + [cur];
      cur := p.value.parent;
    }
  }

  lemma {:induction false} ChainsAgree(table: seq<Run>, ws: string, self: string, first: string,
                                       a: seq<string>, b: seq<string>, n: nat)
    requires ChainPrefix(table, ws, self, first, a) && ChainPrefix(table, ws, self, first, b)
    requires n <= |a| && n <= |b|
    ensures a[..n] == b[..n]
    decreases n
  {
    if n > 0 {
      ChainsAgree(table, ws, self, first, a, b, n - 1);
      assert Link(table, ws, self, first, a, n - 1) && Link(table, ws, self, first, b, n - 1);
    }
  }

  /** A chain that cannot be extended contains every other chain: it is the longest. */
  lemma {:induction false} LongestChain(table: seq<Run>, ws: string, self: string, first: string, a: seq<string>,
                                        b: seq<string>)
    requires ChainPrefix(table, ws, self, first, a) && CannotExtend(table, ws, self, first, a)
    requires ChainPrefix(table, ws, self, first, b) && |b| <= MAX_ANCESTOR_DEPTH
    ensures b <= a
  {
    assert |a| < |b| ==> Link(table, ws, self, first, b, |a|);
    var n := if |a| < |b| then |a| else |b|;
    ChainsAgree(table, ws, self, first, a, b, n);
    assert a[..|a|] == a && b[..|b|] == b;
  }

  // ----- descendants: the graph -----

  predicate Eligible(r: Run, ws: string) {
    r.parent != "" && r.active && r.workspace == ws
  }

  /** The ids of the active in-workspace children of a set of runs. */
  ghost function Kids(table: seq<Run>, ws: string, parents: set<string>): set<string> {
    set r | r in table && Eligible(r, ws) && r.parent in parents :: r.id
  }

  /** c is reached from root in n child steps. */
  ghost predicate ReachedIn(table: seq<Run>, ws: string, root: string, c: string, n: nat)
    decreases n
  {
    if n == 0 then c == root
    else exists r :: r in table && Eligible(r, ws) && r.id == c && ReachedIn(table, ws, root, r.parent, n - 1)
  }

  ghost predicate IsDescendant(table: seq<Run>, ws: string, root: string, c: string) {
    exists n: nat :: n > 0 && ReachedIn(table, ws, root, c, n)
  }

  ghost predicate ReachedWithin(table: seq<Run>, ws: string, root: string, c: string, depth: nat) {
    exists n: nat :: 0 < n <= depth && ReachedIn(table, ws, root, c, n)
  }

  lemma {:induction false} ReachedNow(table: seq<Run>, ws: string, root: string, c: string, n: nat)
    requires n > 0 && ReachedIn(table, ws, root, c, n)
    ensures ReachedWithin(table, ws, root, c, n)
  {
    assert 0 < n <= n && ReachedIn(table, ws, root, c, n);
  }

  lemma {:induction false} ReachedWithinMore(table: seq<Run>, ws: string, root: string, c: string, depth: nat,
                                             more: nat)
    requires ReachedWithin(table, ws, root, c, depth) && depth <= more
    ensures ReachedWithin(table, ws, root, c, more)
  {
    var n: nat :| 0 < n <= depth && ReachedIn(table, ws, root, c, n);
    assert 0 < n <= more;
  }

  /** One more step: the run is active, in the workspace, and a child of one reached before. */
  lemma {:induction false} ReachedOnRows(table: seq<Run>, ws: string, root: string, c: string, n: nat)
    ensures ReachedIn(table, ws, root, c, n + 1) <==>
            exists r :: && r in table && r.id == c && r.active && r.workspace == ws && r.parent != ""
                        && ReachedIn(table, ws, root, r.parent, n)
  {
  }

  /** All descendants but the root itself. */
  ghost predicate Complete(table: seq<Run>, ws: string, root: string, out: seq<string>) {
    forall c | c != root && IsDescendant(table, ws, root, c) :: c in out
  }

  /** The generations of a breadth-first walk, the root left out once it reappears. */
  ghost function Generation(table: seq<Run>, ws: string, root: string, k: nat): set<string> {
    if k == 0 then {root} else Kids(table, ws, Generation(table, ws, root, k - 1)) - {root}
  }

  /** One query result: the child rows of a set of runs. */
  function ChildRows(table: seq<Run>, ws: string, parents: set<string>): seq<Run> {
    if table == [] then []
    else
      var rest, last := ChildRows(table[..|table| - 1], ws, parents), table[|table| - 1];
      if Eligible(last, ws) && last.parent in parents then rest + [last] else rest
  }

  /** A generation that leads back to the root and is wider than one query can return. */
  ghost predicate CrowdedAt(table: seq<Run>, ws: string, root: string, fanOut: nat, k: nat) {
    var g := Generation(table, ws, root, k);
    root in Kids(table, ws, g) && |ChildRows(table, ws, g)| > fanOut + 1
  }

  ghost predicate Crowded(table: seq<Run>, ws: string, root: string, fanOut: nat) {
    exists k: nat :: CrowdedAt(table, ws, root, fanOut, k)
  }

  lemma {:induction false} ClosedHoldsDescendants(table: seq<Run>, ws: string, root: string, s: set<string>,
                                                  c: string, n: nat)
    requires root in s && Kids(table, ws, s) <= s && ReachedIn(table, ws, root, c, n)
    ensures c in s
    decreases n
  {
    if n > 0 {
      var r :| r in table && Eligible(r, ws) && r.id == c && ReachedIn(table, ws, root, r.parent, n - 1);
      ClosedHoldsDescendants(table, ws, root, s, r.parent, n - 1);
      assert r.id in Kids(table, ws, s);
    }
  }

  lemma {:induction false} GenerationReached(table: seq<Run>, ws: string, root: string, c: string, k: nat)
    requires c in Generation(table, ws, root, k)
    ensures ReachedIn(table, ws, root, c, k)
    decreases k
  {
    if k > 0 {
      var r :| r in table && Eligible(r, ws) && r.parent in Generation(table, ws, root, k - 1) && r.id == c;
      GenerationReached(table, ws, root, r.parent, k - 1);
    }
  }

  /** A walk is crowded only if the root is its own descendant. */
  lemma {:induction false} CrowdedNeedsCycle(table: seq<Run>, ws: string, root: string, fanOut: nat)
    requires Crowded(table, ws, root, fanOut)
    ensures IsDescendant(table, ws, root, root)
  {
    var k: nat :| CrowdedAt(table, ws, root, fanOut, k);
    var g := Generation(table, ws, root, k);
    var r :| r in table && Eligible(r, ws) && r.parent in g && r.id == root;
    GenerationReached(table, ws, root, r.parent, k);
    assert ReachedIn(table, ws, root, root, k + 1);
  }

  lemma {:induction false} GenerationsEnd(table: seq<Run>, ws: string, root: string, k: nat, m: nat)
    requires Generation(table, ws, root, k) == {} && k <= m
    ensures Generation(table, ws, root, m) == {}
    decreases m
  {
    if k < m {
      GenerationsEnd(table, ws, root, k, m - 1);
    }
  }

  // ----- descendants: one query -----

  /** ORDER BY start_time; rows with equal times stay in table order. */
  function InsertByStart(rows: seq<Run>, r: Run): seq<Run> {
    if rows == [] || rows[|rows| - 1].startTime <= r.startTime then rows + [r]
    else InsertByStart(rows[..|rows| - 1], r) + [rows[|rows| - 1]]
  }

  function ByStart(rows: seq<Run>): seq<Run> {
    if rows == [] then [] else InsertByStart(ByStart(rows[..|rows| - 1]), rows[|rows| - 1])
  }

  lemma {:induction false} InsertByStartMembers(rows: seq<Run>, r: Run)
    requires DistinctIds(rows) && forall x <- rows :: x.id != r.id
    ensures DistinctIds(InsertByStart(rows, r)) && |InsertByStart(rows, r)| == |rows| + 1
    ensures forall x :: x in InsertByStart(rows, r) <==> x in rows || x == r
    decreases |rows|
  {
    if rows != [] {
      var init, last := rows[..|rows| - 1], rows[|rows| - 1];
      assert rows == init + [last];
      InsertByStartMembers(init, r);
      forall x | x in InsertByStart(init, r) ensures x.id != last.id {
        if x in init {
          var i :| 0 <= i < |init| && init[i] == x;
          assert rows[i].id != rows[|rows| - 1].id;
        }
      }
    }
  }

  lemma {:induction false} ByStartMembers(rows: seq<Run>)
    requires DistinctIds(rows)
    ensures DistinctIds(ByStart(rows)) && |ByStart(rows)| == |rows|
    ensures forall x :: x in ByStart(rows) <==> x in rows
    decreases |rows|
  {
    if rows != [] {
      var init, last := rows[..|rows| - 1], rows[|rows| - 1];
      assert rows == init + [last];
      ByStartMembers(init);
      forall x | x in ByStart(init) ensures x.id != last.id {
        var i :| 0 <= i < |init| && init[i] == x;
        assert rows[i].id != rows[|rows| - 1].id;
      }
      InsertByStartMembers(ByStart(init), last);
    }
  }

  ghost predicate StartsAscend(rows: seq<Run>) {
    forall i, j | 0 <= i < j < |rows| :: rows[i].startTime <= rows[j].startTime
  }

  lemma {:induction false} InsertByStartSorted(rows: seq<Run>, r: Run)
    requires StartsAscend(rows)
    ensures StartsAscend(InsertByStart(rows, r))
    ensures forall x <- InsertByStart(rows, r) :: x in rows || x == r
    decreases |rows|
  {
    if rows != [] && rows[|rows| - 1].startTime > r.startTime {
      var init, last := rows[..|rows| - 1], rows[|rows| - 1];
      InsertByStartSorted(init, r);
      forall x | x in InsertByStart(init, r) ensures x.startTime <= last.startTime {
        if x in init {
          var i :| 0 <= i < |init| && init[i] == x;
          assert rows[i].startTime <= rows[|rows| - 1].startTime;
        }
      }
    }
  }

  lemma {:induction false} ByStartSorted(rows: seq<Run>)
    ensures StartsAscend(ByStart(rows))
  {
    if rows != [] {
      ByStartSorted(rows[..|rows| - 1]);
      InsertByStartSorted(ByStart(rows[..|rows| - 1]), rows[|rows| - 1]);
    }
  }

  lemma {:induction false} ChildRowsMembers(table: seq<Run>, ws: string, parents: set<string>)
    requires DistinctIds(table)
    ensures DistinctIds(ChildRows(table, ws, parents))
    ensures forall r :: r in ChildRows(table, ws, parents) <==> r in table && Eligible(r, ws) && r.parent in parents
    decreases |table|
  {
    if table != [] {
      var init, last := table[..|table| - 1], table[|table| - 1];
      assert table == init + [last];
      ChildRowsMembers(init, ws, parents);
      forall r | r in ChildRows(init, ws, parents) ensures r.id != last.id {
        var i :| 0 <= i < |init| && init[i] == r;
        assert table[i].id != table[|table| - 1].id;
      }
    }
  }


  /** The ids of rows that have not been visited, in order. */
  function Unseen(rows: seq<Run>, visited: set<string>): seq<string> {
    if rows == [] then []
    else
      var rest, last := Unseen(rows[..|rows| - 1], visited), rows[|rows| - 1];
      if last.id in visited then rest else rest + [last.id]
  }

  ghost function Ids(rows: seq<Run>): set<string> {
    set r | r in rows :: r.id
  }

  lemma {:induction false} IdsPush(rows: seq<Run>, r: Run)
    ensures Ids(rows + [r]) == Ids(rows) + {r.id}
  {
  }

  lemma {:induction false} NewId(rows: seq<Run>)
    requires DistinctIds(rows) && rows != []
    ensures DistinctIds(rows[..|rows| - 1]) && rows[|rows| - 1].id !in Ids(rows[..|rows| - 1])
    ensures Ids(rows) == Ids(rows[..|rows| - 1]) + {rows[|rows| - 1].id}
  {
    var init, last := rows[..|rows| - 1], rows[|rows| - 1];
    assert rows == init + [last];
    IdsPush(init, last);
    forall r | r in init ensures r.id != last.id {
      var i :| 0 <= i < |init| && init[i] == r;
      assert rows[i].id != rows[|rows| - 1].id;
    }
  }

  lemma {:induction false} DistinctPush(ids: seq<string>, id: string)
    requires Distinct(ids) && id !in ids
    ensures Distinct(ids + [id])
  {
  }

  lemma {:induction false} UnseenMembers(rows: seq<Run>, visited: set<string>)
    requires DistinctIds(rows)
    ensures forall id :: id in Unseen(rows, visited) <==> id !in visited && id in Ids(rows)
    ensures Distinct(Unseen(rows, visited))
    decreases |rows|
  {
    if rows != [] {
      var init, last := rows[..|rows| - 1], rows[|rows| - 1];
      UnseenMembers(init, visited);
      NewId(rows);
      DistinctPush(Unseen(init, visited), last.id);
    }
  }

  lemma {:induction false} AllUnseen(rows: seq<Run>, visited: set<string>)
    ensures Ids(rows) !! visited ==> |Unseen(rows, visited)| == |rows|
    decreases |rows|
  {
    if rows != [] {
      var init, last := rows[..|rows| - 1], rows[|rows| - 1];
      assert rows == init + [last];
      AllUnseen(init, visited);
      IdsPush(init, last);
    }
  }

  /** What a LIMIT fanOut + 1 query over one generation returns. */
  function Fetched(table: seq<Run>, ws: string, frontier: set<string>, fanOut: nat): seq<Run> {
    var rows := ByStart(ChildRows(table, ws, frontier));
    if |rows| > fanOut + 1 then rows[..fanOut + 1] else rows
  }

  lemma {:induction false} CutFirst(rows: seq<Run>, n: nat, x: Run, y: Run)
    requires StartsAscend(rows) && y in rows
    requires var cut := if |rows| > n then rows[..n] else rows; x in cut && y !in cut
    ensures |rows| > n && x in rows && x.startTime <= y.startTime && StartsAscend(rows[..n])
  {
    var i :| 0 <= i < n && rows[..n][i] == x;
    var j :| 0 <= j < |rows| && rows[j] == y;
    assert rows[i] == x;
  }

  /** A query returns the children that started first: no fetched one started after one left out. */
  lemma {:induction false} FetchedFirst(table: seq<Run>, ws: string, frontier: set<string>, fanOut: nat, x: Run, y: Run)
    requires DistinctIds(table) && x in Fetched(table, ws, frontier, fanOut)
    requires y in table && Eligible(y, ws) && y.parent in frontier && y !in Fetched(table, ws, frontier, fanOut)
    ensures x in table && Eligible(x, ws) && x.parent in frontier && x.startTime <= y.startTime
    ensures StartsAscend(Fetched(table, ws, frontier, fanOut)) && |Fetched(table, ws, frontier, fanOut)| == fanOut + 1
  {
    ChildRowsMembers(table, ws, frontier);
    ByStartMembers(ChildRows(table, ws, frontier));
    ByStartSorted(ChildRows(table, ws, frontier));
    CutFirst(ByStart(ChildRows(table, ws, frontier)), fanOut + 1, x, y);
  }

  /** Read one query result: visit at most fanOut unseen runs, note whether there were more. */
  method ScanLevel(rows: seq<Run>, visited: set<string>, fanOut: nat) returns (next: seq<string>, more: bool)
    requires DistinctIds(rows)
    ensures IsNext(rows, visited, fanOut, next, more)
  {
    next, more := [], false;
    var visited' := visited;
    ghost var unseen := [];
    for i := 0 to |rows|
      invariant unseen == Unseen(rows[..i], visited)
      invariant next == if |unseen| > fanOut then unseen[..fanOut] else unseen
      invariant more == (|unseen| > fanOut)
      invariant visited' == visited + set id | id in next
      invariant forall id | id in unseen :: exists j | 0 <= j < i :: rows[j].id == id
    {
      assert rows[..i + 1][..i] == rows[..i];
      if rows[i].id !in visited {
        unseen := unseen + [rows[i].id];
      }
      if rows[i].id !in visited' {
        if |next| >= fanOut {
          more := true;
        } else {
          visited' := visited' + {rows[i].id};
          next := next + [rows[i].id];
        }
      }
    }
    assert rows[..|rows|] == rows;
  }

  // ----- descendants: the walk -----

  ghost predicate HasExpandedParent(table: seq<Run>, ws: string, c: string, expanded: set<string>) {
    exists r :: r in table && Eligible(r, ws) && r.id == c && r.parent in expanded
  }

  /** What was output; visited minus frontier are the runs whose children have been asked for. */
  ghost predicate Outputs(table: seq<Run>, ws: string, root: string,
                          visited: set<string>, out: seq<string>, frontier: set<string>) {
    && visited == {root} + Elems(out) && Distinct(out) && root !in out && frontier <= visited
    && (forall c {:trigger HasExpandedParent(table, ws, c, visited - frontier)} | c in out ::
          HasExpandedParent(table, ws, c, visited - frontier))
  }

  ghost predicate Depths(table: seq<Run>, ws: string, root: string, level: nat, out: seq<string>,
                         frontier: set<string>) {
    && (forall c {:trigger ReachedWithin(table, ws, root, c, level)} | c in out ::
          ReachedWithin(table, ws, root, c, level))
    && (forall c {:trigger ReachedIn(table, ws, root, c, level)} | c in frontier ::
          ReachedIn(table, ws, root, c, level))
  }

  /** Distinct unvisited children of the frontier. */
  ghost predicate FreshKids(table: seq<Run>, ws: string, visited: set<string>, frontier: set<string>,
                            next: seq<string>) {
    Distinct(next) && forall c | c in next :: c in Kids(table, ws, frontier) && c !in visited
  }

  /** Nothing has been missed so far. */
  ghost predicate Whole(table: seq<Run>, ws: string, root: string, fanOut: nat, level: nat,
                        visited: set<string>, frontier: set<string>) {
    && frontier == Generation(table, ws, root, level)
    && Kids(table, ws, visited - frontier) <= visited
    && (forall k: nat | k < level :: !CrowdedAt(table, ws, root, fanOut, k))
  }

  /** A child was missed for good: its parent is expanded and it was not visited. */
  ghost predicate Lost(table: seq<Run>, ws: string, visited: set<string>, frontier: set<string>) {
    exists r :: r in table && Eligible(r, ws) && r.parent in visited - frontier && r.id !in visited
  }

  lemma {:induction false} SameRow(table: seq<Run>, r: Run, s: Run)
    requires DistinctIds(table) && r in table && s in table && r.id == s.id
    ensures r == s
  {
  }

  /** A run has one parent, so of the children of the frontier only the root can have been visited. */
  lemma {:induction false} KidsUnseen(table: seq<Run>, ws: string, root: string,
                                      visited: set<string>, out: seq<string>, frontier: set<string>)
    requires DistinctIds(table) && Outputs(table, ws, root, visited, out, frontier)
    ensures Kids(table, ws, frontier) * visited <= {root}
  {
    forall r, c | r in table && Eligible(r, ws) && r.parent in frontier && c in out ensures r.id != c {
      assert HasExpandedParent(table, ws, c, visited - frontier);
      var s :| s in table && Eligible(s, ws) && s.id == c && s.parent in visited - frontier;
      if r.id == c {
        SameRow(table, r, s);
      }
    }
  }

  lemma {:induction false} StepOutputs(table: seq<Run>, ws: string, root: string, visited: set<string>,
                                       out: seq<string>, frontier: set<string>, next: seq<string>)
    requires Outputs(table, ws, root, visited, out, frontier) && FreshKids(table, ws, visited, frontier, next)
    ensures Outputs(table, ws, root, visited + Elems(next), out + next, Elems(next))
  {
    var expanded := visited + Elems(next) - Elems(next);
    assert expanded == visited;
    forall c | c in out ensures HasExpandedParent(table, ws, c, expanded) {
      assert HasExpandedParent(table, ws, c, visited - frontier);
    }
    forall c | c in next ensures HasExpandedParent(table, ws, c, expanded) {
      assert c in Kids(table, ws, frontier);
    }
    forall i | 0 <= i < |out| ensures out[i] in visited {
      assert out[i] in Elems(out);
    }
  }

  lemma {:induction false} StepDepths(table: seq<Run>, ws: string, root: string, level: nat, visited: set<string>,
                                      out: seq<string>, frontier: set<string>, next: seq<string>)
    requires Depths(table, ws, root, level, out, frontier) && FreshKids(table, ws, visited, frontier, next)
    ensures Depths(table, ws, root, level + 1, out + next, Elems(next))
  {
    forall c | c in out ensures ReachedWithin(table, ws, root, c, level + 1) {
      ReachedWithinMore(table, ws, root, c, level, level + 1);
    }
    forall c | c in next
      ensures ReachedIn(table, ws, root, c, level + 1) && ReachedWithin(table, ws, root, c, level + 1)
    {
      assert c in Kids(table, ws, frontier);
      var r :| r in table && Eligible(r, ws) && r.parent in frontier && r.id == c;
      assert ReachedIn(table, ws, root, r.parent, level);
      assert ReachedIn(table, ws, root, c, level + 1);
      ReachedNow(table, ws, root, c, level + 1);
    }
  }

  /** A level whose query returned every row misses nothing. */
  lemma {:induction false} StepWhole(table: seq<Run>, ws: string, root: string, fanOut: nat, level: nat,
                                     visited: set<string>, frontier: set<string>, found: set<string>)
    requires Whole(table, ws, root, fanOut, level, visited, frontier) && frontier <= visited && root in visited
    requires Kids(table, ws, frontier) * visited <= {root} && found == Kids(table, ws, frontier) - visited
    requires |ChildRows(table, ws, frontier)| <= fanOut + 1
    ensures Whole(table, ws, root, fanOut, level + 1, visited + found, found)
  {
  }

  /** A level cut short without notice leaves a child behind. */
  lemma {:induction false} StepMissed(table: seq<Run>, ws: string, root: string, visited: set<string>,
                                      frontier: set<string>, next: seq<string>, r: Run)
    requires FreshKids(table, ws, visited, frontier, next) && frontier <= visited
    requires Kids(table, ws, frontier) * visited <= {root}
    requires r in table && Eligible(r, ws) && r.parent in frontier && r.id != root && r.id !in next
    ensures Lost(table, ws, visited + Elems(next), Elems(next))
  {
    assert r.id in Kids(table, ws, frontier);
    assert r.id !in Kids(table, ws, frontier) * visited;
    assert visited + Elems(next) - Elems(next) == visited && r.id !in visited + Elems(next);
  }

  /** A missed child is never met later. */
  lemma {:induction false} StepLost(table: seq<Run>, ws: string, visited: set<string>, frontier: set<string>,
                                    next: seq<string>)
    requires DistinctIds(table) && FreshKids(table, ws, visited, frontier, next) && Lost(table, ws, visited, frontier)
    ensures Lost(table, ws, visited + Elems(next), Elems(next))
  {
  }

  // ----- what one query contributes -----

  /** The rows one query returns. */
  lemma {:induction false} FetchedRows(table: seq<Run>, ws: string, frontier: set<string>, fanOut: nat)
    requires DistinctIds(table)
    ensures var all, rows := ByStart(ChildRows(table, ws, frontier)), Fetched(table, ws, frontier, fanOut);
            && DistinctIds(all) && DistinctIds(rows) && rows <= all && |all| == |ChildRows(table, ws, frontier)|
            && Ids(rows) <= Ids(all) == Kids(table, ws, frontier)
            && (|all| <= fanOut + 1 ==> rows == all) && (|all| > fanOut + 1 ==> |rows| == fanOut + 1)
            && (forall r :: r in all <==> r in table && Eligible(r, ws) && r.parent in frontier)
  {
    ChildRowsMembers(table, ws, frontier);
    ByStartMembers(ChildRows(table, ws, frontier));
    var all, rows := ByStart(ChildRows(table, ws, frontier)), Fetched(table, ws, frontier, fanOut);
    assert forall r | r in rows :: r in all;
    assert Ids(all) == Kids(table, ws, frontier);
  }

  ghost predicate IsNext(rows: seq<Run>, visited: set<string>, fanOut: nat, next: seq<string>, more: bool) {
    var unseen := Unseen(rows, visited);
    next == (if |unseen| > fanOut then unseen[..fanOut] else unseen) && more == (|unseen| > fanOut)
  }

  lemma {:induction false} NextMembers(table: seq<Run>, ws: string, visited: set<string>, frontier: set<string>,
                                       fanOut: nat, next: seq<string>, more: bool)
    requires DistinctIds(table) && IsNext(Fetched(table, ws, frontier, fanOut), visited, fanOut, next, more)
    ensures FreshKids(table, ws, visited, frontier, next)
    ensures Elems(next) <= Ids(Fetched(table, ws, frontier, fanOut))
    ensures !more ==> Elems(next) == Ids(Fetched(table, ws, frontier, fanOut)) - visited
  {
    FetchedRows(table, ws, frontier, fanOut);
    var rows := Fetched(table, ws, frontier, fanOut);
    UnseenMembers(rows, visited);
    forall c | c in next ensures c in Unseen(rows, visited) {
    }
  }

  /** A full query that shows no surplus has spent one of its rows on the root. */
  lemma {:induction false} RootFetched(table: seq<Run>, ws: string, root: string, visited: set<string>,
                                       frontier: set<string>, fanOut: nat, next: seq<string>)
    requires DistinctIds(table) && Kids(table, ws, frontier) * visited <= {root}
    requires IsNext(Fetched(table, ws, frontier, fanOut), visited, fanOut, next, false)
    requires |ChildRows(table, ws, frontier)| > fanOut + 1
    ensures root in Ids(Fetched(table, ws, frontier, fanOut)) && root in Kids(table, ws, frontier)
  {
    FetchedRows(table, ws, frontier, fanOut);
    var rows := Fetched(table, ws, frontier, fanOut);
    AllUnseen(rows, visited);
    var id :| id in Ids(rows) && id in visited;
    assert id in Kids(table, ws, frontier) * visited;
  }

  lemma {:induction false} RowMissed(table: seq<Run>, ws: string, frontier: set<string>, fanOut: nat) returns (r: Run)
    requires DistinctIds(table) && |ChildRows(table, ws, frontier)| > fanOut + 1
    ensures r in table && Eligible(r, ws) && r.parent in frontier
    ensures r.id !in Ids(Fetched(table, ws, frontier, fanOut))
  {
    FetchedRows(table, ws, frontier, fanOut);
    var all := ByStart(ChildRows(table, ws, frontier));
    r := all[fanOut + 1];
    assert r in all;
    forall x | x in Fetched(table, ws, frontier, fanOut) ensures x.id != r.id {
      var i :| 0 <= i < fanOut + 1 && all[i] == x;
      assert all[i].id != all[fanOut + 1].id;
    }
  }

  /** One level without notice of truncation: either nothing is missed, or the level is crowded and something is. */
  lemma {:induction false} LevelOutcome(table: seq<Run>, ws: string, root: string, fanOut: nat, level: nat,
                                        visited: set<string>, out: seq<string>, frontier: set<string>,
                                        next: seq<string>)
    requires DistinctIds(table) && Outputs(table, ws, root, visited, out, frontier)
    requires Whole(table, ws, root, fanOut, level, visited, frontier)
    requires IsNext(Fetched(table, ws, frontier, fanOut), visited, fanOut, next, false)
    ensures |ChildRows(table, ws, frontier)| <= fanOut + 1 ==>
              Whole(table, ws, root, fanOut, level + 1, visited + Elems(next), Elems(next))
    ensures |ChildRows(table, ws, frontier)| > fanOut + 1 ==>
              CrowdedAt(table, ws, root, fanOut, level) && Lost(table, ws, visited + Elems(next), Elems(next))
  {
    NextMembers(table, ws, visited, frontier, fanOut, next, false);
    KidsUnseen(table, ws, root, visited, out, frontier);
    FetchedRows(table, ws, frontier, fanOut);
    if |ChildRows(table, ws, frontier)| <= fanOut + 1 {
      StepWhole(table, ws, root, fanOut, level, visited, frontier, Elems(next));
    } else {
      RootFetched(table, ws, root, visited, frontier, fanOut, next);
      var r := RowMissed(table, ws, frontier, fanOut);
      StepMissed(table, ws, root, visited, frontier, next, r);
    }
  }

  /** A level with more unseen rows than the fan-out leaves one of them behind, and says so. */
  lemma {:induction false} StepOverflow(table: seq<Run>, ws: string, visited: set<string>, frontier: set<string>,
                                        fanOut: nat, next: seq<string>)
    requires DistinctIds(table) && frontier <= visited
    requires IsNext(Fetched(table, ws, frontier, fanOut), visited, fanOut, next, true)
    ensures Lost(table, ws, visited + Elems(next), Elems(next))
  {
    FetchedRows(table, ws, frontier, fanOut);
    var rows := Fetched(table, ws, frontier, fanOut);
    UnseenMembers(rows, visited);
    var unseen := Unseen(rows, visited);
    assert unseen[fanOut] in unseen && unseen[fanOut] !in next;
    assert unseen[fanOut] in Ids(rows);
    var r :| r in rows && r.id == unseen[fanOut];
    forall c | c in next ensures c !in visited {
      assert c in unseen;
    }
    assert visited + Elems(next) - Elems(next) == visited;
  }

  // ----- the walk as a function -----

  /** What a walk has returned, the runs whose children it asks for next, and whether a level overflowed. */
  datatype Walk = Walk(out: seq<string>, frontier: seq<string>, overflowed: bool)

  function Visited(root: string, w: Walk): set<string> {
    {root} + Elems(w.out)
  }

  /** The unseen rows of the next query, in order of their start. */
  function Found(table: seq<Run>, ws: string, root: string, fanOut: nat, w: Walk): seq<string> {
    Unseen(Fetched(table, ws, Elems(w.frontier), fanOut), Visited(root, w))
  }

  /** One level: the first of the unseen rows, as many as the fan-out allows. */
  function Advance(table: seq<Run>, ws: string, root: string, fanOut: nat, w: Walk): Walk {
    var found := Found(table, ws, root, fanOut, w);
    var next := if |found| > fanOut then found[..fanOut] else found;
    Walk(w.out + next, next, w.overflowed || |found| > fanOut)
  }

  /** A walk stops when a level brings nothing. */
  function NextLevel(table: seq<Run>, ws: string, root: string, fanOut: nat, w: Walk): Walk {
    if w.frontier == [] then w else Advance(table, ws, root, fanOut, w)
  }

  /** The walk after at most `n` levels. */
  function Levels(table: seq<Run>, ws: string, root: string, fanOut: nat, n: nat): Walk {
    if n == 0 then Walk([], [root], false)
    else NextLevel(table, ws, root, fanOut, Levels(table, ws, root, fanOut, n - 1))
  }

  lemma {:induction false} LevelsStop(table: seq<Run>, ws: string, root: string, fanOut: nat, n: nat, m: nat, w: Walk)
    requires n <= m && Levels(table, ws, root, fanOut, n) == w && w.frontier == []
    ensures Levels(table, ws, root, fanOut, m) == w
    decreases m
  {
    if n < m {
      LevelsStop(table, ws, root, fanOut, n, m - 1, w);
    }
  }

  /** Level `k` of the walk finds more runs than the fan-out. */
  ghost predicate OverflowsAt(table: seq<Run>, ws: string, root: string, fanOut: nat, k: nat) {
    var w := Levels(table, ws, root, fanOut, k);
    w.frontier != [] && |Found(table, ws, root, fanOut, w)| > fanOut
  }

  lemma {:induction false} OverflowedStep(table: seq<Run>, ws: string, root: string, fanOut: nat, k: nat)
    ensures Levels(table, ws, root, fanOut, k + 1).overflowed
       <==> Levels(table, ws, root, fanOut, k).overflowed || OverflowsAt(table, ws, root, fanOut, k)
  {
    var w := Levels(table, ws, root, fanOut, k);
    assert Levels(table, ws, root, fanOut, k + 1) == NextLevel(table, ws, root, fanOut, w);
  }

  lemma {:induction false} FlagStays(table: seq<Run>, ws: string, root: string, fanOut: nat, k: nat, n: nat)
    requires k <= n && Levels(table, ws, root, fanOut, k).overflowed
    ensures Levels(table, ws, root, fanOut, n).overflowed
    decreases n
  {
    if k < n {
      FlagStays(table, ws, root, fanOut, k, n - 1);
      OverflowedStep(table, ws, root, fanOut, n - 1);
    }
  }

  /** The flag of the walk is raised by a level that overflows ... */
  lemma {:induction false} OverflowIsNoted(table: seq<Run>, ws: string, root: string, fanOut: nat, k: nat, n: nat)
    requires k < n && OverflowsAt(table, ws, root, fanOut, k)
    ensures Levels(table, ws, root, fanOut, n).overflowed
  {
    OverflowedStep(table, ws, root, fanOut, k);
    FlagStays(table, ws, root, fanOut, k + 1, n);
  }

  /** ... and by nothing else. */
  lemma {:induction false} NotedIsOverflow(table: seq<Run>, ws: string, root: string, fanOut: nat, n: nat)
      returns (k: nat)
    requires Levels(table, ws, root, fanOut, n).overflowed
    ensures k < n && OverflowsAt(table, ws, root, fanOut, k)
  {
    OverflowedStep(table, ws, root, fanOut, n - 1);
    k := n - 1;
    if Levels(table, ws, root, fanOut, n - 1).overflowed {
      k := NotedIsOverflow(table, ws, root, fanOut, n - 1);
    }
  }

  /** Every run reached in at most `level` steps has been visited. */
  ghost predicate Reaped(table: seq<Run>, ws: string, root: string, level: nat, visited: set<string>) {
    forall c, n: nat | n <= level && ReachedIn(table, ws, root, c, n) :: c in visited
  }

  lemma {:induction false} StepReaped(table: seq<Run>, ws: string, root: string, level: nat, visited: set<string>,
                                      frontier: set<string>, found: set<string>)
    requires Reaped(table, ws, root, level, visited)
    requires Kids(table, ws, visited - frontier) <= visited && Kids(table, ws, frontier) <= visited + found
    ensures Reaped(table, ws, root, level + 1, visited + found)
  {
    forall c, n: nat | n <= level + 1 && ReachedIn(table, ws, root, c, n) ensures c in visited + found {
      if n > 0 {
        var r :| r in table && Eligible(r, ws) && r.id == c && ReachedIn(table, ws, root, r.parent, n - 1);
        assert r.parent in visited;
        assert c in Kids(table, ws, visited - frontier) || c in Kids(table, ws, frontier);
      } else {
        assert ReachedIn(table, ws, root, c, 0);
      }
    }
  }

  /** No level before `n` is crowded. */
  ghost predicate Uncrowded(table: seq<Run>, ws: string, root: string, fanOut: nat, n: nat) {
    forall k: nat | k < n :: !CrowdedAt(table, ws, root, fanOut, k)
  }

  /**
   * The invariant of the walk after `n` levels: it has missed nothing, or it has lost a run for good;
   * in the second case a level overflowed or a generation is crowded.
   */
  ghost predicate Walking(table: seq<Run>, ws: string, root: string, fanOut: nat, level: nat, w: Walk) {
    var visited, frontier := Visited(root, w), Elems(w.frontier);
    && Outputs(table, ws, root, visited, w.out, frontier)
    && Depths(table, ws, root, level, w.out, frontier)
    && (if !w.overflowed && Uncrowded(table, ws, root, fanOut, level)
        then Whole(table, ws, root, fanOut, level, visited, frontier) && Reaped(table, ws, root, level, visited)
        else Lost(table, ws, visited, frontier))
  }

  lemma {:induction false} WalkBegins(table: seq<Run>, ws: string, root: string, fanOut: nat)
    ensures Walking(table, ws, root, fanOut, 0, Walk([], [root], false))
  {
    var w := Walk([], [root], false);
    assert Elems(w.frontier) == {root} == Visited(root, w);
    assert Kids(table, ws, {}) == {};
  }

  lemma {:induction false} UncrowdedStep(table: seq<Run>, ws: string, root: string, fanOut: nat, n: nat)
    ensures Uncrowded(table, ws, root, fanOut, n + 1)
        <==> Uncrowded(table, ws, root, fanOut, n) && !CrowdedAt(table, ws, root, fanOut, n)
  {
  }

  /** A level without overflow, after levels that missed nothing. */
  lemma {:induction false} AdvanceWhole(table: seq<Run>, ws: string, root: string, fanOut: nat, level: nat, w: Walk)
    requires DistinctIds(table) && Walking(table, ws, root, fanOut, level, w)
    requires !Advance(table, ws, root, fanOut, w).overflowed && Uncrowded(table, ws, root, fanOut, level)
    ensures var t := Advance(table, ws, root, fanOut, w); var visited, frontier := Visited(root, t), Elems(t.frontier);
      if CrowdedAt(table, ws, root, fanOut, level) then Lost(table, ws, visited, frontier)
      else Whole(table, ws, root, fanOut, level + 1, visited, frontier) && Reaped(table, ws, root, level + 1, visited)
  {
    var visited, frontier := Visited(root, w), Elems(w.frontier);
    var next := Advance(table, ws, root, fanOut, w).frontier;
    NextMembers(table, ws, visited, frontier, fanOut, next, false);
    assert Visited(root, Advance(table, ws, root, fanOut, w)) == visited + Elems(next);
    LevelOutcome(table, ws, root, fanOut, level, visited, w.out, frontier, next);
    if |ChildRows(table, ws, frontier)| <= fanOut + 1 {
      FetchedRows(table, ws, frontier, fanOut);
      StepReaped(table, ws, root, level, visited, frontier, Elems(next));
    }
  }

  lemma {:induction false} WalkAdvances(table: seq<Run>, ws: string, root: string, fanOut: nat, level: nat, w: Walk)
    requires DistinctIds(table) && Walking(table, ws, root, fanOut, level, w)
    ensures Walking(table, ws, root, fanOut, level + 1, Advance(table, ws, root, fanOut, w))
  {
    var visited, frontier := Visited(root, w), Elems(w.frontier);
    var t := Advance(table, ws, root, fanOut, w);
    var more := |Found(table, ws, root, fanOut, w)| > fanOut;
    NextMembers(table, ws, visited, frontier, fanOut, t.frontier, more);
    StepOutputs(table, ws, root, visited, w.out, frontier, t.frontier);
    StepDepths(table, ws, root, level, visited, w.out, frontier, t.frontier);
    assert Visited(root, t) == visited + Elems(t.frontier);
    UncrowdedStep(table, ws, root, fanOut, level);
    if !w.overflowed && Uncrowded(table, ws, root, fanOut, level) {
      if more {
        StepOverflow(table, ws, visited, frontier, fanOut, t.frontier);
      } else {
        AdvanceWhole(table, ws, root, fanOut, level, w);
      }
    } else {
      StepLost(table, ws, visited, frontier, t.frontier);
    }
  }

  /** After a level that brought nothing, nothing changes: later generations are empty too. */
  lemma {:induction false} WalkRests(table: seq<Run>, ws: string, root: string, fanOut: nat, level: nat, w: Walk)
    requires DistinctIds(table) && Walking(table, ws, root, fanOut, level, w) && w.frontier == []
    ensures Walking(table, ws, root, fanOut, level + 1, w)
  {
    assert Elems(w.frontier) == {};
    forall c | c in w.out ensures ReachedWithin(table, ws, root, c, level + 1) {
      ReachedWithinMore(table, ws, root, c, level, level + 1);
    }
    UncrowdedStep(table, ws, root, fanOut, level);
    if !w.overflowed && Uncrowded(table, ws, root, fanOut, level) {
      assert Generation(table, ws, root, level) == {};
      assert Kids(table, ws, {}) == {};
      StepReaped(table, ws, root, level, Visited(root, w), {}, {});
      assert Visited(root, w) + {} == Visited(root, w);
    }
  }

  lemma {:induction false} NextWalks(table: seq<Run>, ws: string, root: string, fanOut: nat, level: nat, w: Walk)
    requires DistinctIds(table) && Walking(table, ws, root, fanOut, level, w)
    ensures Walking(table, ws, root, fanOut, level + 1, NextLevel(table, ws, root, fanOut, w))
  {
    if w.frontier == [] {
      WalkRests(table, ws, root, fanOut, level, w);
    } else {
      WalkAdvances(table, ws, root, fanOut, level, w);
    }
  }

  lemma {:induction false} LevelsWalk(table: seq<Run>, ws: string, root: string, fanOut: nat, n: nat)
    requires DistinctIds(table)
    ensures Walking(table, ws, root, fanOut, n, Levels(table, ws, root, fanOut, n))
  {
    if n == 0 {
      WalkBegins(table, ws, root, fanOut);
    } else {
      LevelsWalk(table, ws, root, fanOut, n - 1);
      NextWalks(table, ws, root, fanOut, n - 1, Levels(table, ws, root, fanOut, n - 1));
    }
  }

  // ----- what a walk returns -----

  lemma {:induction false} LostIsIncomplete(table: seq<Run>, ws: string, root: string, level: nat, w: Walk)
    requires Outputs(table, ws, root, Visited(root, w), w.out, Elems(w.frontier))
    requires Depths(table, ws, root, level, w.out, Elems(w.frontier)) &&
             Lost(table, ws, Visited(root, w), Elems(w.frontier))
    ensures !Complete(table, ws, root, w.out)
  {
    var visited := Visited(root, w);
    var r :| r in table && Eligible(r, ws) && r.parent in visited - Elems(w.frontier) && r.id !in visited;
    var n := 0;
    if r.parent == root {
      assert ReachedIn(table, ws, root, r.parent, n);
    } else {
      assert ReachedWithin(table, ws, root, r.parent, level);
      n :| 0 < n <= level && ReachedIn(table, ws, root, r.parent, n);
    }
    assert ReachedIn(table, ws, root, r.id, n + 1);
    assert IsDescendant(table, ws, root, r.id);
  }

  /** Distinct runs, never the root, each reached within the depth limit. */
  lemma {:induction false} WalkIsSound(table: seq<Run>, ws: string, root: string, fanOut: nat, maxDepth: nat)
    requires DistinctIds(table)
    ensures var out := Levels(table, ws, root, fanOut, maxDepth).out;
      Distinct(out) && root !in out && forall c <- out :: ReachedWithin(table, ws, root, c, maxDepth)
  {
    LevelsWalk(table, ws, root, fanOut, maxDepth);
  }

  /**
   * The depth limit alone: if no level overflowed and no generation up to the limit is crowded, the
   * walk returns exactly the runs reached within the limit. Otherwise it has lost a run for good.
   */
  lemma {:induction false} WalkReturns(table: seq<Run>, ws: string, root: string, fanOut: nat, maxDepth: nat)
    requires DistinctIds(table)
    ensures var w := Levels(table, ws, root, fanOut, maxDepth);
      if !w.overflowed && Uncrowded(table, ws, root, fanOut, maxDepth)
      then forall c :: c in w.out <==> c != root && ReachedWithin(table, ws, root, c, maxDepth)
      else !Complete(table, ws, root, w.out)
  {
    var w := Levels(table, ws, root, fanOut, maxDepth);
    LevelsWalk(table, ws, root, fanOut, maxDepth);
    if !w.overflowed && Uncrowded(table, ws, root, fanOut, maxDepth) {
      forall c | c != root && ReachedWithin(table, ws, root, c, maxDepth) ensures c in w.out {
        var n: nat :| 0 < n <= maxDepth && ReachedIn(table, ws, root, c, n);
        assert c in Visited(root, w);
      }
    } else {
      LostIsIncomplete(table, ws, root, maxDepth, w);
    }
  }

  lemma {:induction false} WholeIsComplete(table: seq<Run>, ws: string, root: string, level: nat,
                                           visited: set<string>, out: seq<string>, fanOut: nat)
    requires Outputs(table, ws, root, visited, out, {}) && Whole(table, ws, root, fanOut, level, visited, {})
    ensures Complete(table, ws, root, out) && !Crowded(table, ws, root, fanOut)
  {
    assert visited - {} == visited;
    forall c | c != root && IsDescendant(table, ws, root, c) ensures c in out {
      var n: nat :| n > 0 && ReachedIn(table, ws, root, c, n);
      ClosedHoldsDescendants(table, ws, root, visited, c, n);
    }
    forall k: nat ensures !CrowdedAt(table, ws, root, fanOut, k) {
      if k >= level {
        GenerationsEnd(table, ws, root, level, k);
      }
    }
  }

  /** A walk that does not report truncation found every descendant exactly when no generation is crowded. */
  lemma {:induction false} UntruncatedWalk(table: seq<Run>, ws: string, root: string, fanOut: nat, maxDepth: nat)
    requires DistinctIds(table)
    ensures var w := Levels(table, ws, root, fanOut, maxDepth);
      !w.overflowed && w.frontier == [] ==> (Complete(table, ws, root, w.out) <==> !Crowded(table, ws, root, fanOut))
  {
    var w := Levels(table, ws, root, fanOut, maxDepth);
    if !w.overflowed && w.frontier == [] {
      LevelsWalk(table, ws, root, fanOut, maxDepth);
      WalkReturns(table, ws, root, fanOut, maxDepth);
      assert Elems(w.frontier) == {};
      if Uncrowded(table, ws, root, fanOut, maxDepth) {
        WholeIsComplete(table, ws, root, maxDepth, Visited(root, w), w.out, fanOut);
      }
    }
  }

  /** A walk that is neither truncated nor led back to its root returns every descendant. */
  lemma {:induction false} AcyclicWalkIsComplete(table: seq<Run>, ws: string, root: string, fanOut: nat,
                                                 out: seq<string>)
    requires Complete(table, ws, root, out) <==> !Crowded(table, ws, root, fanOut)
    ensures !IsDescendant(table, ws, root, root) ==> Complete(table, ws, root, out)
  {
    if Crowded(table, ws, root, fanOut) {
      CrowdedNeedsCycle(table, ws, root, fanOut);
    }
  }

  /** Ask for the children of one generation. */
  method QueryLevel(table: seq<Run>, ws: string, parents: set<string>, visited: set<string>, fanOut: nat)
    returns (next: seq<string>, more: bool)
    requires DistinctIds(table)
    ensures IsNext(Fetched(table, ws, parents, fanOut), visited, fanOut, next, more)
  {
    FetchedRows(table, ws, parents, fanOut);
    next, more := ScanLevel(Fetched(table, ws, parents, fanOut), visited, fanOut);
  }

  lemma {:induction false} LevelIsNext(table: seq<Run>, ws: string, root: string, fanOut: nat, w: Walk,
                                       next: seq<string>, more: bool)
    requires w.frontier != []
    requires IsNext(Fetched(table, ws, Elems(w.frontier), fanOut), Visited(root, w), fanOut, next, more)
    ensures NextLevel(table, ws, root, fanOut, w) == Walk(w.out + next, next, w.overflowed || more)
    ensures Visited(root, Walk(w.out + next, next, w.overflowed || more)) == Visited(root, w) + Elems(next)
  {
  }

  /** What a walk promises: see `WalkDescendants`. */
  ghost predicate Promised(table: seq<Run>, ws: string, root: string, maxDepth: nat, fanOut: nat, w: Walk) {
    var truncated := w.overflowed || w.frontier != [];
    && Distinct(w.out) && root !in w.out
    && (forall c <- w.out :: ReachedWithin(table, ws, root, c, maxDepth))
    && (w.overflowed ==> !Complete(table, ws, root, w.out))
    && (!w.overflowed && Uncrowded(table, ws, root, fanOut, maxDepth) ==>
          forall c :: c in w.out <==> c != root && ReachedWithin(table, ws, root, c, maxDepth))
    && (!truncated ==> (Complete(table, ws, root, w.out) <==> !Crowded(table, ws, root, fanOut)))
    && (!truncated && !IsDescendant(table, ws, root, root) ==> Complete(table, ws, root, w.out))
  }

  /** A listed run is active and in the workspace. */
  lemma {:induction false} ListedAreActive(table: seq<Run>, ws: string, root: string, maxDepth: nat, fanOut: nat,
                                           r: Run)
    requires DistinctIds(table) && r in table && r.id in Levels(table, ws, root, fanOut, maxDepth).out
    ensures r.active && r.workspace == ws && r.parent != ""
  {
    WalkKeepsPromise(table, ws, root, maxDepth, fanOut);
    var n: nat :| 0 < n <= maxDepth && ReachedIn(table, ws, root, r.id, n);
    ReachedOnRows(table, ws, root, r.id, n - 1);
    var x :| x in table && x.id == r.id && x.active && x.workspace == ws && x.parent != "";
    var i :| 0 <= i < |table| && table[i] == x;
    var j :| 0 <= j < |table| && table[j] == r;
  }

  lemma {:induction false} WalkKeepsPromise(table: seq<Run>, ws: string, root: string, maxDepth: nat, fanOut: nat)
    requires DistinctIds(table)
    ensures Promised(table, ws, root, maxDepth, fanOut, Levels(table, ws, root, fanOut, maxDepth))
  {
    var w := Levels(table, ws, root, fanOut, maxDepth);
    WalkIsSound(table, ws, root, fanOut, maxDepth);
    WalkReturns(table, ws, root, fanOut, maxDepth);
    UntruncatedWalk(table, ws, root, fanOut, maxDepth);
    if !w.overflowed && w.frontier == [] {
      AcyclicWalkIsComplete(table, ws, root, fanOut, w.out);
    }
  }

  /** One query and what it adds. */
  method ExpandLevel(table: seq<Run>, root: string, ws: string, fanOut: nat, w: Walk, visited: set<string>)
    returns (t: Walk, visited': set<string>)
    requires DistinctIds(table) && w.frontier != [] && visited == Visited(root, w)
    ensures t == NextLevel(table, ws, root, fanOut, w) && visited' == Visited(root, t)
  {
    var next, more := QueryLevel(table, ws, Elems(w.frontier), visited, fanOut);
    LevelIsNext(table, ws, root, fanOut, w, next, more);
    t := Walk(w.out + next, next, w.overflowed || more);
    visited' := visited + Elems(next);
  }

  lemma {:induction false} LevelsStep(table: seq<Run>, ws: string, root: string, fanOut: nat, n: nat, w: Walk, t: Walk)
    requires w == Levels(table, ws, root, fanOut, n) && t == NextLevel(table, ws, root, fanOut, w)
    ensures t == Levels(table, ws, root, fanOut, n + 1)
  {
  }

  /** Level after level, until one brings nothing or the depth limit is reached. */
  method WalkLevels(table: seq<Run>, root: string, ws: string, maxDepth: nat, fanOut: nat) returns (w: Walk)
    requires DistinctIds(table)
    ensures w == Levels(table, ws, root, fanOut, maxDepth)
  {
    var visited, level := {root}, 0;
    w := Walk([], [root], false);
    assert visited == Visited(root, w);
    while level < maxDepth && |w.frontier| > 0
      invariant level <= maxDepth && w == Levels(table, ws, root, fanOut, level) && visited == Visited(root, w)
    {
      ghost var before := w;
      w, visited := ExpandLevel(table, root, ws, fanOut, w, visited);
      LevelsStep(table, ws, root, fanOut, level, before, w);
      level := level + 1;
    }
    if |w.frontier| == 0 {
      LevelsStop(table, ws, root, fanOut, level, maxDepth, w);
    }
  }

  /**
   * The walk down. Truncation is reported exactly when a level found more runs than the fan-out or the
   * depth limit left runs to expand. The runs are distinct, never the root, and within the depth limit.
   * After an overflow a descendant is missing. Without one, and with no crowded generation up to the
   * depth limit, they are all the runs within it. A walk that reports nothing found every descendant
   * exactly when no generation is crowded.
   */
  method WalkDescendants(table: seq<Run>, root: string, ws: string, maxDepth: nat, fanOut: nat)
    returns (out: seq<string>, truncated: bool)
    requires DistinctIds(table)
    ensures var w := Levels(table, ws, root, fanOut, maxDepth);
      && out == w.out && truncated == (w.overflowed || w.frontier != [])
      && Promised(table, ws, root, maxDepth, fanOut, w)
  {
    var w := WalkLevels(table, root, ws, maxDepth, fanOut);
    WalkKeepsPromise(table, ws, root, maxDepth, fanOut);
    out, truncated := w.out, w.overflowed;
    if |w.frontier| > 0 {
      truncated := true;
    }
  }

  // ----- a run lost without notice -----

  lemma {:induction false} ChildRowsPush(rows: seq<Run>, x: Run, ws: string, parents: set<string>)
    ensures ChildRows(rows + [x], ws, parents)
         == if Eligible(x, ws) && x.parent in parents then ChildRows(rows, ws, parents) + [x]
            else ChildRows(rows, ws, parents)
  {
  }

  lemma {:induction false} ByStartPush(rows: seq<Run>, x: Run)
    requires ByStart(rows) == rows && (rows == [] || rows[|rows| - 1].startTime <= x.startTime)
    ensures ByStart(rows + [x]) == rows + [x]
  {
  }

  lemma {:induction false} UnseenPush(rows: seq<Run>, x: Run, visited: set<string>)
    ensures Unseen(rows + [x], visited) ==
            if x.id in visited then Unseen(rows, visited) else Unseen(rows, visited) + [x.id]
  {
  }

  /** A cycle of two runs, where the second also has the children b and c. */
  ghost predicate TwoCycle(r: Run, a: Run, b: Run, c: Run, ws: string) {
    && a.parent == r.id && r.parent == b.parent == c.parent == a.id
    && Eligible(r, ws) && Eligible(a, ws) && Eligible(b, ws) && Eligible(c, ws)
    && Distinct([r.id, a.id, b.id, c.id]) && r.startTime <= b.startTime <= c.startTime
  }

  lemma {:induction false} TwoCycleIds(r: Run, a: Run, b: Run, c: Run, ws: string)
    requires TwoCycle(r, a, b, c, ws)
    ensures r.id != a.id && r.id != b.id && r.id != c.id && a.id != b.id && a.id != c.id && b.id != c.id
    ensures DistinctIds([r] + [a] + [b] + [c])
  {
    var ids, table := [r.id, a.id, b.id, c.id], [r] + [a] + [b] + [c];
    assert ids[0] != ids[1] && ids[0] != ids[2] && ids[0] != ids[3];
    assert ids[1] != ids[2] && ids[1] != ids[3] && ids[2] != ids[3];
    assert table == [r, a, b, c];
  }

  lemma {:induction false} ChildRowsOfFour(r: Run, a: Run, b: Run, c: Run, ws: string, parent: string)
    requires TwoCycle(r, a, b, c, ws)
    ensures ChildRows([r] + [a] + [b] + [c], ws, {parent})
         == if parent == r.id then [a] else if parent == a.id then [r] + [b] + [c] else []
  {
    TwoCycleIds(r, a, b, c, ws);
    ChildRowsOfOne(r, ws, {parent});
    ChildRowsPush([r], a, ws, {parent});
    assert [] + [a] == [a];
    ChildRowsPush([r] + [a], b, ws, {parent});
    ChildRowsPush([r] + [a] + [b], c, ws, {parent});
  }

  lemma {:induction false} ChildRowsOfOne(r: Run, ws: string, parents: set<string>)
    ensures ChildRows([r], ws, parents) == if Eligible(r, ws) && r.parent in parents then [r] else []
  {
    ChildRowsPush([], r, ws, parents);
    assert [] + [r] == [r];
  }

  lemma {:induction false} ByStartOfThree(r: Run, b: Run, c: Run)
    requires r.startTime <= b.startTime <= c.startTime
    ensures ByStart([r] + [b] + [c]) == [r] + [b] + [c]
  {
    ByStartPush([], r);
    assert [] + [r] == [r];
    ByStartPush([r], b);
    ByStartPush([r] + [b], c);
  }

  lemma {:induction false} TwoCycleRows(r: Run, a: Run, b: Run, c: Run, ws: string, parent: string)
    requires TwoCycle(r, a, b, c, ws)
    ensures Fetched([r] + [a] + [b] + [c], ws, {parent}, 1)
         == if parent == r.id then [a] else if parent == a.id then [r] + [b] else []
  {
    ChildRowsOfFour(r, a, b, c, ws, parent);
    if parent == r.id {
      ByStartPush([], a);
      assert [] + [a] == [a];
    } else if parent == a.id {
      ByStartOfThree(r, b, c);
      assert ([r] + [b] + [c])[..2] == [r] + [b];
    }
  }

  lemma {:induction false} TwoCycleLevels(r: Run, a: Run, b: Run, c: Run, ws: string)
    requires TwoCycle(r, a, b, c, ws)
    ensures Levels([r] + [a] + [b] + [c], ws, r.id, 1, 3) == Walk([a.id] + [b.id], [], false)
  {
    var table := [r] + [a] + [b] + [c];
    TwoCycleIds(r, a, b, c, ws);
    FirstLevel(r, a, b, c, ws);
    SecondLevel(r, a, b, c, ws);
    var w := Walk([a.id] + [b.id], [b.id], false);
    TwoCycleRows(r, a, b, c, ws, b.id);
    assert Elems([b.id]) == {b.id};
    assert Found(table, ws, r.id, 1, w) == [];
    assert Advance(table, ws, r.id, 1, w) == Walk([a.id] + [b.id], [], false);
  }

  lemma {:induction false} FirstLevel(r: Run, a: Run, b: Run, c: Run, ws: string)
    requires TwoCycle(r, a, b, c, ws)
    ensures Levels([r] + [a] + [b] + [c], ws, r.id, 1, 1) == Walk([a.id], [a.id], false)
  {
    var table, w := [r] + [a] + [b] + [c], Walk([], [r.id], false);
    TwoCycleIds(r, a, b, c, ws);
    TwoCycleRows(r, a, b, c, ws, r.id);
    assert Levels(table, ws, r.id, 1, 0) == w && Elems([r.id]) == {r.id} && Visited(r.id, w) == {r.id};
    UnseenPush([], a, {r.id});
    assert [] + [a] == [a] && [] + [a.id] == [a.id];
    assert Found(table, ws, r.id, 1, w) == [a.id];
  }

  lemma {:induction false} SecondLevel(r: Run, a: Run, b: Run, c: Run, ws: string)
    requires TwoCycle(r, a, b, c, ws)
    ensures Levels([r] + [a] + [b] + [c], ws, r.id, 1, 2) == Walk([a.id] + [b.id], [b.id], false)
  {
    var table, w := [r] + [a] + [b] + [c], Walk([a.id], [a.id], false);
    FirstLevel(r, a, b, c, ws);
    TwoCycleIds(r, a, b, c, ws);
    TwoCycleRows(r, a, b, c, ws, a.id);
    assert Elems([a.id]) == {a.id} && Visited(r.id, w) == {r.id, a.id};
    UnseenPush([], r, {r.id, a.id});
    UnseenPush([r], b, {r.id, a.id});
    assert [] + [r] == [r] && [] + [b.id] == [b.id];
    assert Found(table, ws, r.id, 1, w) == [b.id];
  }

  /**
   * A walk that loses a run without notice: from r with a fan-out of 1 and any depth from 3 on it
   * returns a and b and reports no truncation, though c is a descendant too. The root took the place of
   * c among the rows of its level.
   */
  lemma {:induction false} CrowdedLevelHidesARun(r: Run, a: Run, b: Run, c: Run, ws: string, maxDepth: nat)
    requires TwoCycle(r, a, b, c, ws) && maxDepth >= 3
    ensures var table := [r] + [a] + [b] + [c];
            && DistinctIds(table)
            && Levels(table, ws, r.id, 1, maxDepth) == Walk([a.id] + [b.id], [], false)
            && IsDescendant(table, ws, r.id, c.id) && c.id != r.id && c.id !in [a.id] + [b.id]
  {
    var table := [r] + [a] + [b] + [c];
    TwoCycleIds(r, a, b, c, ws);
    TwoCycleLevels(r, a, b, c, ws);
    LevelsStop(table, ws, r.id, 1, 3, maxDepth, Walk([a.id] + [b.id], [], false));
    assert a in table && c in table;
    assert ReachedIn(table, ws, r.id, r.id, 0);
    assert ReachedIn(table, ws, r.id, a.id, 1);
    assert ReachedIn(table, ws, r.id, c.id, 2);
  }
}
