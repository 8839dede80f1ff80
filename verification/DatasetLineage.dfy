/** Dataset rows and the version number a new row gets. */
module DatasetRows {

  datatype Dataset = Dataset(workspace: string, name: string, version: int, active: bool)

  /** m is the highest version of a name in a workspace, 0 when there is none. */
  ghost predicate IsMaxVersion(rows: map<int, Dataset>, workspace: string, name: string, m: int) {
    && 0 <= m
    && (forall id | id in rows && rows[id].workspace == workspace && rows[id].name == name :: rows[id].version <= m)
    && (m > 0 ==> exists id :: id in rows && rows[id] == Dataset(workspace, name, m, rows[id].active))
  }

  /** SELECT MAX(version), 0 for no rows. */
  method MaxVersion(rows: map<int, Dataset>, workspace: string, name: string) returns (m: int)
    ensures IsMaxVersion(rows, workspace, name, m)
  {
    m := 0;
    ghost var best := 0;
    var rest := rows.Items;
    while rest != {}
      invariant rest <= rows.Items && 0 <= m
      invariant forall id | id in rows && (id, rows[id]) !in rest ::
                  rows[id].workspace == workspace && rows[id].name == name ==> rows[id].version <= m
      invariant m > 0 ==> best in rows && rows[best] == Dataset(workspace, name, m, rows[best].active)
      decreases rest
    {
      var item :| item in rest;
      rest := rest - {item};
      var (id, row) := item;
      if row.workspace == workspace && row.name == name && row.version > m {
        m, best := row.version, id;
      }
    }
  }
}

/** Dataset versions, their lineage edges, and the two bounded walks over them. */
module DatasetLineage {
  import opened Collections
  import opened Wrappers
  import opened DatasetRows

  const MAX_LINEAGE_NODES: nat := 256

  datatype Edge = Edge(child: int, parent: int)

  datatype Direction = Up | Down

  datatype CreateError = ParentNotFound | OtherWorkspace

  // ----- reachability -----

  /** One lineage step: to a parent going up, to a child going down. */
  predicate Adjacent(edges: seq<Edge>, dir: Direction, x: int, y: int) {
    (if dir == Up then Edge(x, y) else Edge(y, x)) in edges
  }

  /** y is reached from x in exactly n steps. */
  ghost predicate ReachesIn(edges: seq<Edge>, dir: Direction, x: int, y: int, n: nat)
    decreases n
  {
    if n == 0 then x == y
    else exists z :: ReachesIn(edges, dir, x, z, n - 1) && Adjacent(edges, dir, z, y)
  }

  /** Strict ancestor (Up) or strict descendant (Down). */
  ghost predicate Reaches(edges: seq<Edge>, dir: Direction, x: int, y: int) {
    exists n: nat :: n > 0 && ReachesIn(edges, dir, x, y, n)
  }

  lemma {:induction false} ReachesStep(edges: seq<Edge>, dir: Direction, x: int, z: int, y: int)
    requires z == x || Reaches(edges, dir, x, z)
    requires Adjacent(edges, dir, z, y)
    ensures Reaches(edges, dir, x, y)
  {
    if z == x {
      assert ReachesIn(edges, dir, x, z, 0);
      assert ReachesIn(edges, dir, x, y, 1);
    } else {
      var n: nat :| n > 0 && ReachesIn(edges, dir, x, z, n);
      assert ReachesIn(edges, dir, x, y, n + 1);
    }
  }

  /** A set that holds the neighbours of x and of its own members holds everything x reaches. */
  lemma {:induction false} ClosedHoldsReached(edges: seq<Edge>, dir: Direction, x: int, y: int, n: nat, s: set<int>)
    requires forall v, w | (v == x || v in s) && Adjacent(edges, dir, v, w) :: w in s
    requires n > 0 && ReachesIn(edges, dir, x, y, n)
    ensures y in s
    decreases n
  {
    var z :| ReachesIn(edges, dir, x, z, n - 1) && Adjacent(edges, dir, z, y);
    if n > 1 {
      ClosedHoldsReached(edges, dir, x, z, n - 1, s);
    } else {
      assert z == x;
    }
  }

  // ----- the invariant of the tables -----

  /** Every edge joins two rows of one workspace and points to a smaller id. */
  ghost predicate Sound(rows: map<int, Dataset>, edges: seq<Edge>, nextId: int) {
    && (forall id | id in rows :: id < nextId)
    && (forall e <- edges ::
          && e.child in rows && e.parent in rows && e.parent < e.child
          && rows[e.parent].workspace == rows[e.child].workspace)
  }

  /** Going up makes ids smaller, going down makes them larger: the graph has no cycle. */
  lemma {:induction false} ReachOrdersIds(rows: map<int, Dataset>, edges: seq<Edge>, nextId: int,
                                          dir: Direction, x: int, y: int, n: nat)
    requires Sound(rows, edges, nextId) && n > 0 && ReachesIn(edges, dir, x, y, n)
    ensures if dir == Up then y < x else x < y
    ensures y in rows && x in rows && rows[x].workspace == rows[y].workspace
    decreases n
  {
    var z :| ReachesIn(edges, dir, x, z, n - 1) && Adjacent(edges, dir, z, y);
    var e := if dir == Up then Edge(z, y) else Edge(y, z);
    assert e in edges;
    if n > 1 {
      ReachOrdersIds(rows, edges, nextId, dir, x, z, n - 1);
    } else {
      assert z == x;
    }
  }

  /** No dataset is its own ancestor, and ancestors and descendants never meet. */
  lemma {:induction false} Acyclic(rows: map<int, Dataset>, edges: seq<Edge>, nextId: int, x: int, y: int)
    requires Sound(rows, edges, nextId)
    ensures Reaches(edges, Up, x, y) ==> x in rows && y in rows && y < x && rows[y].workspace == rows[x].workspace
    ensures Reaches(edges, Down, x, y) ==> x in rows && y in rows && x < y && rows[y].workspace == rows[x].workspace
  {
    if Reaches(edges, Up, x, y) {
      var n: nat :| n > 0 && ReachesIn(edges, Up, x, y, n);
      ReachOrdersIds(rows, edges, nextId, Up, x, y, n);
    }
    if Reaches(edges, Down, x, y) {
      var n: nat :| n > 0 && ReachesIn(edges, Down, x, y, n);
      ReachOrdersIds(rows, edges, nextId, Down, x, y, n);
    }
  }

  // ----- walks -----

  /** The neighbours of a row, in table order. */
  function Neighbours(edges: seq<Edge>, dir: Direction, x: int): (s: seq<int>)
    ensures forall y :: y in s <==> Adjacent(edges, dir, x, y)
  {
    if edges == [] then []
    else
      var rest, e := Neighbours(edges[..|edges| - 1], dir, x), edges[|edges| - 1];
      assert edges == edges[..|edges| - 1] + [e];
      if dir == Up && e.child == x then rest + [e.parent]
      else if dir == Down && e.parent == x then rest + [e.child]
      else rest
  }

  /** What a bounded walk returns: distinct reached rows, all of them unless the cap was hit. */
  ghost predicate Lists(edges: seq<Edge>, dir: Direction, self: int, out: seq<int>) {
    && Distinct(out) && |out| <= MAX_LINEAGE_NODES
    && (forall y <- out :: Reaches(edges, dir, self, y))
    && (|out| == MAX_LINEAGE_NODES || forall y | Reaches(edges, dir, self, y) :: y in out)
  }

  /**
   The state of a walk: `visited` is what was known before plus self plus the output,
   queued ids are reached, and every neighbour of an expanded row is output or queued.
   */
  ghost predicate Walking(edges: seq<Edge>, dir: Direction, self: int, known: set<int>,
                          visited: set<int>, out: seq<int>, queued: set<int>, unexpanded: set<int>) {
    && visited == known + {self} + (set y | y in out)
    && Distinct(out) && |out| <= MAX_LINEAGE_NODES
    && (forall y <- out :: Reaches(edges, dir, self, y) && y !in known && y != self)
    && (forall y | y in queued :: Reaches(edges, dir, self, y))
    && (forall v, w | (v == self || v in out) && v !in unexpanded && Adjacent(edges, dir, v, w) ::
          w in out || w in queued)
  }

  lemma {:induction false} WalkStart(edges: seq<Edge>, dir: Direction, self: int, known: set<int>)
    ensures Walking(edges, dir, self, known, known + {self}, [], {}, {self})
  {
  }

  /** Queue the neighbours of a row that was self or output. */
  lemma {:induction false} WalkExpand(edges: seq<Edge>, dir: Direction, self: int, known: set<int>, visited: set<int>,
                                      out: seq<int>, queued: set<int>, unexpanded: set<int>, x: int)
    requires Walking(edges, dir, self, known, visited, out, queued, unexpanded) && (x == self || x in out)
    ensures Walking(edges, dir, self, known, visited, out, queued + Elems(Neighbours(edges, dir, x)), unexpanded - {x})
  {
    forall y | y in Neighbours(edges, dir, x) ensures Reaches(edges, dir, self, y) {
      ReachesStep(edges, dir, self, x, y);
    }
  }

  /** Take an unseen id off the queue and output it. */
  lemma {:induction false} WalkVisit(edges: seq<Edge>, dir: Direction, self: int, known: set<int>, visited: set<int>,
                                     out: seq<int>, queued: set<int>, unexpanded: set<int>, y: int)
    requires Walking(edges, dir, self, known, visited, out, queued + {y}, unexpanded)
    requires y !in visited && |out| < MAX_LINEAGE_NODES
    ensures Walking(edges, dir, self, known, visited + {y}, out + [y], queued, unexpanded + {y})
  {
  }

  /** Take an already output id off the queue. */
  lemma {:induction false} WalkSkip(edges: seq<Edge>, dir: Direction, self: int, known: set<int>, visited: set<int>,
                                    out: seq<int>, queued: set<int>, unexpanded: set<int>, y: int)
    requires Walking(edges, dir, self, known, visited, out, queued + {y}, unexpanded)
    requires y in visited && y != self && y !in known
    ensures Walking(edges, dir, self, known, visited, out, queued, unexpanded)
  {
  }

  /** A finished walk lists everything reached. */
  lemma {:induction false} WalkDone(edges: seq<Edge>, dir: Direction, self: int, known: set<int>, visited: set<int>,
                                    out: seq<int>)
    requires Walking(edges, dir, self, known, visited, out, {}, {})
    ensures Lists(edges, dir, self, out)
  {
    var s := set y | y in out;
    forall y | Reaches(edges, dir, self, y) ensures y in out {
      var n: nat :| n > 0 && ReachesIn(edges, dir, self, y, n);
      ClosedHoldsReached(edges, dir, self, y, n, s);
    }
  }

  lemma {:induction false} WalkCapped(edges: seq<Edge>, dir: Direction, self: int, known: set<int>, visited: set<int>,
                                      out: seq<int>, queued: set<int>, unexpanded: set<int>)
    requires Walking(edges, dir, self, known, visited, out, queued, unexpanded) && |out| >= MAX_LINEAGE_NODES
    ensures Lists(edges, dir, self, out)
  {
  }

  class Store {
    var rows: map<int, Dataset>
    var edges: seq<Edge>
    var nextId: int

    ghost predicate Valid()
      reads this
    {
      Sound(rows, edges, nextId)
    }

    constructor ()
      ensures Valid() && rows == map[] && edges == [] && nextId == 1
    {
      rows, edges, nextId := map[], [], 1;
    }

    /** One queued parent: skip it if seen, else output it and fetch its own parents. */
    method VisitParent(self: int, pid: int, visited: set<int>, out: seq<int>, ghost queue: set<int>)
      returns (visited': set<int>, out': seq<int>, found: seq<int>)
      requires Valid() && self in rows && |out| < MAX_LINEAGE_NODES
      requires Walking(edges, Up, self, {}, visited, out, queue + {pid}, {})
      ensures Walking(edges, Up, self, {}, visited', out', queue + Elems(found), {})
      ensures visited' == visited + {pid} && pid in rows && (found != [] ==> pid !in visited)
    {
      visited', out', found := visited, out, [];
      assert pid in queue + {pid};
      Acyclic(rows, edges, nextId, self, pid);
      if pid in visited {
        WalkSkip(edges, Up, self, {}, visited, out, queue, {}, pid);
        assert queue + Elems([]) == queue && visited + {pid} == visited;
        return;
      }
      visited' := visited + {pid};
      WalkVisit(edges, Up, self, {}, visited, out, queue, {}, pid);
      assert {} + {pid} == {pid} && {pid} - {pid} == {};
      if pid in rows {
        out' := out + [pid];
        found := Neighbours(edges, Up, pid);
        WalkExpand(edges, Up, self, {}, visited', out', queue, {pid}, pid);
      }
    }

    /** One level of the upward walk; `capped` when the node cap stops it. */
    method AncestorLevel(self: int, frontier: seq<int>, visited: set<int>, out: seq<int>)
      returns (visited': set<int>, out': seq<int>, next: seq<int>, capped: bool)
      requires Valid() && self in rows
      requires Walking(edges, Up, self, {}, visited, out, Elems(frontier), {})
      ensures capped ==> Lists(edges, Up, self, out') && visited' == {self} + Elems(out')
      ensures !capped ==> Walking(edges, Up, self, {}, visited', out', Elems(next), {})
      ensures visited <= visited' && (next != [] ==> rows.Keys - visited' < rows.Keys - visited)
    {
      visited', out', next, capped := visited, out, [], false;
      var k := 0;
      while k < |frontier|
        invariant 0 <= k <= |frontier|
        invariant Walking(edges, Up, self, {}, visited', out', Elems(frontier[k..]) + Elems(next), {})
        invariant visited <= visited'
        invariant next != [] ==> exists y :: y in rows && y in visited' && y !in visited
      {
        if |out'| >= MAX_LINEAGE_NODES {
          WalkCapped(edges, Up, self, {}, visited', out', Elems(frontier[k..]) + Elems(next), {});
          capped, next := true, [];
          return;
        }
        var pid := frontier[k];
        QueueHead(frontier, k, next);
        var found;
        visited', out', found :=
          VisitParent(self, pid, visited', out', Elems(frontier[k + 1..]) + Elems(next));
        QueueTail(frontier[k + 1..], next, found);
        next := next + found;
        k := k + 1;
      }
      assert frontier[k..] == [] && Elems([]) + Elems(next) == Elems(next);
    }

    method WalkAncestors(self: int) returns (out: seq<int>, visited: set<int>)
      requires Valid() && self in rows
      ensures Lists(edges, Up, self, out)
      ensures visited == {self} + Elems(out)
    {
      visited, out := {self}, [];
      var frontier := Neighbours(edges, Up, self);
      WalkStart(edges, Up, self, {});
      WalkExpand(edges, Up, self, {}, visited, out, {}, {self}, self);
      assert {} + {self} == {self} && {self} - {self} == {} && {} + Elems(frontier) == Elems(frontier);
      while frontier != []
        invariant Walking(edges, Up, self, {}, visited, out, Elems(frontier), {})
        decreases |rows.Keys - visited|, |frontier|
      {
        ghost var before := visited;
        var capped;
        visited, out, frontier, capped := AncestorLevel(self, frontier, visited, out);
        if capped {
          return;
        }
        SubsetSize(rows.Keys - visited, rows.Keys - before);
      }
      assert Elems<int>([]) == {};
      WalkDone(edges, Up, self, {}, visited, out);
    }
  
    /** The children of one expanded row: output the unseen ones. */
    method VisitChildren(self: int, pid: int, visited: set<int>, out: seq<int>, next: seq<int>,
                         ghost known: set<int>, ghost waiting: set<int>)
      returns (visited': set<int>, out': seq<int>, next': seq<int>, capped: bool)
      requires Valid() && self in rows && (forall y | y in known :: y < self)
      requires Walking(edges, Down, self, known, visited, out, {}, waiting + Elems(next) + {pid})
      requires (pid == self || pid in out) && forall y <- next :: y in out
      ensures out <= out' && forall y <- next' :: y in out'
      ensures capped ==> Lists(edges, Down, self, out')
      ensures !capped ==> Walking(edges, Down, self, known, visited', out', {}, waiting + Elems(next'))
      ensures visited <= visited' && (next' != next ==> rows.Keys - visited' < rows.Keys - visited)
    {
      visited', out', next', capped := visited, out, next, false;
      var cids := Neighbours(edges, Down, pid);
      WalkExpand(edges, Down, self, known, visited, out, {}, waiting + Elems(next) + {pid}, pid);
      assert {} + Elems(cids) == Elems(cids);
      assert cids[0..] == cids;
      var l := 0;
      while l < |cids|
        invariant 0 <= l <= |cids|
        invariant Walking(edges, Down, self, known, visited', out', Elems(cids[l..]), waiting + Elems(next'))
        invariant out <= out' && forall y <- next' :: y in out'
        invariant visited <= visited' && (next' != next ==> rows.Keys - visited' < rows.Keys - visited)
      {
        if |out'| >= MAX_LINEAGE_NODES {
          WalkCapped(edges, Down, self, known, visited', out', Elems(cids[l..]), waiting + Elems(next'));
          capped := true;
          return;
        }
        var cid := cids[l];
        ghost var queue := Elems(cids[l + 1..]);
        ghost var wait := waiting + Elems(next');
        assert cids[l..] == [cid] + cids[l + 1..];
        assert Elems(cids[l..]) == queue + {cid};
        Acyclic(rows, edges, nextId, self, cid);
        if cid in visited' {
          WalkSkip(edges, Down, self, known, visited', out', queue, wait, cid);
        } else {
          WalkVisit(edges, Down, self, known, visited', out', queue, wait, cid);
          visited' := visited' + {cid};
          if cid in rows {
            out' := out' + [cid];
            assert waiting + Elems(next' + [cid]) == wait + {cid};
            next' := next' + [cid];
          }
        }
        l := l + 1;
      }
      assert Elems(cids[l..]) == {};
    }
  
    /** One level of the downward walk. */
    method DescendantLevel(self: int, level: seq<int>, visited: set<int>, out: seq<int>, ghost known: set<int>)
      returns (visited': set<int>, out': seq<int>, next: seq<int>, capped: bool)
      requires Valid() && self in rows && (forall y | y in known :: y < self)
      requires Walking(edges, Down, self, known, visited, out, {}, Elems(level))
      requires forall y <- level :: y == self || y in out
      ensures capped ==> Lists(edges, Down, self, out')
      ensures !capped ==> Walking(edges, Down, self, known, visited', out', {}, Elems(next))
      ensures !capped ==> forall y <- next :: y in out'
      ensures visited <= visited' && (next != [] ==> rows.Keys - visited' < rows.Keys - visited)
    {
      visited', out', next, capped := visited, out, [], false;
      var k := 0;
      assert level[0..] == level && Elems(level) + Elems([]) == Elems(level);
      while k < |level|
        invariant 0 <= k <= |level|
        invariant Walking(edges, Down, self, known, visited', out', {}, Elems(level[k..]) + Elems(next))
        invariant (forall y <- level :: y == self || y in out') && (forall y <- next :: y in out')
        invariant visited <= visited' && (next != [] ==> rows.Keys - visited' < rows.Keys - visited)
      {
        if |out'| >= MAX_LINEAGE_NODES {
          WalkCapped(edges, Down, self, known, visited', out', {}, Elems(level[k..]) + Elems(next));
          capped, next := true, [];
          return;
        }
        QueueHead(level, k, next);
        visited', out', next, capped :=
          VisitChildren(self, level[k], visited', out', next, known, Elems(level[k + 1..]));
        if capped {
          next := [];
          return;
        }
        k := k + 1;
      }
      assert level[k..] == [] && Elems([]) + Elems(next) == Elems(next);
    }

    method WalkDescendants(self: int, seen: set<int>, ghost known: set<int>) returns (out: seq<int>)
      requires Valid() && self in rows && (forall y | y in known :: y < self)
      requires seen == {self} + known
      ensures Lists(edges, Down, self, out)
    {
      var visited := seen;
      out := [];
      var level := [self];
      WalkStart(edges, Down, self, known);
      assert known + {self} == seen && Elems([self]) == {self};
      while level != []
        invariant Walking(edges, Down, self, known, visited, out, {}, Elems(level))
        invariant forall y <- level :: y == self || y in out
        decreases |rows.Keys - visited|, |level|
      {
        ghost var before := visited;
        var capped;
        visited, out, level, capped := DescendantLevel(self, level, visited, out, known);
        if capped {
          return;
        }
        SubsetSize(rows.Keys - visited, rows.Keys - before);
      }
      assert Elems<int>([]) == {};
      WalkDone(edges, Down, self, known, visited, out);
    }

    /** Both walks share one visited set; on these graphs that loses nothing. */
    method GetDatasetLineage(self: int) returns (ancestors: seq<int>, descendants: seq<int>)
      requires Valid() && self in rows
      ensures Lists(edges, Up, self, ancestors) && Lists(edges, Down, self, descendants)
      ensures forall y | y in ancestors :: y !in descendants
    {
      var visited;
      ancestors, visited := WalkAncestors(self);
      forall y ensures (y in ancestors ==> y < self) {
        Acyclic(rows, edges, nextId, self, y);
      }
      descendants := WalkDescendants(self, visited, Elems(ancestors));
      forall y ensures (y in descendants ==> self < y) {
        Acyclic(rows, edges, nextId, self, y);
      }
    }

    /** The edges of a new row; a repeated parent is recorded once. */
    method InsertEdges(id: int, parents: seq<int>)
      modifies this`edges
      ensures forall e :: e in edges <==> e in old(edges) || (e.child == id && e.parent in parents)
    {
      for i := 0 to |parents|
        invariant forall e :: e in edges <==> e in old(edges) || (e.child == id && e.parent in parents[..i])
      {
        if Edge(id, parents[i]) !in edges {
          edges := edges + [Edge(id, parents[i])];
        }
        assert parents[..i + 1] == parents[..i] + [parents[i]];
      }
      assert parents[..|parents|] == parents;
    }

    /** Is the parent there, and in the child's workspace? */
    predicate ParentOk(pid: int, workspace: string)
      reads this
    {
      pid in rows && rows[pid].workspace == workspace
    }

    method CreateDatasetVersionOnce(workspace: string, name: string, parents: seq<int>)
      returns (r: Result<int, CreateError>)
      requires Valid()
      modifies this
      ensures Valid()
      ensures r.Ok? <==> forall pid <- parents :: old(ParentOk(pid, workspace))
      ensures r.Err? ==> unchanged(this)
      ensures r.Err? ==> exists i | 0 <= i < |parents| ::
                && (forall j | 0 <= j < i :: ParentOk(parents[j], workspace)) && !ParentOk(parents[i], workspace)
                && r.error == if parents[i] in rows then OtherWorkspace else ParentNotFound
      ensures r.Ok? ==>
                && r.value == old(nextId) && r.value !in old(rows) && nextId == r.value + 1
                && rows.Keys == old(rows).Keys + {r.value}
                && (forall id | id in old(rows) :: rows[id] == old(rows)[id])
                && rows[r.value] == Dataset(workspace, name, rows[r.value].version, true)
                && IsMaxVersion(old(rows), workspace, name, rows[r.value].version - 1)
                && (forall e :: e in edges <==> e in old(edges) || (e.child == r.value && e.parent in parents))
    {
      for i := 0 to |parents|
        invariant forall j | 0 <= j < i :: ParentOk(parents[j], workspace)
        invariant unchanged(this)
      {
        assert ParentOk(parents[i], workspace) == old(ParentOk(parents[i], workspace)) && parents[i] in parents;
        if parents[i] !in rows {
          return Err(ParentNotFound);
        }
        if rows[parents[i]].workspace != workspace {
          return Err(OtherWorkspace);
        }
      }
      var max := MaxVersion(rows, workspace, name);
      var id := nextId;
      rows, nextId := rows[id := Dataset(workspace, name, max + 1, true)], nextId + 1;
      InsertEdges(id, parents);
      return Ok(id);
    }

    /** Soft deletion hides a version; its row and its edges stay. */
    method SoftDeleteDatasetVersion(id: int) returns (found: bool)
      requires Valid()
      modifies this`rows
      ensures Valid()
      ensures found == (id in old(rows))
      ensures rows == if found then old(rows)[id := old(rows)[id].(active := false)] else old(rows)
    {
      found := id in rows;
      if found {
        rows := rows[id := rows[id].(active := false)];
      }
    }
  }

  lemma {:induction false} QueueHead(s: seq<int>, k: nat, next: seq<int>)
    requires k < |s|
    ensures Elems(s[k..]) + Elems(next) == Elems(s[k + 1..]) + Elems(next) + {s[k]}
  {
    assert s[k..] == [s[k]] + s[k + 1..];
  }

  lemma {:induction false} QueueTail(s: seq<int>, next: seq<int>, more: seq<int>)
    ensures Elems(s) + Elems(next + more) == Elems(s) + Elems(next) + Elems(more)
  {
  }
}
