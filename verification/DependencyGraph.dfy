/**
  The depends-on graph of tasks and the search that decides whether a new
  dependency would close a cycle.

  A row of the dependency table is an `Edge`. Reachability, acyclicity and
  topological order are defined here independently of the search; the search is
  proved to decide reachability, and adding an edge is proved to keep the graph
  acyclic exactly when the search answers false.
*/
module DependencyGraph {
  import opened Common

  type Id = string

  datatype Edge = Edge(taskId: Id, dependsOnTaskId: Id)

  // ---------------------------------------------------------------- walks

  ghost predicate Hop(edges: set<Edge>, p: seq<Id>, i: nat)
    requires i + 1 < |p|
  {
    Edge(p[i], p[i + 1]) in edges
  }

  ghost predicate Walk(edges: set<Edge>, p: seq<Id>) {
    |p| > 0 && forall i: nat | i + 1 < |p| :: Hop(edges, p, i)
  }

  ghost predicate WalkFromTo(edges: set<Edge>, p: seq<Id>, a: Id, b: Id) {
    Walk(edges, p) && p[0] == a && p[|p| - 1] == b
  }

  /** Zero or more depends-on steps lead from `a` to `b`. */
  ghost predicate Reach(edges: set<Edge>, a: Id, b: Id) {
    exists p :: WalkFromTo(edges, p, a, b)
  }

  ghost predicate Acyclic(edges: set<Edge>) {
    forall p | Walk(edges, p) && |p| >= 2 :: p[0] != p[|p| - 1]
  }

  lemma ReachRefl(edges: set<Edge>, a: Id)
    ensures Reach(edges, a, a)
  {
    assert WalkFromTo(edges, [a], a, a);
  }

  lemma ReachHop(edges: set<Edge>, a: Id, b: Id)
    requires Edge(a, b) in edges
    ensures Reach(edges, a, b)
  {
    assert WalkFromTo(edges, [a, b], a, b);
  }

  lemma ReachTrans(edges: set<Edge>, a: Id, b: Id, c: Id)
    requires Reach(edges, a, b) && Reach(edges, b, c)
    ensures Reach(edges, a, c)
  {
    var p :| WalkFromTo(edges, p, a, b);
    var q :| WalkFromTo(edges, q, b, c);
    var r := p + q[1..];
    forall i: nat | i + 1 < |r|
      ensures Hop(edges, r, i)
    {
      if i + 1 < |p| {
        assert Hop(edges, p, i);
      } else {
        assert Hop(edges, q, i + 1 - |p|);
      }
    }
    assert WalkFromTo(edges, r, a, c);
  }

  lemma WalkTail(edges: set<Edge>, p: seq<Id>)
    requires Walk(edges, p) && |p| >= 2
    ensures Edge(p[0], p[1]) in edges && WalkFromTo(edges, p[1..], p[1], p[|p| - 1])
  {
    assert Hop(edges, p, 0);
    forall i: nat | i + 1 < |p[1..]|
      ensures Hop(edges, p[1..], i)
    {
      assert Hop(edges, p, i + 1);
    }
  }

  lemma WalkMono(edges: set<Edge>, more: set<Edge>, p: seq<Id>)
    requires edges <= more && Walk(edges, p)
    ensures Walk(more, p)
  {
    forall i: nat | i + 1 < |p|
      ensures Hop(more, p, i)
    {
      assert Hop(edges, p, i);
    }
  }

  /** Deleting dependencies cannot create a cycle. */
  lemma AcyclicSubset(edges: set<Edge>, more: set<Edge>)
    requires edges <= more && Acyclic(more)
    ensures Acyclic(edges)
  {
    forall p | Walk(edges, p) && |p| >= 2
      ensures p[0] != p[|p| - 1]
    {
      WalkMono(edges, more, p);
    }
  }

  /** A closed walk, given by one edge and a way back, refutes acyclicity. */
  lemma WayBackIsCycle(edges: set<Edge>, a: Id, b: Id)
    requires Edge(a, b) in edges && Reach(edges, b, a)
    ensures !Acyclic(edges)
  {
    var p :| WalkFromTo(edges, p, b, a);
    var r := [a] + p;
    forall i: nat | i + 1 < |r|
      ensures Hop(edges, r, i)
    {
      if i > 0 {
        assert Hop(edges, p, i - 1);
      }
    }
    assert Walk(edges, r) && r[0] == r[|r| - 1];
  }

  // A walk that may use the new edge either avoids it or splits around it.
  lemma {:induction false} SplitAtNewEdge(edges: set<Edge>, t: Id, d: Id, p: seq<Id>)
    requires Walk(edges + {Edge(t, d)}, p)
    ensures Reach(edges, p[0], p[|p| - 1])
         || (Reach(edges, p[0], t) && Reach(edges, d, p[|p| - 1]))
    decreases |p|
  {
    var b := p[|p| - 1];
    if |p| == 1 {
      ReachRefl(edges, b);
    } else {
      WalkTail(edges + {Edge(t, d)}, p);
      SplitAtNewEdge(edges, t, d, p[1..]);
      if Edge(p[0], p[1]) in edges {
        ReachHop(edges, p[0], p[1]);
        if Reach(edges, p[1], b) {
          ReachTrans(edges, p[0], p[1], b);
        } else {
          ReachTrans(edges, p[0], p[1], t);
        }
      } else {
        ReachRefl(edges, t);
      }
    }
  }

  /** Adding `t` depends-on `d` keeps the graph acyclic exactly when it was
      acyclic and `d` does not already depend, at any distance, on `t`. */
  lemma AddEdgeAcyclicIff(edges: set<Edge>, t: Id, d: Id)
    ensures Acyclic(edges + {Edge(t, d)}) <==> Acyclic(edges) && !Reach(edges, d, t)
  {
    var more := edges + {Edge(t, d)};
    if Acyclic(more) {
      AcyclicSubset(edges, more);
      if Reach(edges, d, t) {
        var p :| WalkFromTo(edges, p, d, t);
        WalkMono(edges, more, p);
        assert WalkFromTo(more, p, d, t);
        WayBackIsCycle(more, t, d);
      }
    }
    if Acyclic(edges) && !Reach(edges, d, t) {
      forall p | Walk(more, p) && |p| >= 2
        ensures p[0] != p[|p| - 1]
      {
        if p[0] == p[|p| - 1] {
          WalkTail(more, p);
          SplitAtNewEdge(edges, t, d, p[1..]);
          if Edge(p[0], p[1]) in edges {
            if Reach(edges, p[1], p[0]) {
              WayBackIsCycle(edges, p[0], p[1]);
            } else {
              ReachHop(edges, p[0], p[1]);
              ReachTrans(edges, d, p[0], p[1]);
              ReachTrans(edges, d, p[1], t);
            }
          }
        }
      }
    }
  }

  // ---------------------------------------------------- topological order

  /** `order` lists every task after all the tasks it depends on. */
  ghost predicate IsTopological(edges: set<Edge>, order: seq<Id>) {
    && Distinct(order)
    && forall e | e in edges ::
         exists i, j :: 0 <= j < i < |order| && order[i] == e.taskId && order[j] == e.dependsOnTaskId
  }

  lemma {:induction false} DistinctCount<T>(s: seq<T>, universe: set<T>)
    requires Distinct(s) && forall x | x in s :: x in universe
    ensures |s| <= |universe|
  {
    if |s| > 0 {
      var last := s[|s| - 1];
      var rest := s[..|s| - 1];
      forall x | x in rest
        ensures x in universe - {last}
      {
        var i :| 0 <= i < |rest| && rest[i] == x;
        assert s[i] == x;
      }
      DistinctCount(rest, universe - {last});
    }
  }

  ghost predicate DependsWithin(edges: set<Edge>, nodes: set<Id>, v: Id) {
    exists w :: w in nodes && Edge(v, w) in edges
  }

  // If every node has a dependency inside `nodes`, walks of any length exist.
  lemma {:induction false} LongWalk(edges: set<Edge>, nodes: set<Id>, start: Id, n: nat) returns (p: seq<Id>)
    requires start in nodes
    requires forall v | v in nodes :: DependsWithin(edges, nodes, v)
    ensures Walk(edges, p) && |p| == n + 1 && p[0] == start
    ensures forall x | x in p :: x in nodes
    decreases n
  {
    if n == 0 {
      p := [start];
    } else {
      assert DependsWithin(edges, nodes, start);
      var w :| w in nodes && Edge(start, w) in edges;
      var q := LongWalk(edges, nodes, w, n - 1);
      p := [start] + q;
      forall i: nat | i + 1 < |p|
        ensures Hop(edges, p, i)
      {
        if i > 0 {
          assert Hop(edges, q, i - 1);
        }
      }
    }
  }

  lemma RepeatIsCycle(edges: set<Edge>, p: seq<Id>)
    requires Walk(edges, p) && !Distinct(p)
    ensures !Acyclic(edges)
  {
    var i, j :| 0 <= i < j < |p| && p[i] == p[j];
    var c := p[i..j + 1];
    forall k: nat | k + 1 < |c|
      ensures Hop(edges, c, k)
    {
      assert Hop(edges, p, i + k);
    }
    assert Walk(edges, c) && c[0] == c[|c| - 1];
  }

  lemma SinkExists(edges: set<Edge>, nodes: set<Id>) returns (sink: Id)
    requires Acyclic(edges) && nodes != {}
    ensures sink in nodes && !DependsWithin(edges, nodes, sink)
  {
    if forall v | v in nodes :: DependsWithin(edges, nodes, v) {
      var start :| start in nodes;
      var p := LongWalk(edges, nodes, start, |nodes|);
      if Distinct(p) {
        DistinctCount(p, nodes);
      } else {
        RepeatIsCycle(edges, p);
      }
      assert false;
    }
    sink :| sink in nodes && !DependsWithin(edges, nodes, sink);
  }

  lemma {:induction false} BuildOrder(edges: set<Edge>, nodes: set<Id>) returns (order: seq<Id>)
    requires Acyclic(edges)
    ensures Distinct(order) && forall x :: x in order <==> x in nodes
    ensures forall i, j {:trigger order[i], order[j]} | 0 <= i < |order| && 0 <= j < |order|
        && Edge(order[i], order[j]) in edges :: j < i
    decreases |nodes|
  {
    if nodes == {} {
      order := [];
    } else {
      var sink := SinkExists(edges, nodes);
      var rest := BuildOrder(edges, nodes - {sink});
      order := [sink] + rest;
      forall i, j | 0 <= i < |order| && 0 <= j < |order| && Edge(order[i], order[j]) in edges
        ensures j < i
      {
        assert order[j] in order && order[i] in order;
        assert order[j] in nodes;
        if i > 0 && j > 0 {
          assert rest[i - 1] == order[i] && rest[j - 1] == order[j];
        }
      }
    }
  }

  lemma {:induction false} OrderedWalkDescends(edges: set<Edge>, order: seq<Id>, p: seq<Id>, a: nat)
    requires IsTopological(edges, order) && Walk(edges, p)
    requires a < |order| && order[a] == p[0]
    ensures exists b :: 0 <= b < |order| && order[b] == p[|p| - 1] && (if |p| >= 2 then b < a else b == a)
    decreases |p|
  {
    if |p| >= 2 {
      WalkTail(edges, p);
      var i, j :| 0 <= j < i < |order| && order[i] == p[0] && order[j] == p[1];
      assert i == a;
      OrderedWalkDescends(edges, order, p[1..], j);
    }
  }

  ghost predicate Schedulable(edges: set<Edge>) {
    exists order :: IsTopological(edges, order)
  }

  /** A finite graph is acyclic exactly when its tasks can be scheduled. */
  lemma AcyclicIffSchedulable(edges: set<Edge>)
    ensures Acyclic(edges) <==> Schedulable(edges)
  {
    if Acyclic(edges) {
      var nodes := (set e | e in edges :: e.taskId) + (set e | e in edges :: e.dependsOnTaskId);
      var order := BuildOrder(edges, nodes);
      forall e | e in edges
        ensures exists i, j :: 0 <= j < i < |order| && order[i] == e.taskId && order[j] == e.dependsOnTaskId
      {
        assert e.taskId in order && e.dependsOnTaskId in order;
        var i :| 0 <= i < |order| && order[i] == e.taskId;
        var j :| 0 <= j < |order| && order[j] == e.dependsOnTaskId;
        assert Edge(order[i], order[j]) == e;
      }
      assert IsTopological(edges, order);
    }
    if Schedulable(edges) {
      var order :| IsTopological(edges, order);
      forall p | Walk(edges, p) && |p| >= 2
        ensures p[0] != p[|p| - 1]
      {
        WalkTail(edges, p);
        var i, j :| 0 <= j < i < |order| && order[i] == p[0] && order[j] == p[1];
        OrderedWalkDescends(edges, order, p, i);
      }
    }
  }

  // ------------------------------------------------------------ the search

  ghost function EdgeSet(rows: seq<Edge>): set<Edge> {
    set e | e in rows
  }

  /** The edges between non-empty ids: the search skips an empty id when it pops it. */
  ghost function Named(edges: set<Edge>): set<Edge> {
    set e | e in edges && e.taskId != "" && e.dependsOnTaskId != ""
  }

  /** The answer of the search, stated without the search. */
  ghost predicate ClosesCycle(edges: set<Edge>, taskId: Id, dependsOnTaskId: Id) {
    taskId == dependsOnTaskId || (dependsOnTaskId != "" && Reach(Named(edges), dependsOnTaskId, taskId))
  }

  lemma NamedWalk(edges: set<Edge>, p: seq<Id>)
    requires Walk(edges, p) && !Reach(edges, p[0], "")
    ensures Walk(Named(edges), p)
  {
    forall i: nat | i + 1 < |p|
      ensures Hop(Named(edges), p, i)
    {
      assert Hop(edges, p, i);
      PrefixReach(edges, p, i);
      PrefixReach(edges, p, i + 1);
    }
  }

  lemma PrefixReach(edges: set<Edge>, p: seq<Id>, n: nat)
    requires Walk(edges, p) && n < |p|
    ensures Reach(edges, p[0], p[n])
  {
    var q := p[..n + 1];
    forall i: nat | i + 1 < |q|
      ensures Hop(edges, q, i)
    {
      assert Hop(edges, p, i);
    }
    assert WalkFromTo(edges, q, p[0], p[n]);
  }

  lemma NamedReach(edges: set<Edge>, a: Id, b: Id)
    requires a != "" && Reach(Named(edges), a, b)
    ensures b != "" && Reach(edges, a, b)
  {
    var p :| WalkFromTo(Named(edges), p, a, b);
    WalkMono(Named(edges), edges, p);
    assert WalkFromTo(edges, p, a, b);
    if |p| >= 2 {
      assert Hop(Named(edges), p, |p| - 2);
    }
  }

  /** The search agrees with reachability for every candidate task exactly when
      the empty id is not among the (transitive) dependencies. Table ids are
      generated and never empty, so the condition holds of every stored graph. */
  lemma SearchExactIff(edges: set<Edge>, dependsOnTaskId: Id)
    requires dependsOnTaskId != ""
    ensures (forall taskId :: ClosesCycle(edges, taskId, dependsOnTaskId) <==> Reach(edges, dependsOnTaskId, taskId))
       <==> !Reach(edges, dependsOnTaskId, "")
  {
    if Reach(edges, dependsOnTaskId, "") {
      if Reach(Named(edges), dependsOnTaskId, "") {
        NamedReach(edges, dependsOnTaskId, "");
      }
      assert !ClosesCycle(edges, "", dependsOnTaskId);
    } else {
      forall taskId
        ensures ClosesCycle(edges, taskId, dependsOnTaskId) <==> Reach(edges, dependsOnTaskId, taskId)
      {
        ReachRefl(edges, dependsOnTaskId);
        if Reach(Named(edges), dependsOnTaskId, taskId) {
          NamedReach(edges, dependsOnTaskId, taskId);
        }
        if Reach(edges, dependsOnTaskId, taskId) {
          var p :| WalkFromTo(edges, p, dependsOnTaskId, taskId);
          NamedWalk(edges, p);
          assert WalkFromTo(Named(edges), p, dependsOnTaskId, taskId);
        }
      }
    }
  }

  /** A concrete graph on which the skipped empty id hides a cycle. */
  lemma EmptyIdHidesCycle()
    ensures var edges := {Edge("b", ""), Edge("", "a")};
            !ClosesCycle(edges, "a", "b") && Reach(edges, "b", "a") && !Acyclic(edges + {Edge("a", "b")})
  {
    var edges := {Edge("b", ""), Edge("", "a")};
    assert Hop(edges, ["b", "", "a"], 0) && Hop(edges, ["b", "", "a"], 1);
    assert WalkFromTo(edges, ["b", "", "a"], "b", "a");
    AddEdgeAcyclicIff(edges, "a", "b");
    assert Named(edges) == {};
    forall p | Walk(Named(edges), p)
      ensures |p| == 1
    {
      if |p| >= 2 {
        WalkTail(Named(edges), p);
      }
    }
  }

  /** The dependency query of the search: the targets of one task's rows. */
  function DependenciesOf(rows: seq<Edge>, taskId: Id): (r: seq<Id>)
    ensures forall x :: x in r <==> Edge(taskId, x) in rows
  {
    if rows == [] then []
    else
      (if rows[0].taskId == taskId then [rows[0].dependsOnTaskId] else [])
      + DependenciesOf(rows[1..], taskId)
  }

  // Whatever is reachable from a set closed under named edges stays in it.
  lemma {:induction false} ClosedUnderReach(edges: set<Edge>, closed: set<Id>, p: seq<Id>)
    requires Walk(Named(edges), p) && p[0] in closed
    requires forall e | e in Named(edges) && e.taskId in closed :: e.dependsOnTaskId in closed
    ensures p[|p| - 1] in closed
    decreases |p|
  {
    if |p| >= 2 {
      WalkTail(Named(edges), p);
      ClosedUnderReach(edges, closed, p[1..]);
    }
  }

  /** Every id the search holds is reachable, unless it is the empty id. */
  ghost predicate Found(edges: set<Edge>, dependsOnTaskId: Id, x: Id) {
    x == "" || (dependsOnTaskId != "" && Reach(Named(edges), dependsOnTaskId, x))
  }

  lemma FoundStep(rows: seq<Edge>, dependsOnTaskId: Id, current: Id)
    requires current != "" && Found(EdgeSet(rows), dependsOnTaskId, current)
    ensures forall x | x in DependenciesOf(rows, current) :: Found(EdgeSet(rows), dependsOnTaskId, x)
  {
    var named := Named(EdgeSet(rows));
    forall x | x in DependenciesOf(rows, current)
      ensures Found(EdgeSet(rows), dependsOnTaskId, x)
    {
      if x != "" {
        assert Edge(current, x) in named;
        ReachHop(named, current, x);
        ReachTrans(named, dependsOnTaskId, current, x);
      }
    }
  }

  method PushUnvisited(stack: seq<Id>, found: seq<Id>, visited: set<Id>) returns (r: seq<Id>)
    ensures forall x :: x in r <==> x in stack || (x in found && x !in visited)
  {
    r := stack;
    for i := 0 to |found|
      invariant forall x :: x in r <==> x in stack || (x in found[..i] && x !in visited)
    {
      if found[i] !in visited {
        r := r + [found[i]];
      }
      assert found[..i + 1] == found[..i] + [found[i]];
    }
    assert found[..|found|] == found;
  }

  /** The depth-first search decides exactly whether the new row closes a cycle. */
  method WouldCreateCycle(rows: seq<Edge>, taskId: Id, dependsOnTaskId: Id) returns (r: bool)
    ensures r <==> ClosesCycle(EdgeSet(rows), taskId, dependsOnTaskId)
  {
    if taskId == dependsOnTaskId {
      return true;
    }
    ghost var edges := EdgeSet(rows);
    ghost var nodes := {dependsOnTaskId} + set e | e in rows :: e.dependsOnTaskId;
    var visited: set<Id> := {};
    var stack := [dependsOnTaskId];
    ReachRefl(Named(edges), dependsOnTaskId);
    while |stack| > 0
      invariant forall x | x in visited || x in stack :: x in nodes && Found(edges, dependsOnTaskId, x)
      invariant dependsOnTaskId in stack || dependsOnTaskId in visited || dependsOnTaskId == ""
      invariant taskId !in visited && "" !in visited
      invariant forall e | e in Named(edges) && e.taskId in visited ::
                  e.dependsOnTaskId in visited || e.dependsOnTaskId in stack
      decreases nodes - visited, |stack|
    {
      var currentTaskId := stack[|stack| - 1];
      assert stack == stack[..|stack| - 1] + [currentTaskId];
      stack := stack[..|stack| - 1];
      if currentTaskId == "" {
        continue;
      }
      if currentTaskId == taskId {
        return true;
      }
      if currentTaskId in visited {
        continue;
      }
      visited := visited + {currentTaskId};
      FoundStep(rows, dependsOnTaskId, currentTaskId);
      stack := PushUnvisited(stack, DependenciesOf(rows, currentTaskId), visited);
    }
    if dependsOnTaskId != "" && Reach(Named(edges), dependsOnTaskId, taskId) {
      var p :| WalkFromTo(Named(edges), p, dependsOnTaskId, taskId);
      ClosedUnderReach(edges, visited, p);
      assert false;
    }
    return false;
  }
}
