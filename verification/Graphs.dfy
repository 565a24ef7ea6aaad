/** Directed graphs over names: paths, acyclicity, topological orders and reachability. */
module Graphs {
  import opened Collections

  datatype Edge = Edge(source: string, target: string)

  datatype Graph = Graph(nodes: set<string>, edges: seq<Edge>)

  ghost predicate WellFormed(g: Graph) {
    forall e :: e in g.edges ==> e.source in g.nodes && e.target in g.nodes
  }

  predicate HasEdge(g: Graph, a: string, b: string) { Edge(a, b) in g.edges }

  // ---------------------------------------------------------------- paths

  ghost predicate Link(g: Graph, p: seq<string>, i: nat)
    requires i + 1 < |p|
  {
    HasEdge(g, p[i], p[i + 1])
  }

  ghost predicate IsPath(g: Graph, p: seq<string>) {
    p != [] && forall i :: 0 <= i < |p| - 1 ==> Link(g, p, i)
  }

  lemma PathSlice(g: Graph, p: seq<string>, from: nat, to: nat)
    requires IsPath(g, p) && from < to <= |p|
    ensures IsPath(g, p[from..to])
  {
    forall i | 0 <= i < to - from - 1 ensures Link(g, p[from..to], i) { assert Link(g, p, from + i); }
  }

  lemma PathCons(g: Graph, a: string, p: seq<string>)
    requires IsPath(g, p) && HasEdge(g, a, p[0])
    ensures IsPath(g, [a] + p)
  {
    forall i | 0 <= i < |p| ensures Link(g, [a] + p, i) {
      if i > 0 { assert Link(g, p, i - 1); }
    }
  }

  lemma PathJoin(g: Graph, p: seq<string>, q: seq<string>)
    requires IsPath(g, p) && IsPath(g, q) && p[|p| - 1] == q[0]
    ensures IsPath(g, p + q[1..])
  {
    forall i | 0 <= i < |p| + |q| - 2 ensures Link(g, p + q[1..], i) {
      if i < |p| - 1 { assert Link(g, p, i); } else { assert Link(g, q, i - |p| + 1); }
    }
  }

  ghost predicate PathBetween(g: Graph, p: seq<string>, a: string, b: string) {
    IsPath(g, p) && p[0] == a && p[|p| - 1] == b
  }

  /** A path of one edge or more leads from a to b. */
  ghost predicate Reaches(g: Graph, a: string, b: string) {
    exists p :: |p| >= 2 && PathBetween(g, p, a, b)
  }

  /** Reachable, every node from itself included. */
  ghost predicate ReachesOrIs(g: Graph, a: string, b: string) { a == b || Reaches(g, a, b) }

  ghost predicate Acyclic(g: Graph) {
    forall a :: !Reaches(g, a, a)
  }

  lemma EdgeReaches(g: Graph, a: string, b: string)
    requires HasEdge(g, a, b)
    ensures Reaches(g, a, b)
  {
    assert Link(g, [a, b], 0);
    assert PathBetween(g, [a, b], a, b);
  }

  lemma ReachesTransitive(g: Graph, a: string, b: string, c: string)
    requires Reaches(g, a, b) && Reaches(g, b, c)
    ensures Reaches(g, a, c)
  {
    var p :| |p| >= 2 && PathBetween(g, p, a, b);
    var q :| |q| >= 2 && PathBetween(g, q, b, c);
    PathJoin(g, p, q);
    assert PathBetween(g, p + q[1..], a, c);
  }

  /** A path of an edge or more starts with an edge. */
  lemma ReachesByFirst(g: Graph, a: string, b: string) returns (next: string)
    requires Reaches(g, a, b)
    ensures HasEdge(g, a, next) && ReachesOrIs(g, next, b)
  {
    var p :| |p| >= 2 && PathBetween(g, p, a, b);
    next := p[1];
    assert Link(g, p, 0);
    PathSlice(g, p, 1, |p|);
    if |p| > 2 {
      assert PathBetween(g, p[1..|p|], next, b);
    }
  }

  /** A path of an edge or more ends with an edge. */
  lemma ReachesByLast(g: Graph, a: string, b: string) returns (previous: string)
    requires Reaches(g, a, b)
    ensures HasEdge(g, previous, b)
  {
    var p :| |p| >= 2 && PathBetween(g, p, a, b);
    previous := p[|p| - 2];
    assert Link(g, p, |p| - 2);
  }

  lemma ReachesInNodes(g: Graph, a: string, b: string)
    requires WellFormed(g) && Reaches(g, a, b)
    ensures a in g.nodes && b in g.nodes
  {
    var p :| |p| >= 2 && PathBetween(g, p, a, b);
    assert Link(g, p, 0) && Link(g, p, |p| - 2);
  }

  // ---------------------------------------------------------------- topological orders

  ghost predicate Before(order: seq<string>, a: string, b: string) {
    exists i, j :: 0 <= i < j < |order| && order[i] == a && order[j] == b
  }

  ghost predicate Topological(order: seq<string>, g: Graph) {
    && Distinct(order)
    && (forall a :: a in order <==> a in g.nodes)
    && (forall e :: e in g.edges ==> Before(order, e.source, e.target))
  }

  lemma {:induction false} PathFollowsOrder(order: seq<string>, g: Graph, p: seq<string>)
    requires Topological(order, g) && IsPath(g, p) && |p| >= 2
    ensures Before(order, p[0], p[|p| - 1])
    decreases |p|
  {
    assert Link(g, p, 0);
    assert Before(order, p[0], p[1]);
    if |p| > 2 {
      PathSlice(g, p, 1, |p|);
      PathFollowsOrder(order, g, p[1..|p|]);
    }
  }

  lemma OrderedIsAcyclic(order: seq<string>, g: Graph)
    requires Topological(order, g)
    ensures Acyclic(g)
  {
    forall a ensures !Reaches(g, a, a) {
      if Reaches(g, a, a) {
        var p :| |p| >= 2 && PathBetween(g, p, a, a);
        PathFollowsOrder(order, g, p);
      }
    }
  }

  // ---------------------------------------------------------------- a stuck search has found a cycle

  lemma {:induction false} Pigeonhole(p: seq<string>, s: set<string>)
    requires Distinct(p) && forall i :: 0 <= i < |p| ==> p[i] in s
    ensures |p| <= |s|
  {
    if p != [] {
      var last := p[|p| - 1];
      Pigeonhole(p[..|p| - 1], s - {last});
    }
  }

  predicate HasSourceIn(g: Graph, s: set<string>, b: string) {
    exists e :: e in g.edges && e.target == b && e.source in s
  }

  /** Every node of s has a predecessor in s. */
  ghost predicate Stuck(g: Graph, s: set<string>) {
    forall b :: b in s ==> HasSourceIn(g, s, b)
  }

  lemma SourceIn(g: Graph, s: set<string>, b: string) returns (a: string)
    requires HasSourceIn(g, s, b)
    ensures a in s && HasEdge(g, a, b)
  {
    var e :| e in g.edges && e.target == b && e.source in s;
    a := e.source;
    assert e == Edge(a, b);
  }

  lemma {:induction false} WalkBack(g: Graph, s: set<string>, n: nat) returns (p: seq<string>)
    requires s != {} && Stuck(g, s) && n >= 1
    ensures |p| == n && IsPath(g, p) && forall i :: 0 <= i < |p| ==> p[i] in s
  {
    hide HasSourceIn, HasEdge, Link;
    if n == 1 {
      var a :| a in s;
      p := [a];
    } else {
      var q := WalkBack(g, s, n - 1);
      assert q[0] in s;
      var a := SourceIn(g, s, q[0]);
      PathCons(g, a, q);
      p := [a] + q;
    }
  }

  lemma StuckIsCyclic(g: Graph, s: set<string>)
    requires s != {} && Stuck(g, s)
    ensures !Acyclic(g)
  {
    hide HasEdge, Link, IsPath, Stuck;
    var p := WalkBack(g, s, |s| + 1);
    if forall i, j :: 0 <= i < j < |p| ==> p[i] != p[j] {
      Pigeonhole(p, s);
    }
    var i, j :| 0 <= i < j < |p| && p[i] == p[j];
    PathSlice(g, p, i, j + 1);
    assert PathBetween(g, p[i..j + 1], p[i], p[i]);
    assert Reaches(g, p[i], p[i]);
  }

  // ---------------------------------------------------------------- deciding acyclicity

  /** What the search has done: the nodes taken so far are ordered, and those left come later. */
  ghost predicate Taken(g: Graph, order: seq<string>, left: set<string>) {
    && Distinct(order)
    && (forall a :: a in g.nodes <==> a in order || a in left)
    && (forall a :: a in order ==> a !in left)
    && (forall e :: e in g.edges && e.target in order ==> Before(order, e.source, e.target))
  }

  lemma TakeOne(g: Graph, order: seq<string>, left: set<string>, a: string)
    requires WellFormed(g) && Taken(g, order, left) && a in left && !HasSourceIn(g, left, a)
    ensures Taken(g, order + [a], left - {a})
  {
    var next := order + [a];
    forall e | e in g.edges && e.target in next ensures Before(next, e.source, e.target) {
      if e.target == a {
        assert e.source in order;
        var i :| 0 <= i < |order| && order[i] == e.source;
        assert next[i] == e.source && next[|order|] == a;
      } else {
        var i, j :| 0 <= i < j < |order| && order[i] == e.source && order[j] == e.target;
        assert next[i] == e.source && next[j] == e.target;
      }
    }
  }

  lemma NothingTaken(g: Graph)
    ensures Taken(g, [], g.nodes)
  {
  }

  lemma AllTaken(g: Graph, order: seq<string>)
    requires WellFormed(g) && Taken(g, order, {})
    ensures Topological(order, g)
  {
  }

  /** The acyclicity test: take away nodes without predecessors until none is left or none can be taken. */
  method IsAcyclic(g: Graph) returns (acyclic: bool, order: seq<string>)
    requires WellFormed(g)
    ensures acyclic <==> Acyclic(g)
    ensures acyclic ==> Topological(order, g)
  {
    hide HasSourceIn, Acyclic, Topological;
    order := [];
    var left := g.nodes;
    NothingTaken(g);
    while exists a :: a in left && !HasSourceIn(g, left, a)
      invariant Taken(g, order, left)
      decreases |left|
    {
      var a :| a in left && !HasSourceIn(g, left, a);
      TakeOne(g, order, left, a);
      order := order + [a];
      left := left - {a};
    }
    acyclic := left == {};
    if acyclic {
      AllTaken(g, order);
      OrderedIsAcyclic(order, g);
    } else {
      StuckIsCyclic(g, left);
    }
  }

  /** Every acyclic graph has a topological order. */
  lemma {:induction false} OrderExists(g: Graph, order: seq<string>, left: set<string>) returns (full: seq<string>)
    requires WellFormed(g) && Acyclic(g) && Taken(g, order, left)
    ensures Topological(full, g)
    decreases |left|
  {
    if left == {} {
      full := order;
    } else {
      if Stuck(g, left) {
        StuckIsCyclic(g, left);
      }
      var a :| a in left && !HasSourceIn(g, left, a);
      TakeOne(g, order, left, a);
      full := OrderExists(g, order + [a], left - {a});
    }
  }

  /** A non-empty acyclic graph has a node without predecessors. */
  lemma EntryExists(g: Graph) returns (a: string)
    requires WellFormed(g) && Acyclic(g) && g.nodes != {}
    ensures a in g.nodes && forall e :: e in g.edges ==> e.target != a
  {
    var order := OrderExists(g, [], g.nodes);
    assert order != [] by { var x :| x in g.nodes; assert x in order; }
    a := order[0];
    forall e | e in g.edges ensures e.target != a {
      var i, j :| 0 <= i < j < |order| && order[i] == e.source && order[j] == e.target;
    }
  }
}
