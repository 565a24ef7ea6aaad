/** Sub-pipelines of cached executions (caching-service, lib/create-graph.js and lib/runner.js). */
module Caching {
  import opened Collections
  import opened Graphs
  import opened Pipelines
  import opened Validation

  /** One record of a traversal: a node and its neighbours. */
  datatype Visit = Visit(id: string, next: seq<string>)

  /** What a traversal hands back: an unknown node throws, a node without neighbours gives undefined. */
  datatype Traversal = Thrown | Undefined | Visited(visits: seq<Visit>)

  // ---------------------------------------------------------------- the graph of a pipeline

  /** The names joined by some edge. */
  function Ends(edges: seq<Edge>): set<string> {
    (set e | e in edges :: e.source) + (set e | e in edges :: e.target)
  }

  /** Every node and every name an input refers to, with one edge per pair. */
  function MapOf(nodes: seq<Node>): Graph {
    var edges := AddAll([], LinksOf(nodes));
    Graph(NamesOf(nodes) + Ends(edges), edges)
  }

  lemma SameEdgesSamePaths(g: Graph, h: Graph, p: seq<string>)
    requires forall e :: e in g.edges ==> e in h.edges
    requires IsPath(g, p)
    ensures IsPath(h, p)
  {
    forall i | 0 <= i < |p| - 1 ensures Link(h, p, i) {
      assert Link(g, p, i);
    }
  }

  lemma MoreEdgesReachMore(g: Graph, h: Graph, a: string, b: string)
    requires forall e :: e in g.edges ==> e in h.edges
    requires Reaches(g, a, b)
    ensures Reaches(h, a, b)
  {
    var p :| |p| >= 2 && PathBetween(g, p, a, b);
    SameEdgesSamePaths(g, h, p);
    assert PathBetween(h, p, a, b);
  }

  /** The map of a pipeline joins exactly the nodes that its validation graph joins. */
  lemma MapReaches(nodes: seq<Node>, a: string, b: string)
    ensures Reaches(MapOf(nodes), a, b) <==> Reaches(GraphOf(nodes), a, b)
  {
    hide Reaches, LinksOf;
    if Reaches(MapOf(nodes), a, b) { MoreEdgesReachMore(MapOf(nodes), GraphOf(nodes), a, b); }
    if Reaches(GraphOf(nodes), a, b) { MoreEdgesReachMore(GraphOf(nodes), MapOf(nodes), a, b); }
  }

  /** _buildGraph: an edge is added at its first reference; a node without an input list throws. */
  method BuildGraph(nodes: seq<Node>) returns (g: Option<Graph>)
    ensures g.None? <==> exists i :: 0 <= i < |nodes| && nodes[i].input.None?
    ensures g.Some? ==> g.value == MapOf(nodes)
  {
    hide AddAll, LinksOfInputs, Ends;
    var names: set<string> := {};
    var edges: seq<Edge> := [];
    AddNone([]);
    for i := 0 to |nodes|
      invariant forall j :: 0 <= j < i ==> nodes[j].input.Some?
      invariant names == NamesOf(nodes[..i])
      invariant edges == AddAll([], LinksOf(nodes[..i]))
    {
      var n := nodes[i];
      if n.input.None? {
        return None;
      }
      edges := AddInputs(n.nodeName, n.input.value, edges);
      assert nodes[..i + 1][..i] == nodes[..i];
      assert nodes[..i + 1] == nodes[..i] + [n];
      AddAllTwice([], LinksOf(nodes[..i]), LinksOfInputs(n.nodeName, n.input.value));
      names := names + {n.nodeName};
    }
    assert nodes[..|nodes|] == nodes;
    g := Some(Graph(names + Ends(edges), edges));
  }

  lemma {:induction false} AddAllTwice(acc: seq<Edge>, s: seq<Edge>, t: seq<Edge>)
    ensures AddAll(acc, s + t) == AddAll(AddAll(acc, s), t)
  {
    if t == [] {
      assert s + t == s;
    } else {
      AddAllTwice(acc, s, t[..|t| - 1]);
      assert (s + t)[..|s + t| - 1] == s + t[..|t| - 1];
    }
  }

  method AddInputs(name: string, inputs: seq<Input>, edges: seq<Edge>) returns (out: seq<Edge>)
    ensures out == AddAll(edges, LinksOfInputs(name, inputs))
  {
    hide AddAll, LinksOfRefs;
    out := edges;
    assert AddAll(edges, []) == edges by { AddNone(edges); }
    for k := 0 to |inputs|
      invariant out == AddAll(edges, LinksOfInputs(name, inputs[..k]))
    {
      out := AddReferences(name, inputs[k].refs, out);
      assert inputs[..k + 1][..k] == inputs[..k];
      AddAllTwice(edges, LinksOfInputs(name, inputs[..k]), LinksOfRefs(name, inputs[k].refs));
    }
    assert inputs[..|inputs|] == inputs;
  }

  lemma AddNone(edges: seq<Edge>)
    ensures AddAll(edges, []) == edges
  {
  }

  method AddReferences(name: string, refs: seq<string>, edges: seq<Edge>) returns (out: seq<Edge>)
    ensures out == AddAll(edges, LinksOfRefs(name, refs))
  {
    out := edges;
    for k := 0 to |refs|
      invariant out == AddAll(edges, LinksOfRefs(name, refs[..k]))
    {
      var e := Edge(refs[k], name);
      assert refs[..k + 1][..k] == refs[..k];
      AddAllTwice(edges, LinksOfRefs(name, refs[..k]), [e]);
      if e !in out {
        out := out + [e];
      }
    }
    assert refs[..|refs|] == refs;
  }

  // ---------------------------------------------------------------- neighbours

  /** graph.successors: the targets of the edges out of v, in the order of the edges. */
  function Successors(edges: seq<Edge>, v: string): (r: seq<string>)
    ensures forall x :: x in r <==> Edge(v, x) in edges
  {
    if edges == [] then []
    else
      var last := edges[|edges| - 1];
      assert edges == edges[..|edges| - 1] + [last];
      Successors(edges[..|edges| - 1], v) + if last.source == v then [last.target] else []
  }

  function Turned(edges: seq<Edge>): (r: seq<Edge>)
    ensures |r| == |edges| && forall i :: 0 <= i < |r| ==> r[i] == Edge(edges[i].target, edges[i].source)
  {
    seq(|edges|, i requires 0 <= i < |edges| => Edge(edges[i].target, edges[i].source))
  }

  /** The graph whose successors are the predecessors of g. */
  function Reverse(g: Graph): Graph { Graph(g.nodes, Turned(g.edges)) }

  function Backwards(p: seq<string>): (r: seq<string>)
    ensures |r| == |p| && forall i :: 0 <= i < |r| ==> r[i] == p[|p| - 1 - i]
  {
    seq(|p|, i requires 0 <= i < |p| => p[|p| - 1 - i])
  }

  lemma ReverseReachesOneWay(g: Graph, a: string, b: string)
    requires Reaches(g, a, b)
    ensures Reaches(Reverse(g), b, a)
  {
    var p :| |p| >= 2 && PathBetween(g, p, a, b);
    var q := Backwards(p);
    forall i | 0 <= i < |q| - 1 ensures Link(Reverse(g), q, i) {
      assert Link(g, p, |p| - 2 - i);
    }
    assert PathBetween(Reverse(g), q, b, a);
  }

  lemma ReverseReaches(g: Graph, a: string, b: string)
    ensures Reaches(Reverse(g), a, b) <==> Reaches(g, b, a)
  {
    hide Reaches;
    if Reaches(g, b, a) { ReverseReachesOneWay(g, b, a); }
    if Reaches(Reverse(g), a, b) {
      ReverseReachesOneWay(Reverse(g), a, b);
      assert Reverse(Reverse(g)) == g;
    }
  }

  ghost predicate Proper(g: Graph) { WellFormed(g) && Acyclic(g) }

  lemma ReverseIsProper(g: Graph)
    requires Proper(g)
    ensures Proper(Reverse(g))
  {
    hide Reaches;
    forall a ensures !Reaches(Reverse(g), a, a) { ReverseReaches(g, a, a); }
  }

  // ---------------------------------------------------------------- the traversal

  /** The nodes strictly below v: they shrink along every edge of an acyclic graph. */
  ghost function Below(g: Graph, v: string): set<string> { set x | x in g.nodes && Reaches(g, v, x) }

  lemma BelowShrinks(g: Graph, v: string, s: string)
    requires Proper(g) && HasEdge(g, v, s)
    ensures Below(g, s) < Below(g, v) && s in g.nodes
  {
    hide Reaches;
    EdgeReaches(g, v, s);
    assert s in Below(g, v) && s !in Below(g, s);
    forall x | x in Below(g, s) ensures x in Below(g, v) { ReachesTransitive(g, v, s, x); }
  }

  /** The records of a traversal from v, in the order they are pushed. */
  ghost function Walk(g: Graph, v: string): seq<Visit>
    requires Proper(g)
    decreases Below(g, v), 1, 0
  {
    var next := Successors(g.edges, v);
    if next == [] then [] else [Visit(v, next)] + WalkEach(g, v, next)
  }

  ghost function WalkEach(g: Graph, v: string, next: seq<string>): seq<Visit>
    requires Proper(g) && forall x :: x in next ==> HasEdge(g, v, x)
    decreases Below(g, v), 0, |next|
  {
    if next == [] then []
    else
      var s := next[|next| - 1];
      BelowShrinks(g, v, s);
      WalkEach(g, v, next[..|next| - 1]) + Walk(g, s)
  }

  ghost predicate Covers(r: seq<Visit>, x: string) {
    exists i :: 0 <= i < |r| && x in r[i].next
  }

  lemma CoversNothing(x: string)
    ensures !Covers([], x)
  {
  }

  lemma CoversConcat(r: seq<Visit>, t: seq<Visit>, x: string)
    ensures Covers(r + t, x) <==> Covers(r, x) || Covers(t, x)
  {
    if Covers(r, x) {
      var i :| 0 <= i < |r| && x in r[i].next;
      assert x in (r + t)[i].next;
    }
    if Covers(t, x) {
      var i :| 0 <= i < |t| && x in t[i].next;
      assert x in (r + t)[|r| + i].next;
    }
  }

  /** The neighbours recorded by a traversal are exactly the nodes below its start. */
  lemma {:induction false} WalkExact(g: Graph, v: string, x: string)
    requires Proper(g)
    ensures Covers(Walk(g, v), x) <==> Reaches(g, v, x)
    decreases Below(g, v), 1, 0
  {
    hide Reaches, Acyclic, WellFormed, Below, Successors;
    var next := Successors(g.edges, v);
    if Reaches(g, v, x) {
      var s := ReachesByFirst(g, v, x);
      assert s in next;
    }
    if next != [] {
      WalkEachExact(g, v, next, x);
      CoversConcat([Visit(v, next)], WalkEach(g, v, next), x);
      assert Covers([Visit(v, next)], x) <==> x in next by { assert [Visit(v, next)][0].next == next; }
      if x in next { EdgeReaches(g, v, x); }
      forall s | s in next && Reaches(g, s, x) ensures Reaches(g, v, x) {
        EdgeReaches(g, v, s);
        ReachesTransitive(g, v, s, x);
      }
    }
  }

  lemma {:induction false} WalkEachExact(g: Graph, v: string, next: seq<string>, x: string)
    requires Proper(g) && forall x :: x in next ==> HasEdge(g, v, x)
    ensures Covers(WalkEach(g, v, next), x) <==> exists s :: s in next && Reaches(g, s, x)
    decreases Below(g, v), 0, |next|
  {
    hide Reaches, Acyclic, WellFormed, Below, Covers;
    if next == [] {
      CoversNothing(x);
    } else {
      var s := next[|next| - 1];
      var init := next[..|next| - 1];
      BelowShrinks(g, v, s);
      WalkEachExact(g, v, init, x);
      WalkExact(g, s, x);
      CoversConcat(WalkEach(g, v, init), Walk(g, s), x);
      assert next == init + [s];
    }
  }

  /** What the records of a traversal tell: each lists all successors of a node at or below the start. */
  ghost predicate Truthful(g: Graph, v: string, r: seq<Visit>) {
    forall i :: 0 <= i < |r| ==>
      r[i].next == Successors(g.edges, r[i].id) && r[i].next != [] && ReachesOrIs(g, v, r[i].id)
  }

  lemma {:induction false} WalkIsTruthful(g: Graph, v: string)
    requires Proper(g)
    ensures Truthful(g, v, Walk(g, v))
    decreases Below(g, v), 1, 0
  {
    hide Reaches, Acyclic, WellFormed, Below, Successors;
    var next := Successors(g.edges, v);
    if next != [] {
      WalkEachIsTruthful(g, v, next);
    }
  }

  lemma {:induction false} WalkEachIsTruthful(g: Graph, v: string, next: seq<string>)
    requires Proper(g) && forall x :: x in next ==> HasEdge(g, v, x)
    ensures Truthful(g, v, WalkEach(g, v, next))
    decreases Below(g, v), 0, |next|
  {
    hide Reaches, Acyclic, WellFormed, Below, Successors, Walk;
    if next != [] {
      var s := next[|next| - 1];
      BelowShrinks(g, v, s);
      WalkEachIsTruthful(g, v, next[..|next| - 1]);
      WalkIsTruthful(g, s);
      EdgeReaches(g, v, s);
      forall i | 0 <= i < |Walk(g, s)| ensures ReachesOrIs(g, v, Walk(g, s)[i].id) {
        if Walk(g, s)[i].id != s { ReachesTransitive(g, v, s, Walk(g, s)[i].id); }
      }
    }
  }

  /** The array that all calls of a traversal share. */
  class Visits {
    var items: seq<Visit>

    constructor ()
      ensures items == []
    {
      items := [];
    }

    method Push(v: Visit)
      modifies this
      ensures items == old(items) + [v]
    {
      items := items + [v];
    }
  }

  /** getAllSuccessors on g, and getAllPredecessors on its reverse: the records pushed onto the shared array. */
  method Collect(g: Graph, v: string, res: Visits) returns (outcome: Traversal)
    requires Proper(g)
    modifies res
    ensures outcome == Thrown <==> v !in g.nodes
    ensures outcome == Thrown || outcome == Undefined ==> res.items == old(res.items)
    ensures outcome != Thrown ==> res.items == old(res.items) + Walk(g, v)
    ensures outcome == Undefined <==> v in g.nodes && forall x :: !HasEdge(g, v, x)
    ensures outcome.Visited? ==> outcome.visits == res.items
    decreases Below(g, v)
  {
    hide Proper, Below, Successors;
    if v !in g.nodes {
      return Thrown;
    }
    var next := Successors(g.edges, v);
    if next == [] {
      return Undefined;
    }
    assert HasEdge(g, v, next[0]);
    res.Push(Visit(v, next));
    ghost var start := res.items;
    for k := 0 to |next|
      invariant res.items == start + WalkEach(g, v, next[..k])
    {
      assert HasEdge(g, v, next[k]);
      BelowShrinks(g, v, next[k]);
      var inner := Collect(g, next[k], res);
      assert next[..k + 1][..k] == next[..k];
      Assoc(start, WalkEach(g, v, next[..k]), Walk(g, next[k]));
    }
    assert next[..|next|] == next;
    Assoc(old(res.items), [Visit(v, next)], WalkEach(g, v, next));
    outcome := Visited(res.items);
  }

  // ---------------------------------------------------------------- flattening

  function FlattenOnto(acc: seq<string>, visits: seq<Visit>): seq<string> {
    if visits == [] then acc
    else AddAll(FlattenOnto(acc, visits[..|visits| - 1]), visits[|visits| - 1].next)
  }

  lemma {:induction false} FlattenCovers(acc: seq<string>, visits: seq<Visit>, x: string)
    ensures x in FlattenOnto(acc, visits) <==> x in acc || Covers(visits, x)
    ensures |acc| <= |FlattenOnto(acc, visits)| && FlattenOnto(acc, visits)[..|acc|] == acc
  {
    hide Covers;
    if visits == [] {
      CoversNothing(x);
    } else {
      var init, last := visits[..|visits| - 1], visits[|visits| - 1];
      FlattenCovers(acc, init, x);
      CoversConcat(init, [last], x);
      CoversOne(last, x);
      assert init + [last] == visits;
    }
  }

  lemma CoversOne(v: Visit, x: string)
    ensures Covers([v], x) <==> x in v.next
  {
    assert [v][0] == v;
  }

  lemma {:induction false} FlattenDistinct(acc: seq<string>, visits: seq<Visit>)
    requires Distinct(acc)
    ensures Distinct(FlattenOnto(acc, visits))
  {
    if visits != [] {
      FlattenDistinct(acc, visits[..|visits| - 1]);
      AddAllDistinct(FlattenOnto(acc, visits[..|visits| - 1]), visits[|visits| - 1].next);
    }
  }

  /** The flattened successors of v. */
  ghost function SuccessorsOf(g: Graph, v: string): seq<string>
    requires Proper(g)
  {
    FlattenOnto([v], Walk(g, v))
  }

  /** The flattened predecessors of v. */
  ghost function PredecessorsOf(g: Graph, v: string): seq<string>
    requires Proper(g)
  {
    ReverseIsProper(g);
    FlattenOnto([v], Walk(Reverse(g), v))
  }

  /** The flattened successors are exactly the nodes reachable from v, itself first, each once. */
  lemma FlattenedSuccessors(g: Graph, v: string)
    requires Proper(g)
    ensures forall x :: x in SuccessorsOf(g, v) <==> ReachesOrIs(g, v, x)
    ensures Distinct(SuccessorsOf(g, v)) && SuccessorsOf(g, v) != [] && SuccessorsOf(g, v)[0] == v
  {
    hide Proper, Reaches, Covers, Walk, FlattenOnto;
    forall x ensures x in SuccessorsOf(g, v) <==> ReachesOrIs(g, v, x) {
      WalkExact(g, v, x);
      FlattenCovers([v], Walk(g, v), x);
    }
    FlattenCovers([v], Walk(g, v), v);
    assert SuccessorsOf(g, v)[..1][0] == v;
    FlattenDistinct([v], Walk(g, v));
  }

  /** The flattened predecessors are exactly the nodes that reach v, itself first, each once. */
  lemma FlattenedPredecessors(g: Graph, v: string)
    requires Proper(g)
    ensures forall x :: x in PredecessorsOf(g, v) <==> ReachesOrIs(g, x, v)
    ensures Distinct(PredecessorsOf(g, v)) && PredecessorsOf(g, v) != [] && PredecessorsOf(g, v)[0] == v
  {
    hide Proper, Reaches, Reverse, FlattenOnto, Walk;
    ReverseIsProper(g);
    FlattenedSuccessors(Reverse(g), v);
    forall x ensures ReachesOrIs(Reverse(g), v, x) <==> ReachesOrIs(g, x, v) {
      ReverseReaches(g, v, x);
    }
    assert PredecessorsOf(g, v) == SuccessorsOf(Reverse(g), v);
  }

  /** _flattenSuccessors and _flattenPredecessors: a Set grown from the node itself; undefined adds nothing. */
  method Flatten(outcome: Traversal, v: string) returns (flat: seq<string>)
    requires outcome != Thrown
    ensures flat == FlattenOnto([v], if outcome.Visited? then outcome.visits else [])
  {
    flat := [v];
    if outcome.Visited? {
      var visits := outcome.visits;
      for i := 0 to |visits|
        invariant flat == FlattenOnto([v], visits[..i])
      {
        ghost var before := flat;
        var next := visits[i].next;
        for k := 0 to |next|
          invariant flat == AddAll(before, next[..k])
        {
          assert next[..k + 1][..k] == next[..k];
          if next[k] !in flat {
            flat := flat + [next[k]];
          }
        }
        assert next[..|next|] == next;
        assert visits[..i + 1][..i] == visits[..i];
      }
      assert visits[..|visits|] == visits;
    }
  }

  // ---------------------------------------------------------------- the sub-pipeline

  function FindNode(nodes: seq<Node>, name: string): (r: Option<nat>)
    ensures r.Some? ==> r.value < |nodes| && nodes[r.value].nodeName == name
    ensures r.None? <==> !Named(nodes, name)
  {
    Find(nodes, (n: Node) => n.nodeName == name)
  }

  /** The nodes of the pipeline with the given names; a name without a node is skipped. */
  function Kept(names: seq<string>, nodes: seq<Node>): seq<Node> {
    if names == [] then []
    else
      var at := FindNode(nodes, names[|names| - 1]);
      Kept(names[..|names| - 1], nodes) + if at.Some? then [nodes[at.value]] else []
  }

  /** A stored output of a node. */
  datatype Output = Output(node: string, result: string)

  /** A node record of the pipeline; the sub-pipeline holds the same records. */
  class PipelineNode {
    const node: Node
    var parentOutput: Option<seq<Output>>

    constructor (node: Node)
      ensures this.node == node && parentOutput == None
    {
      this.node := node;
      parentOutput := None;
    }
  }

  function NodesOf(records: seq<PipelineNode>): (r: seq<Node>)
    ensures |r| == |records| && forall i :: 0 <= i < |r| ==> r[i] == records[i].node
  {
    if records == [] then [] else NodesOf(records[..|records| - 1]) + [records[|records| - 1].node]
  }

  /** _createSubPipeline */
  method CreateSubPipeline(names: seq<string>, pipeline: seq<PipelineNode>) returns (kept: seq<PipelineNode>)
    ensures NodesOf(kept) == Kept(names, NodesOf(pipeline))
    ensures forall r :: r in kept ==> r in pipeline
  {
    hide FindNode;
    kept := [];
    for i := 0 to |names|
      invariant NodesOf(kept) == Kept(names[..i], NodesOf(pipeline))
      invariant forall r :: r in kept ==> r in pipeline
    {
      assert names[..i + 1][..i] == names[..i];
      var at := FindNode(NodesOf(pipeline), names[i]);
      if at.Some? {
        kept := kept + [pipeline[at.value]];
      }
    }
    assert names[..|names|] == names;
  }

  lemma {:induction false} KeptInOrder(names: seq<string>, nodes: seq<Node>)
    requires forall i :: 0 <= i < |names| ==> Named(nodes, names[i])
    ensures |Kept(names, nodes)| == |names|
    ensures forall i :: 0 <= i < |names| ==>
              Kept(names, nodes)[i].nodeName == names[i] && Kept(names, nodes)[i] in nodes
  {
    hide FindNode, Named;
    if names != [] {
      var init := names[..|names| - 1];
      assert forall i :: 0 <= i < |init| ==> init[i] == names[i];
      KeptInOrder(init, nodes);
      assert FindNode(nodes, names[|names| - 1]).Some?;
    }
  }

  /** The nodes of an accepted pipeline at or below start. */
  ghost function SubNodes(nodes: seq<Node>, start: string): seq<Node>
    requires Proper(MapOf(nodes))
  {
    Kept(SuccessorsOf(MapOf(nodes), start), nodes)
  }

  lemma AcceptedMapIsProper(nodes: seq<Node>, checkFlowInput: bool)
    requires VerdictOf(nodes, checkFlowInput) == Accepted
    ensures Proper(MapOf(nodes)) && MapOf(nodes).nodes == NamesOf(nodes)
    ensures DistinctBy(nodes, NodeName) && ReferencesExist(nodes)
  {
    hide DistinctBy, ReferencesExist, Reaches, LinksOf, FirstFault;
    AcceptedExactly(nodes, checkFlowInput);
    GraphIsWellFormed(nodes);
    forall a ensures !Reaches(MapOf(nodes), a, a) { MapReaches(nodes, a, a); }
  }

  lemma NamedInNames(nodes: seq<Node>, name: string)
    ensures Named(nodes, name) <==> name in NamesOf(nodes)
  {
  }

  /** A reference of a node is an edge of the map. */
  lemma ReferenceIsEdge(nodes: seq<Node>, n: Node, x: string)
    requires n in nodes && RefersTo(n, x)
    ensures HasEdge(MapOf(nodes), x, n.nodeName)
  {
    hide RefersTo, LinksOf, Ends;
    var i :| 0 <= i < |nodes| && nodes[i] == n;
    LinksExact(nodes, Edge(x, n.nodeName));
  }

  /** The sub-pipeline holds exactly the nodes at or below the start, each once, the start first. */
  lemma SubNodesExactly(nodes: seq<Node>, checkFlowInput: bool, start: string)
    requires VerdictOf(nodes, checkFlowInput) == Accepted && Named(nodes, start)
    ensures Proper(MapOf(nodes)) && DistinctBy(nodes, NodeName)
    ensures forall n :: n in SubNodes(nodes, start) <==> n in nodes && ReachesOrIs(MapOf(nodes), start, n.nodeName)
    ensures DistinctBy(SubNodes(nodes, start), NodeName)
    ensures SubNodes(nodes, start) != [] && SubNodes(nodes, start)[0].nodeName == start
  {
    hide VerdictOf, DistinctBy, ReferencesExist, Reaches, MapOf, SuccessorsOf, Named, Proper, Kept, NamesOf;
    AcceptedMapIsProper(nodes, checkFlowInput);
    var g := MapOf(nodes);
    var names := SuccessorsOf(g, start);
    FlattenedSuccessors(g, start);
    forall i | 0 <= i < |names| ensures Named(nodes, names[i]) {
      BelowIsNamed(nodes, start, names[i]);
    }
    KeptInOrder(names, nodes);
    var kept := Kept(names, nodes);
    forall n | n in nodes && n.nodeName in names ensures n in kept {
      var i :| 0 <= i < |names| && names[i] == n.nodeName;
      OneByName(nodes, NodeName, n, kept[i]);
    }
    NamesAreDistinct(kept, names);
  }

  lemma NamesAreDistinct(kept: seq<Node>, names: seq<string>)
    requires |kept| == |names| && Distinct(names) && forall i :: 0 <= i < |kept| ==> kept[i].nodeName == names[i]
    ensures DistinctBy(kept, NodeName)
  {
  }

  lemma BelowIsNamed(nodes: seq<Node>, start: string, x: string)
    requires Proper(MapOf(nodes)) && MapOf(nodes).nodes == NamesOf(nodes)
    requires Named(nodes, start) && ReachesOrIs(MapOf(nodes), start, x)
    ensures Named(nodes, x)
  {
    hide MapOf, Named, NamesOf, Reaches, WellFormed;
    if x != start {
      ReachesInNodes(MapOf(nodes), start, x);
      NamedInNames(nodes, x);
    }
  }

  /** Nothing below the start is left behind: a node that takes input from a kept node is kept. */
  lemma SubPipelineIsClosed(nodes: seq<Node>, checkFlowInput: bool, start: string, n: Node, m: Node)
    requires VerdictOf(nodes, checkFlowInput) == Accepted && Named(nodes, start) && Proper(MapOf(nodes))
    requires n in SubNodes(nodes, start) && m in nodes && RefersTo(m, n.nodeName)
    ensures m in SubNodes(nodes, start)
  {
    hide VerdictOf, Named, Reaches, MapOf, SubNodes, RefersTo, Proper, DistinctBy;
    var g := MapOf(nodes);
    SubNodesExactly(nodes, checkFlowInput, start);
    ReferenceIsEdge(nodes, m, n.nodeName);
    EdgeReaches(g, n.nodeName, m.nodeName);
    if n.nodeName != start { ReachesTransitive(g, start, n.nodeName, m.nodeName); }
  }

  /** The sub-pipeline is itself acyclic. */
  lemma SubPipelineIsAcyclic(nodes: seq<Node>, checkFlowInput: bool, start: string)
    requires VerdictOf(nodes, checkFlowInput) == Accepted && Named(nodes, start) && Proper(MapOf(nodes))
    ensures Acyclic(GraphOf(SubNodes(nodes, start)))
  {
    hide VerdictOf, Named, Reaches, SubNodes, RefersTo, DistinctBy, LinksOf, NamesOf, FirstFault, ReferencesExist;
    var kept := SubNodes(nodes, start);
    SubNodesExactly(nodes, checkFlowInput, start);
    AcceptedExactly(nodes, checkFlowInput);
    forall e | e in LinksOf(kept) ensures e in LinksOf(nodes) { FewerNodesFewerLinks(kept, nodes, e); }
    forall a ensures !Reaches(GraphOf(kept), a, a) {
      if Reaches(GraphOf(kept), a, a) { MoreEdgesReachMore(GraphOf(kept), GraphOf(nodes), a, a); }
    }
  }

  lemma FewerNodesFewerLinks(kept: seq<Node>, nodes: seq<Node>, e: Edge)
    requires forall n :: n in kept ==> n in nodes
    requires e in LinksOf(kept)
    ensures e in LinksOf(nodes)
  {
    hide LinksOf, RefersTo;
    LinksExact(kept, e);
    LinksExact(nodes, e);
    var i :| 0 <= i < |kept| && kept[i].nodeName == e.target && RefersTo(kept[i], e.source);
    assert kept[i] in nodes;
    var j :| 0 <= j < |nodes| && nodes[j] == kept[i];
  }

  /** The start can run at once: it takes no input from any kept node. */
  lemma StartIsEntry(nodes: seq<Node>, checkFlowInput: bool, start: string, n: Node)
    requires VerdictOf(nodes, checkFlowInput) == Accepted && Named(nodes, start) && Proper(MapOf(nodes))
    requires n in SubNodes(nodes, start)
    ensures !RefersTo(SubNodes(nodes, start)[0], n.nodeName)
  {
    hide VerdictOf, Named, Reaches, MapOf, SubNodes, RefersTo, WellFormed, DistinctBy;
    var g := MapOf(nodes);
    SubNodesExactly(nodes, checkFlowInput, start);
    var first := SubNodes(nodes, start)[0];
    assert first in SubNodes(nodes, start);
    if RefersTo(first, n.nodeName) {
      ReferenceIsEdge(nodes, first, n.nodeName);
      EdgeReaches(g, n.nodeName, start);
      if n.nodeName != start { ReachesTransitive(g, start, n.nodeName, start); }
    }
  }

  /** The outputs that the start waits for are collected: its inputs are among the flattened predecessors. */
  lemma StartInputsCollected(nodes: seq<Node>, checkFlowInput: bool, n: Node, x: string)
    requires VerdictOf(nodes, checkFlowInput) == Accepted && Proper(MapOf(nodes))
    requires n in nodes && RefersTo(n, x)
    ensures x in PredecessorsOf(MapOf(nodes), n.nodeName)
  {
    hide VerdictOf, Reaches, MapOf, RefersTo, Proper, PredecessorsOf;
    ReferenceIsEdge(nodes, n, x);
    EdgeReaches(MapOf(nodes), x, n.nodeName);
    FlattenedPredecessors(MapOf(nodes), n.nodeName);
  }

  /** What is run again and what is reused meet only in the start. */
  lemma FlattenedMeetInStart(g: Graph, v: string, x: string)
    requires Proper(g)
    ensures x in SuccessorsOf(g, v) && x in PredecessorsOf(g, v) <==> x == v
  {
    hide Reaches, SuccessorsOf, PredecessorsOf, WellFormed;
    FlattenedSuccessors(g, v);
    FlattenedPredecessors(g, v);
    if x != v && Reaches(g, v, x) && Reaches(g, x, v) { ReachesTransitive(g, v, x, v); }
  }
}
