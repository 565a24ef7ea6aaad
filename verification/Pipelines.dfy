/** Pipelines as the services see them: nodes whose inputs refer to other nodes. */
module Pipelines {
  import opened Collections
  import opened Graphs

  /** One input of a node: the node names the parser extracts from it, whether its flow input is known, and
      its text when it is a string and not an object, array or number. */
  datatype Input = Input(refs: seq<string>, flowKnown: bool, text: Option<string>)

  datatype Node = Node(nodeName: string, input: Option<seq<Input>>)

  datatype Pipeline = Pipeline(name: string, nodes: seq<Node>)

  function NodeName(n: Node): string { n.nodeName }

  predicate Named(nodes: seq<Node>, name: string) {
    exists i :: 0 <= i < |nodes| && nodes[i].nodeName == name
  }

  predicate RefersTo(n: Node, name: string) {
    n.input.Some? && exists k :: 0 <= k < |n.input.value| && name in n.input.value[k].refs
  }

  /** A node without node inputs. */
  predicate IsEntry(n: Node) {
    n.input.Some? ==> forall k :: 0 <= k < |n.input.value| ==> n.input.value[k].refs == []
  }

  // ---------------------------------------------------------------- links

  function LinksOfInputs(name: string, inputs: seq<Input>): seq<Edge> {
    if inputs == [] then []
    else LinksOfInputs(name, inputs[..|inputs| - 1]) + LinksOfRefs(name, inputs[|inputs| - 1].refs)
  }

  function LinksOfRefs(name: string, refs: seq<string>): (r: seq<Edge>)
    ensures forall e :: e in r <==> e.target == name && e.source in refs
  {
    if refs == [] then []
    else
      assert refs == refs[..|refs| - 1] + [refs[|refs| - 1]];
      LinksOfRefs(name, refs[..|refs| - 1]) + [Edge(refs[|refs| - 1], name)]
  }

  function LinksOf(nodes: seq<Node>): seq<Edge> {
    if nodes == [] then []
    else
      var n := nodes[|nodes| - 1];
      LinksOf(nodes[..|nodes| - 1]) + if n.input.Some? then LinksOfInputs(n.nodeName, n.input.value) else []
  }

  function NamesOf(nodes: seq<Node>): set<string> { set n | n in nodes :: n.nodeName }

  function GraphOf(nodes: seq<Node>): Graph { Graph(NamesOf(nodes), LinksOf(nodes)) }

  lemma {:induction false} InputLinksExact(name: string, inputs: seq<Input>, e: Edge)
    ensures e in LinksOfInputs(name, inputs) <==>
              e.target == name && exists k :: 0 <= k < |inputs| && e.source in inputs[k].refs
  {
    if inputs != [] {
      var init, last := inputs[..|inputs| - 1], inputs[|inputs| - 1];
      InputLinksExact(name, init, e);
      assert forall k :: 0 <= k < |init| ==> init[k] == inputs[k];
      hide LinksOfRefs;
    }
  }

  lemma NodeLinksExact(n: Node, e: Edge)
    requires n.input.Some?
    ensures e in LinksOfInputs(n.nodeName, n.input.value) <==> n.nodeName == e.target && RefersTo(n, e.source)
  {
    InputLinksExact(n.nodeName, n.input.value, e);
  }

  /** The links are exactly the references from nodes to nodes. */
  lemma {:induction false} LinksExact(nodes: seq<Node>, e: Edge)
    ensures e in LinksOf(nodes) <==>
              exists i :: 0 <= i < |nodes| && nodes[i].nodeName == e.target && RefersTo(nodes[i], e.source)
  {
    if nodes != [] {
      var init, last := nodes[..|nodes| - 1], nodes[|nodes| - 1];
      LinksExact(init, e);
      assert !last.input.Some? ==> !RefersTo(last, e.source);
      if last.input.Some? {
        NodeLinksExact(last, e);
      }
      hide LinksOfInputs, RefersTo;
      assert e in LinksOf(nodes) <==> e in LinksOf(init) || (last.nodeName == e.target && RefersTo(last, e.source));
      hide LinksOf;
      assert forall i :: 0 <= i < |init| ==> init[i] == nodes[i];
    }
  }
}
