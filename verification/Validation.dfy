/** Validation of the nodes of a pipeline (api-server, lib/validation/api-validator.js, _validateNodes). */
module Validation {
  import opened Collections
  import opened Graphs
  import opened Pipelines

  datatype Verdict =
    | Accepted
    | Duplicate(nodeName: string)
    | Reserved
    | UnknownFlowInput(nodeName: string)
    | Missing(nodeName: string, ref: string)
    | Cyclic

  const RESERVED := "flowInput"

  // ---------------------------------------------------------------- the checks in order

  /** The first reference that names no node of the pipeline. */
  function FirstMissing(refs: seq<string>, nodes: seq<Node>): (r: Option<string>)
    ensures r.None? <==> forall x :: x in refs ==> Named(nodes, x)
    ensures r.Some? ==> r.value in refs && !Named(nodes, r.value)
  {
    if refs == [] then None
    else if !Named(nodes, refs[0]) then Some(refs[0])
    else FirstMissing(refs[1..], nodes)
  }

  predicate InputGood(i: Input, nodes: seq<Node>, checkFlowInput: bool) {
    (checkFlowInput ==> i.flowKnown) && forall x :: x in i.refs ==> Named(nodes, x)
  }

  /** The first fault of the inputs of a node: each input is checked for its flow input, then for its
      references. */
  function InputFault(n: string, inputs: seq<Input>, nodes: seq<Node>, checkFlowInput: bool): (v: Verdict)
    ensures v.Accepted? <==> forall k :: 0 <= k < |inputs| ==> InputGood(inputs[k], nodes, checkFlowInput)
    ensures v.Accepted? || v == UnknownFlowInput(n) || (v.Missing? && v.nodeName == n && !Named(nodes, v.ref))
  {
    if inputs == [] then Accepted
    else if checkFlowInput && !inputs[0].flowKnown then UnknownFlowInput(n)
    else
      var missing := FirstMissing(inputs[0].refs, nodes);
      if missing.Some? then Missing(n, missing.value)
      else
        var rest := InputFault(n, inputs[1..], nodes, checkFlowInput);
        assert forall k :: 0 < k < |inputs| ==> inputs[k] == inputs[1..][k - 1];
        rest
  }

  /** The first fault of node i: a name used before, the reserved name, then its inputs. */
  function NodeFault(nodes: seq<Node>, i: nat, checkFlowInput: bool): Verdict
    requires i < |nodes|
  {
    var n := nodes[i];
    if Named(nodes[..i], n.nodeName) then Duplicate(n.nodeName)
    else if n.nodeName == RESERVED then Reserved
    else if n.input.None? then Accepted
    else InputFault(n.nodeName, n.input.value, nodes, checkFlowInput)
  }

  function FirstFault(nodes: seq<Node>, i: nat, checkFlowInput: bool): Verdict
    requires i <= |nodes|
    decreases |nodes| - i
  {
    if i == |nodes| then Accepted
    else
      var v := NodeFault(nodes, i, checkFlowInput);
      if v != Accepted then v else FirstFault(nodes, i + 1, checkFlowInput)
  }

  // ---------------------------------------------------------------- what acceptance means

  ghost predicate ReferencesExist(nodes: seq<Node>) {
    forall i, x :: 0 <= i < |nodes| && RefersTo(nodes[i], x) ==> Named(nodes, x)
  }

  ghost predicate FlowInputsKnown(nodes: seq<Node>) {
    forall i :: 0 <= i < |nodes| ==> KnownIn(nodes[i])
  }

  ghost predicate KnownIn(n: Node) {
    n.input.Some? ==> forall k :: 0 <= k < |n.input.value| ==> n.input.value[k].flowKnown
  }

  ghost predicate NodeGood(nodes: seq<Node>, i: nat, checkFlowInput: bool)
    requires i < |nodes|
  {
    && !Named(nodes[..i], nodes[i].nodeName) && nodes[i].nodeName != RESERVED
    && InputsGood(nodes, nodes[i], checkFlowInput)
  }

  lemma {:induction false} NoFaultExactly(nodes: seq<Node>, i: nat, checkFlowInput: bool)
    requires i <= |nodes|
    ensures FirstFault(nodes, i, checkFlowInput).Accepted? <==>
              forall k :: i <= k < |nodes| ==> NodeGood(nodes, k, checkFlowInput)
    ensures !FirstFault(nodes, i, checkFlowInput).Cyclic?
    decreases |nodes| - i
  {
    if i < |nodes| {
      NoFaultExactly(nodes, i + 1, checkFlowInput);
      hide InputFault;
      assert NodeFault(nodes, i, checkFlowInput).Accepted? <==> NodeGood(nodes, i, checkFlowInput);
      hide NodeGood, NodeFault;
    }
  }

  ghost predicate InputsGood(nodes: seq<Node>, n: Node, checkFlowInput: bool) {
    n.input.Some? ==> forall k :: 0 <= k < |n.input.value| ==> InputGood(n.input.value[k], nodes, checkFlowInput)
  }

  lemma InputsGoodExactly(nodes: seq<Node>, n: Node, checkFlowInput: bool)
    ensures InputsGood(nodes, n, checkFlowInput) <==>
              && (forall x :: RefersTo(n, x) ==> Named(nodes, x))
              && (checkFlowInput ==> KnownIn(n))
  {
    hide Named;
    if n.input.Some? && !InputsGood(nodes, n, checkFlowInput) {
      var k :| 0 <= k < |n.input.value| && !InputGood(n.input.value[k], nodes, checkFlowInput);
      if x :| x in n.input.value[k].refs && !Named(nodes, x) {
        assert RefersTo(n, x);
      }
    }
  }

  lemma GoodNodesExactly(nodes: seq<Node>, checkFlowInput: bool)
    ensures (forall k :: 0 <= k < |nodes| ==> NodeGood(nodes, k, checkFlowInput)) <==>
              && DistinctBy(nodes, NodeName) && !Named(nodes, RESERVED) && ReferencesExist(nodes)
              && (checkFlowInput ==> FlowInputsKnown(nodes))
  {
    forall k | 0 <= k < |nodes| {
      InputsGoodExactly(nodes, nodes[k], checkFlowInput);
    }
    hide DistinctBy, InputsGood, RefersTo, KnownIn;
    if forall k :: 0 <= k < |nodes| ==> NodeGood(nodes, k, checkFlowInput) {
      forall k | 0 <= k < |nodes| ensures !Named(nodes[..k], nodes[k].nodeName) && nodes[k].nodeName != RESERVED {
        assert NodeGood(nodes, k, checkFlowInput);
      }
      forall k | 0 <= k < |nodes| ensures InputsGood(nodes, nodes[k], checkFlowInput) {
        assert NodeGood(nodes, k, checkFlowInput);
      }
    } else {
      var k :| 0 <= k < |nodes| && !NodeGood(nodes, k, checkFlowInput);
      if nodes[k].nodeName == RESERVED {
        assert Named(nodes, RESERVED);
      }
    }
  }

  // ---------------------------------------------------------------- the verdict

  ghost function VerdictOf(nodes: seq<Node>, checkFlowInput: bool): Verdict {
    var fault := FirstFault(nodes, 0, checkFlowInput);
    if fault != Accepted then fault else if Acyclic(GraphOf(nodes)) then Accepted else Cyclic
  }

  /** A pipeline is accepted exactly when its names are distinct and none is reserved, every reference names
      one of its nodes, its flow inputs are known when they are checked, and its graph has no cycle. */
  lemma AcceptedExactly(nodes: seq<Node>, checkFlowInput: bool)
    ensures VerdictOf(nodes, checkFlowInput) == Accepted <==>
              && DistinctBy(nodes, NodeName) && !Named(nodes, RESERVED) && ReferencesExist(nodes)
              && (checkFlowInput ==> FlowInputsKnown(nodes))
              && Acyclic(GraphOf(nodes))
  {
    hide DistinctBy, Named, ReferencesExist, FlowInputsKnown, Acyclic, NodeGood;
    NoFaultExactly(nodes, 0, checkFlowInput);
    GoodNodesExactly(nodes, checkFlowInput);
  }

  /** The fault that a verdict reports about node n of the pipeline. */
  ghost predicate FaultOf(v: Verdict, nodes: seq<Node>, i: nat, checkFlowInput: bool)
    requires i < |nodes|
  {
    var n := nodes[i];
    match v
    case Duplicate(name) => n.nodeName == name && Named(nodes[..i], name)
    case Reserved => n.nodeName == RESERVED
    case UnknownFlowInput(name) => n.nodeName == name && checkFlowInput && !KnownIn(n)
    case Missing(name, ref) => n.nodeName == name && RefersTo(n, ref) && !Named(nodes, ref)
    case _ => false
  }

  lemma {:induction false} InputFaultIsReal(n: string, inputs: seq<Input>, nodes: seq<Node>, checkFlowInput: bool)
    ensures var v := InputFault(n, inputs, nodes, checkFlowInput);
      && (v.UnknownFlowInput? ==> checkFlowInput && exists k :: 0 <= k < |inputs| && !inputs[k].flowKnown)
      && (v.Missing? ==> exists k :: 0 <= k < |inputs| && v.ref in inputs[k].refs)
  {
    if inputs != [] {
      InputFaultIsReal(n, inputs[1..], nodes, checkFlowInput);
      assert forall k :: 0 < k < |inputs| ==> inputs[k] == inputs[1..][k - 1];
      assert forall k :: 0 <= k < |inputs| - 1 ==> inputs[1..][k] == inputs[k + 1];
    }
  }

  /** A rejected pipeline has the reported fault, at the first node that has any. */
  lemma {:induction false} FirstFaultIsReal(nodes: seq<Node>, i: nat, checkFlowInput: bool) returns (at: nat)
    requires i <= |nodes| && FirstFault(nodes, i, checkFlowInput) != Accepted
    ensures i <= at < |nodes| && FaultOf(FirstFault(nodes, i, checkFlowInput), nodes, at, checkFlowInput)
    ensures forall k :: i <= k < at ==> NodeGood(nodes, k, checkFlowInput)
    decreases |nodes| - i
  {
    if NodeFault(nodes, i, checkFlowInput) != Accepted {
      at := i;
      if nodes[i].input.Some? {
        InputFaultIsReal(nodes[i].nodeName, nodes[i].input.value, nodes, checkFlowInput);
      }
    } else {
      at := FirstFaultIsReal(nodes, i + 1, checkFlowInput);
      hide FaultOf;
    }
  }

  lemma GraphIsWellFormed(nodes: seq<Node>)
    requires ReferencesExist(nodes)
    ensures WellFormed(GraphOf(nodes))
  {
    forall e | e in LinksOf(nodes) ensures e.source in NamesOf(nodes) && e.target in NamesOf(nodes) {
      LinksExact(nodes, e);
      var i :| 0 <= i < |nodes| && nodes[i].nodeName == e.target && RefersTo(nodes[i], e.source);
      hide LinksOf, RefersTo;
      assert Named(nodes, e.source);
      var j :| 0 <= j < |nodes| && nodes[j].nodeName == e.source;
    }
  }

  /** An accepted pipeline with nodes can be run: its nodes have a topological order, and one of them
      takes no input from another. */
  lemma AcceptedRuns(nodes: seq<Node>, checkFlowInput: bool) returns (order: seq<string>, entry: nat)
    requires VerdictOf(nodes, checkFlowInput) == Accepted && nodes != []
    ensures Topological(order, GraphOf(nodes))
    ensures entry < |nodes| && IsEntry(nodes[entry])
  {
    hide Acyclic, Topological, LinksOf;
    AcceptedExactly(nodes, checkFlowInput);
    GraphIsWellFormed(nodes);
    NothingTaken(GraphOf(nodes));
    order := OrderExists(GraphOf(nodes), [], NamesOf(nodes));
    assert nodes[0].nodeName in NamesOf(nodes);
    var a := EntryExists(GraphOf(nodes));
    var i :| 0 <= i < |nodes| && nodes[i].nodeName == a;
    entry := i;
    NoLinkNoInput(nodes, i);
  }

  lemma NoLinkNoInput(nodes: seq<Node>, i: nat)
    requires i < |nodes| && forall e :: e in LinksOf(nodes) ==> e.target != nodes[i].nodeName
    ensures IsEntry(nodes[i])
  {
    hide LinksOf;
    if !IsEntry(nodes[i]) {
      var k :| 0 <= k < |nodes[i].input.value| && nodes[i].input.value[k].refs != [];
      var x := nodes[i].input.value[k].refs[0];
      assert RefersTo(nodes[i], x);
      LinksExact(nodes, Edge(x, nodes[i].nodeName));
    }
  }

  /** Each node refers to earlier nodes only. */
  ghost predicate Forward(nodes: seq<Node>) {
    forall i, x :: 0 <= i < |nodes| && RefersTo(nodes[i], x) ==> Named(nodes[..i], x)
  }

  function Names(nodes: seq<Node>): (r: seq<string>)
    ensures |r| == |nodes| && forall i :: 0 <= i < |r| ==> r[i] == nodes[i].nodeName
  {
    if nodes == [] then [] else Names(nodes[..|nodes| - 1]) + [nodes[|nodes| - 1].nodeName]
  }

  lemma ForwardIsOrdered(nodes: seq<Node>)
    requires DistinctBy(nodes, NodeName) && Forward(nodes)
    ensures Topological(Names(nodes), GraphOf(nodes))
  {
    var order := Names(nodes);
    hide Names, RefersTo, LinksOf;
    forall i | 0 <= i < |nodes| ensures order[i] in NamesOf(nodes) { assert nodes[i] in nodes; }
    forall n | n in nodes ensures n.nodeName in order {
      var i :| 0 <= i < |nodes| && nodes[i] == n;
      assert order[i] == n.nodeName;
    }
    forall e | e in LinksOf(nodes) ensures Before(order, e.source, e.target) {
      LinksExact(nodes, e);
      var j :| 0 <= j < |nodes| && nodes[j].nodeName == e.target && RefersTo(nodes[j], e.source);
      assert Named(nodes[..j], e.source);
      var i :| 0 <= i < j && nodes[..j][i].nodeName == e.source;
      assert order[i] == e.source && order[j] == e.target;
    }
  }

  /** A pipeline that is written in an order of its nodes is accepted. */
  lemma ForwardIsAccepted(nodes: seq<Node>, checkFlowInput: bool)
    requires DistinctBy(nodes, NodeName) && !Named(nodes, RESERVED) && FlowInputsKnown(nodes) && Forward(nodes)
    ensures VerdictOf(nodes, checkFlowInput) == Accepted
  {
    hide RefersTo, Acyclic, Topological, VerdictOf, LinksOf;
    forall i, x | 0 <= i < |nodes| && RefersTo(nodes[i], x) ensures Named(nodes, x) {
      var k :| 0 <= k < i && nodes[..i][k].nodeName == x;
      assert nodes[k].nodeName == x;
    }
    ForwardIsOrdered(nodes);
    OrderedIsAcyclic(Names(nodes), GraphOf(nodes));
    AcceptedExactly(nodes, checkFlowInput);
  }

  // ---------------------------------------------------------------- the loops

  /** The inputs of one node: references are pushed as links until the first fault. */
  method ValidateInputs(name: string, inputs: seq<Input>, nodes: seq<Node>, checkFlowInput: bool, links: seq<Edge>)
    returns (v: Verdict, out: seq<Edge>)
    ensures v == InputFault(name, inputs, nodes, checkFlowInput)
    ensures v == Accepted ==> out == links + LinksOfInputs(name, inputs)
  {
    hide FirstMissing, LinksOfRefs, Named;
    out := links;
    assert inputs[0..] == inputs;
    for k := 0 to |inputs|
      invariant InputFault(name, inputs, nodes, checkFlowInput) == InputFault(name, inputs[k..], nodes, checkFlowInput)
      invariant out == links + LinksOfInputs(name, inputs[..k])
    {
      var inp := inputs[k];
      assert inputs[k..][0] == inp && inputs[k..][1..] == inputs[k + 1..];
      if checkFlowInput && !inp.flowKnown {
        return UnknownFlowInput(name), out;
      }
      var missing;
      missing, out := PushReferences(name, inp.refs, nodes, out);
      if missing.Some? {
        return Missing(name, missing.value), out;
      }
      assert inputs[..k + 1][..k] == inputs[..k];
      Assoc(links, LinksOfInputs(name, inputs[..k]), LinksOfRefs(name, inp.refs));
    }
    assert inputs[..|inputs|] == inputs;
    v := Accepted;
  }

  method PushReferences(name: string, refs: seq<string>, nodes: seq<Node>, links: seq<Edge>)
    returns (missing: Option<string>, out: seq<Edge>)
    ensures missing == FirstMissing(refs, nodes)
    ensures missing.None? ==> out == links + LinksOfRefs(name, refs)
  {
    out := links;
    assert refs[0..] == refs;
    for k := 0 to |refs|
      invariant FirstMissing(refs, nodes) == FirstMissing(refs[k..], nodes)
      invariant out == links + LinksOfRefs(name, refs[..k])
    {
      assert refs[k..][0] == refs[k] && refs[k..][1..] == refs[k + 1..];
      if !Named(nodes, refs[k]) {
        return Some(refs[k]), out;
      }
      assert refs[..k + 1][..k] == refs[..k];
      out := out + [Edge(refs[k], name)];
    }
    assert refs[..|refs|] == refs;
    missing := None;
  }

  /** _validateNodes: the nodes in order, throwing the first fault, then the acyclicity of the links. */
  method ValidateNodes(nodes: seq<Node>, checkFlowInput: bool) returns (v: Verdict)
    ensures v == VerdictOf(nodes, checkFlowInput)
  {
    hide InputFault, LinksOfInputs, Acyclic;
    var names: set<string> := {};
    var links: seq<Edge> := [];
    for i := 0 to |nodes|
      invariant FirstFault(nodes, 0, checkFlowInput) == FirstFault(nodes, i, checkFlowInput)
      invariant names == NamesOf(nodes[..i])
      invariant links == LinksOf(nodes[..i])
    {
      var n := nodes[i];
      assert nodes[..i + 1][..i] == nodes[..i];
      assert nodes[..i + 1] == nodes[..i] + [n];
      if n.nodeName in names {
        return Duplicate(n.nodeName);
      }
      if n.nodeName == RESERVED {
        return Reserved;
      }
      if n.input.Some? {
        v, links := ValidateInputs(n.nodeName, n.input.value, nodes, checkFlowInput, links);
        if v != Accepted {
          return;
        }
      }
      names := names + {n.nodeName};
    }
    assert nodes[..|nodes|] == nodes;
    NoFaultExactly(nodes, 0, checkFlowInput);
    GoodNodesExactly(nodes, checkFlowInput);
    GraphIsWellFormed(nodes);
    var acyclic, _ := IsAcyclic(Graph(names, links));
    v := if acyclic then Accepted else Cyclic;
  }
}
