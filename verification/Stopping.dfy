/** The search for workers to stop when jobs were skipped
    (task-executor, lib/reconcile/resources.js). */
module Stopping {
  import opened Collections
  import opened Resources
  import opened Sorting

  /** A worker that may be stopped, with the resources its template asks for. */
  datatype StopDetail = StopDetail(
    id: string, algorithmName: string, request: Amount, nodeName: Option<string>, podName: Option<string>)

  datatype LoadedNode = LoadedNode(node: NodeState, workers: seq<StopDetail>)

  function MatchWorkersToNodes(nodes: seq<NodeState>, workers: seq<StopDetail>): (r: seq<LoadedNode>)
    ensures |r| == |nodes|
    ensures forall i :: 0 <= i < |r| ==> r[i].node == nodes[i]
    ensures forall i, w :: 0 <= i < |r| ==>
              (w in r[i].workers <==> w in workers && w.nodeName == Some(nodes[i].name))
  {
    if nodes == [] then []
    else
      var first := LoadedNode(nodes[0], Filter(workers, (w: StopDetail) => w.nodeName == Some(nodes[0].name)));
      [first] + MatchWorkersToNodes(nodes[1..], workers)
  }

  /** The workers of a node keep their order. */
  lemma {:induction false} LoadedInOrder(nodes: seq<NodeState>, workers: seq<StopDetail>, i: nat)
    requires i < |nodes|
    ensures MatchWorkersToNodes(nodes, workers)[i].workers ==
              Filter(workers, (w: StopDetail) => w.nodeName == Some(nodes[i].name))
  {
    hide Filter;
    if i > 0 {
      LoadedInOrder(nodes[1..], workers, i - 1);
    }
  }

  function Candidates(n: LoadedNode, algorithmName: string): (r: seq<StopDetail>)
    ensures forall w :: w in r <==> w in n.workers && w.algorithmName != algorithmName
  {
    Filter(n.workers, (w: StopDetail) => w.algorithmName != algorithmName)
  }

  function IndexByName(nodes: seq<LoadedNode>, name: string): (r: Option<nat>)
    ensures r.Some? ==> r.value < |nodes| && nodes[r.value].node.name == name
    ensures r.Some? ==> forall i :: 0 <= i < r.value ==> nodes[i].node.name != name
    ensures r.None? ==> forall i :: 0 <= i < |nodes| ==> nodes[i].node.name != name
  {
    Find(nodes, (n: LoadedNode) => n.node.name == name)
  }

  function GiveBack(n: NodeState, r: Amount): NodeState {
    n.(free := n.free.Plus(r), requests := n.requests.Minus(r))
  }

  /** _updateNodeResources */
  function UpdateNodeResources(nodes: seq<LoadedNode>, name: string, r: Amount): (next: seq<LoadedNode>)
    ensures |next| == |nodes|
  {
    var at := IndexByName(nodes, name);
    if at.None? then nodes
    else nodes[at.value := nodes[at.value].(node := GiveBack(nodes[at.value].node, r))]
  }

  /** The node list once the resources of the given workers were given back to the named node. */
  function FreedBy(nodes: seq<LoadedNode>, name: string, workers: seq<StopDetail>): (next: seq<LoadedNode>)
    ensures |next| == |nodes|
  {
    if workers == [] then nodes
    else
      UpdateNodeResources(FreedBy(nodes, name, workers[..|workers| - 1]), name, workers[|workers| - 1].request)
  }

  /** _scheduleAlgorithmToNode finds a node. */
  predicate SomeFits(nodes: seq<LoadedNode>, r: Amount) {
    exists i :: 0 <= i < |nodes| && FindNodeForSchedule(nodes[i].node, r)
  }

  // ---------------------------------------------------------------- the search as a function

  /** Fewest popped candidates, k or more, that make some node fit. */
  function FirstPrefix(nodes: seq<LoadedNode>, name: string, workers: seq<StopDetail>, r: Amount,
                       k: nat): (p: Option<nat>)
    requires 1 <= k <= |workers| + 1
    ensures p.Some? ==> k <= p.value <= |workers| && SomeFits(FreedBy(nodes, name, workers[..p.value]), r)
    ensures p.Some? ==> forall l :: k <= l < p.value ==> !SomeFits(FreedBy(nodes, name, workers[..l]), r)
    ensures p.None? ==> forall l :: k <= l <= |workers| ==> !SomeFits(FreedBy(nodes, name, workers[..l]), r)
    decreases |workers| - k
  {
    if k > |workers| then None
    else if SomeFits(FreedBy(nodes, name, workers[..k]), r) then Some(k)
    else FirstPrefix(nodes, name, workers, r, k + 1)
  }

  /** The outcome of a successful search: the accounted node list, the returned worker (only the last
      one popped, because the list is emptied on every turn of the loop), the position of the drained
      node and all the workers popped from it. */
  datatype Drained = Drained(nodes: seq<LoadedNode>, worker: StopDetail, node: nat, popped: seq<StopDetail>)

  function DrainNode(nodes: seq<LoadedNode>, algorithmName: string, r: Amount, i: nat): Option<Drained>
    requires i < |nodes|
  {
    var name, workers := nodes[i].node.name, Candidates(nodes[i], algorithmName);
    var k := FirstPrefix(nodes, name, workers, r, 1);
    if k.None? then None
    else Some(Drained(FreedBy(nodes, name, workers[..k.value]), workers[k.value - 1], i, workers[..k.value]))
  }

  function Drain(nodes: seq<LoadedNode>, algorithmName: string, r: Amount, i: nat): Option<Drained>
    requires i <= |nodes|
    decreases |nodes| - i
  {
    if i == |nodes| then None
    else
      var d := DrainNode(nodes, algorithmName, r, i);
      if d.Some? then d else Drain(nodes, algorithmName, r, i + 1)
  }

  // ---------------------------------------------------------------- what the search achieves

  /** What a list of workers asks for together. */
  function RequestTotal(workers: seq<StopDetail>): Amount {
    if workers == [] then ZERO
    else RequestTotal(workers[..|workers| - 1]).Plus(workers[|workers| - 1].request)
  }

  /** The list with an amount given back to the node at one position. */
  function Raise(nodes: seq<LoadedNode>, at: nat, r: Amount): (next: seq<LoadedNode>)
    requires at < |nodes|
    ensures |next| == |nodes|
    ensures forall i :: 0 <= i < |nodes| && i != at ==> next[i] == nodes[i]
  {
    nodes[at := nodes[at].(node := GiveBack(nodes[at].node, r))]
  }

  lemma SameNames(a: seq<LoadedNode>, b: seq<LoadedNode>, name: string)
    requires |a| == |b| && forall i :: 0 <= i < |a| ==> a[i].node.name == b[i].node.name
    ensures IndexByName(a, name) == IndexByName(b, name)
  {
    assert forall i :: 0 <= i < |a| ==> (a[i].node.name == name <==> b[i].node.name == name);
  }

  /** Draining changes the one node of that name: it gains in free what it loses in requests. */
  lemma {:induction false} FreedByExact(nodes: seq<LoadedNode>, name: string, workers: seq<StopDetail>)
    requires IndexByName(nodes, name).Some?
    ensures FreedBy(nodes, name, workers) == Raise(nodes, IndexByName(nodes, name).value, RequestTotal(workers))
  {
    var at := IndexByName(nodes, name).value;
    if workers == [] {
      assert GiveBack(nodes[at].node, ZERO) == nodes[at].node;
    } else {
      var init := workers[..|workers| - 1];
      FreedByExact(nodes, name, init);
      SameNames(nodes, FreedBy(nodes, name, init), name);
    }
  }

  ghost predicate NonNegativeRequests(workers: seq<StopDetail>) {
    forall w :: w in workers ==> w.request.NonNegative()
  }

  lemma {:induction false} RequestTotalGrows(workers: seq<StopDetail>, k: nat)
    requires k <= |workers| && NonNegativeRequests(workers)
    ensures RequestTotal(workers).Minus(RequestTotal(workers[..k])).NonNegative()
  {
    if k < |workers| {
      var init := workers[..|workers| - 1];
      assert init[..k] == workers[..k];
      assert workers[|workers| - 1] in workers;
      RequestTotalGrows(init, k);
    } else {
      assert workers[..k] == workers;
    }
  }

  lemma FitsGrows(nodes: seq<LoadedNode>, at: nat, less: Amount, more: Amount, r: Amount)
    requires at < |nodes| && more.Minus(less).NonNegative()
    ensures SomeFits(Raise(nodes, at, less), r) ==> SomeFits(Raise(nodes, at, more), r)
  {
    if i :| 0 <= i < |nodes| && FindNodeForSchedule(Raise(nodes, at, less)[i].node, r) {
      assert FindNodeForSchedule(Raise(nodes, at, more)[i].node, r);
    }
  }

  /** Freeing the whole of node i, which must have a candidate, would do. */
  ghost predicate Drainable(nodes: seq<LoadedNode>, algorithmName: string, r: Amount, i: nat)
    requires i < |nodes|
  {
    var workers := Candidates(nodes[i], algorithmName);
    workers != [] && SomeFits(FreedBy(nodes, nodes[i].node.name, workers), r)
  }

  lemma DrainNodeExact(nodes: seq<LoadedNode>, algorithmName: string, r: Amount, i: nat)
    requires i < |nodes| && NonNegativeRequests(nodes[i].workers)
    ensures DrainNode(nodes, algorithmName, r, i).Some? <==> Drainable(nodes, algorithmName, r, i)
  {
    var name, workers := nodes[i].node.name, Candidates(nodes[i], algorithmName);
    var k := FirstPrefix(nodes, name, workers, r, 1);
    assert workers[..|workers|] == workers;
    if k.Some? {
      FreedByExact(nodes, name, workers);
      FreedByExact(nodes, name, workers[..k.value]);
      RequestTotalGrows(workers, k.value);
      FitsGrows(nodes, IndexByName(nodes, name).value, RequestTotal(workers[..k.value]), RequestTotal(workers), r);
    }
  }

  /** The search succeeds exactly when some listed node has a candidate of another algorithm and
      freeing all its candidates would make a listed node fit. */
  lemma {:induction false} DrainExact(nodes: seq<LoadedNode>, algorithmName: string, r: Amount, from: nat)
    requires from <= |nodes|
    requires forall i :: 0 <= i < |nodes| ==> NonNegativeRequests(nodes[i].workers)
    ensures Drain(nodes, algorithmName, r, from).Some? <==>
              exists i :: from <= i < |nodes| && Drainable(nodes, algorithmName, r, i)
    decreases |nodes| - from
  {
    hide DrainNode, Drainable;
    if from < |nodes| {
      DrainNodeExact(nodes, algorithmName, r, from);
      DrainExact(nodes, algorithmName, r, from + 1);
    }
  }

  /** What a successful search returns. */
  ghost predicate DrainOutcome(nodes: seq<LoadedNode>, algorithmName: string, r: Amount, d: Drained) {
    && d.node < |nodes|
    && d.popped != [] && d.popped <= Candidates(nodes[d.node], algorithmName)
    && d.worker == d.popped[|d.popped| - 1]
    // the accounted list fits the request ...
    && SomeFits(d.nodes, r)
    // ... and differs from the input at one node only, where free + requests is unchanged
    && var name := nodes[d.node].node.name;
    && IndexByName(nodes, name).Some?
    && d.nodes == Raise(nodes, IndexByName(nodes, name).value, RequestTotal(d.popped))
    // without the last popped worker it would not fit
    && (|d.popped| >= 2 ==> !SomeFits(FreedBy(nodes, name, d.popped[..|d.popped| - 1]), r))
  }

  lemma DrainNodeSound(nodes: seq<LoadedNode>, algorithmName: string, r: Amount, i: nat)
    requires i < |nodes|
    requires DrainNode(nodes, algorithmName, r, i).Some?
    ensures DrainOutcome(nodes, algorithmName, r, DrainNode(nodes, algorithmName, r, i).value)
    ensures DrainNode(nodes, algorithmName, r, i).value.node == i
  {
    var name, workers := nodes[i].node.name, Candidates(nodes[i], algorithmName);
    var k := FirstPrefix(nodes, name, workers, r, 1).value;
    FreedByExact(nodes, name, workers[..k]);
    assert workers[..k][..k - 1] == workers[..k - 1];
  }

  lemma {:induction false} DrainFirst(nodes: seq<LoadedNode>, algorithmName: string, r: Amount, from: nat)
    requires from <= |nodes|
    requires Drain(nodes, algorithmName, r, from).Some?
    ensures var d := Drain(nodes, algorithmName, r, from);
            && from <= d.value.node < |nodes|
            && d == DrainNode(nodes, algorithmName, r, d.value.node)
            && DrainOutcome(nodes, algorithmName, r, d.value)
            && forall i :: from <= i < d.value.node ==> DrainNode(nodes, algorithmName, r, i).None?
    decreases |nodes| - from
  {
    hide DrainNode, DrainOutcome;
    if DrainNode(nodes, algorithmName, r, from).Some? {
      DrainNodeSound(nodes, algorithmName, r, from);
    } else {
      DrainFirst(nodes, algorithmName, r, from + 1);
    }
  }

  /** Free plus requests of every node survives the search. */
  lemma DrainKeepsSum(nodes: seq<LoadedNode>, algorithmName: string, r: Amount, d: Drained, i: nat)
    requires DrainOutcome(nodes, algorithmName, r, d) && i < |nodes|
    ensures d.nodes[i].node.free.Plus(d.nodes[i].node.requests) == nodes[i].node.free.Plus(nodes[i].node.requests)
    ensures d.nodes[i].node.total == nodes[i].node.total && d.nodes[i].node.name == nodes[i].node.name
    ensures d.nodes[i].node.labels == nodes[i].node.labels && d.nodes[i].workers == nodes[i].workers
  {
  }

  /** The node list accounts for every popped worker, the returned list names only the last one. The
      two agree exactly when the first candidate of the drained node is enough by itself. */
  lemma ReturnedWorkerAccounts(nodes: seq<LoadedNode>, algorithmName: string, r: Amount, i: nat)
    requires i < |nodes|
    requires DrainNode(nodes, algorithmName, r, i).Some?
    requires forall w :: w in nodes[i].workers ==> w.request.cpu > 0.0
    ensures var d := DrainNode(nodes, algorithmName, r, i).value;
            var name := nodes[i].node.name;
            FreedBy(nodes, name, [d.worker]) == d.nodes <==>
            SomeFits(FreedBy(nodes, name, Candidates(nodes[i], algorithmName)[..1]), r)
  {
    hide SomeFits, FreedBy, Candidates, RequestTotal, Raise, IndexByName;
    var name, workers := nodes[i].node.name, Candidates(nodes[i], algorithmName);
    var k := FirstPrefix(nodes, name, workers, r, 1).value;
    FreedByExact(nodes, name, [workers[k - 1]]);
    FreedByExact(nodes, name, workers[..k]);
    if k == 1 {
      assert [workers[k - 1]] == workers[..1];
    } else {
      LastAloneIsLess(workers, k);
      RaiseInjective(nodes, IndexByName(nodes, name).value, RequestTotal(workers[..k]), RequestTotal([workers[k - 1]]));
    }
  }

  lemma RaiseInjective(nodes: seq<LoadedNode>, at: nat, a: Amount, b: Amount)
    requires at < |nodes| && a.cpu != b.cpu
    ensures Raise(nodes, at, a) != Raise(nodes, at, b)
  {
    assert Raise(nodes, at, a)[at].node.free.cpu != Raise(nodes, at, b)[at].node.free.cpu;
  }

  lemma LastAloneIsLess(workers: seq<StopDetail>, k: nat)
    requires 2 <= k <= |workers|
    requires forall w :: w in workers ==> w.request.cpu > 0.0
    ensures RequestTotal(workers[..k]).cpu > RequestTotal([workers[k - 1]]).cpu
  {
    assert [workers[k - 1]][..0] == [];
    assert workers[..k][..k - 1] == workers[..k - 1];
    CpuPositive(workers[..k - 1]);
  }

  lemma CpuPositive(workers: seq<StopDetail>)
    requires workers != [] && forall w :: w in workers ==> w.request.cpu > 0.0
    ensures RequestTotal(workers).cpu > 0.0
  {
    if |workers| > 1 {
      CpuPositive(workers[..|workers| - 1]);
    } else {
      assert workers[..|workers| - 1] == [];
    }
    assert workers[|workers| - 1] in workers;
  }

  /** An input on which stopping the returned worker alone leaves no room for the request, although the
      returned node list says there is: a node with two workers of 1 cpu and 4 Mi each. */
  lemma ReturnedWorkerMayNotSuffice() returns (nodes: seq<LoadedNode>, r: Amount, d: Drained)
    ensures forall i :: 0 <= i < |nodes| ==> Booked(nodes[i])
    ensures Drain(nodes, "black", r, 0) == Some(d) && d.node < |nodes|
    ensures SomeFits(d.nodes, r) && !SomeFits(FreedBy(nodes, nodes[d.node].node.name, [d.worker]), r)
  {
    hide *;
    var a, total, free := Amount(1.0, 0.0, 4.0), Amount(10.0, 0.0, 100.0), Amount(1.0, 0.0, 92.0);
    var n := NodeState("n", None, total, free, Amount(9.0, 0.0, 8.0));
    var w1, w2 := StopDetail("w1", "green", a, Some("n"), None), StopDetail("w2", "green", a, Some("n"), None);
    nodes, r := [LoadedNode(n, [w1, w2])], Amount(1.5, 0.0, 4.0);
    PairBooks(n, a);
    OneDoesNotFit(n, a, r);
    BothFit(n, a, r);
    BookedPair(n, w1, w2);
    assert "green"[0] != "black"[0];
    d := OneIsNotEnough(n, "black", r, w1, w2);
  }

  lemma PairBooks(n: NodeState, a: Amount)
    requires n.free.cpu + n.requests.cpu == n.total.cpu && n.requests.cpu >= a.cpu + a.cpu
    requires n.free.gpu + n.requests.gpu == n.total.gpu && n.requests.gpu >= a.gpu + a.gpu
    requires n.free.memory + n.requests.memory == n.total.memory && n.requests.memory >= a.memory + a.memory
    ensures n.free.Plus(n.requests) == n.total && n.requests.Minus(a.Plus(a)).NonNegative()
  {
  }

  lemma OneDoesNotFit(n: NodeState, a: Amount, r: Amount)
    requires r.cpu >= n.free.cpu + a.cpu - n.total.cpu * 0.1
    ensures !FindNodeForSchedule(GiveBack(n, a), r)
  {
  }

  lemma BothFit(n: NodeState, a: Amount, r: Amount)
    requires r.cpu < n.free.cpu + a.cpu + a.cpu - n.total.cpu * 0.1
    requires r.memory < n.free.memory + a.memory + a.memory - n.total.memory * 0.2
    requires r.gpu <= n.free.gpu + a.gpu + a.gpu
    ensures FindNodeForSchedule(GiveBack(n, a.Plus(a)), r)
  {
  }

  lemma OneIsNotEnough(n: NodeState, algorithmName: string, r: Amount, w1: StopDetail, w2: StopDetail)
    returns (d: Drained)
    requires w1.algorithmName != algorithmName && w2.algorithmName != algorithmName
    requires !FindNodeForSchedule(GiveBack(n, w1.request), r) && !FindNodeForSchedule(GiveBack(n, w2.request), r)
    requires FindNodeForSchedule(GiveBack(n, w1.request.Plus(w2.request)), r)
    ensures var nodes := [LoadedNode(n, [w1, w2])];
            && Drain(nodes, algorithmName, r, 0) == Some(d) && d.node < |nodes|
            && SomeFits(d.nodes, r) && !SomeFits(FreedBy(nodes, nodes[d.node].node.name, [d.worker]), r)
  {
    hide *;
    var nodes := [LoadedNode(n, [w1, w2])];
    AllAreCandidates(nodes[0], algorithmName);
    TwoPopped(nodes, algorithmName, r, w1, w2);
    d := Drain(nodes, algorithmName, r, 0).value;
  }

  lemma BookedPair(n: NodeState, w1: StopDetail, w2: StopDetail)
    requires n.free.Plus(n.requests) == n.total
    requires n.requests.Minus(w1.request.Plus(w2.request)).NonNegative()
    requires w1.request.cpu >= 0.1 && w1.request.memory >= 4.0 && w2.request.cpu >= 0.1 && w2.request.memory >= 4.0
    ensures Booked(LoadedNode(n, [w1, w2]))
  {
    TwoTotal(w1, w2);
    hide RequestTotal;
  }

  lemma TwoTotal(w1: StopDetail, w2: StopDetail)
    ensures RequestTotal([w1, w2]) == w1.request.Plus(w2.request)
    ensures RequestTotal([w1]) == w1.request
  {
    assert [w1, w2][..1] == [w1] && [w1][..0] == [];
    assert RequestTotal([w1]) == w1.request;
  }

  /** The node as the tick finds it: free is total less requests, and the requests cover those of the listed
      workers, each of at least the default cpu and memory. */
  ghost predicate Booked(n: LoadedNode) {
    && n.node.free.Plus(n.node.requests) == n.node.total
    && n.node.requests.Minus(RequestTotal(n.workers)).NonNegative()
    && forall k :: 0 <= k < |n.workers| ==> n.workers[k].request.cpu >= 0.1 && n.workers[k].request.memory >= 4.0
  }

  lemma AllAreCandidates(n: LoadedNode, algorithmName: string)
    requires forall w :: w in n.workers ==> w.algorithmName != algorithmName
    ensures Candidates(n, algorithmName) == n.workers
  {
    FilterAll(n.workers, (w: StopDetail) => w.algorithmName != algorithmName);
  }

  lemma OneNodeFits(nodes: seq<LoadedNode>, workers: seq<StopDetail>, r: Amount)
    requires |nodes| == 1
    ensures SomeFits(FreedBy(nodes, nodes[0].node.name, workers), r) <==>
              FindNodeForSchedule(GiveBack(nodes[0].node, RequestTotal(workers)), r)
  {
    assert IndexByName(nodes, nodes[0].node.name) == Some(0);
    FreedByExact(nodes, nodes[0].node.name, workers);
    hide FreedBy, RequestTotal, FindNodeForSchedule;
    var after := FreedBy(nodes, nodes[0].node.name, workers);
    assert |after| == 1 && after[0].node == GiveBack(nodes[0].node, RequestTotal(workers));
    assert FindNodeForSchedule(after[0].node, r) ==> SomeFits(after, r);
  }

  lemma TwoPopped(nodes: seq<LoadedNode>, algorithmName: string, r: Amount, w1: StopDetail, w2: StopDetail)
    requires |nodes| == 1 && Candidates(nodes[0], algorithmName) == [w1, w2]
    requires !FindNodeForSchedule(GiveBack(nodes[0].node, w1.request), r)
    requires !FindNodeForSchedule(GiveBack(nodes[0].node, w2.request), r)
    requires FindNodeForSchedule(GiveBack(nodes[0].node, w1.request.Plus(w2.request)), r)
    ensures Drain(nodes, algorithmName, r, 0).Some?
    ensures var d, name := Drain(nodes, algorithmName, r, 0).value, nodes[0].node.name;
            d.node == 0 && d.worker == w2 && SomeFits(d.nodes, r) && !SomeFits(FreedBy(nodes, name, [w2]), r)
  {
    hide FreedBy, Candidates, RequestTotal, FindNodeForSchedule;
    var name, workers := nodes[0].node.name, [w1, w2];
    OneNodeFits(nodes, [w1], r);
    OneNodeFits(nodes, [w2], r);
    OneNodeFits(nodes, workers, r);
    TwoTotal(w1, w2);
    TwoTotal(w2, w1);
    hide SomeFits;
    assert workers[..1] == [w1] && workers[..2] == workers;
    assert FirstPrefix(nodes, name, workers, r, 1) == Some(2);
  }

  // ---------------------------------------------------------------- _findWorkersToStop

  /** _findWorkersToStop: both loops, with the list of workers emptied on every turn of the inner one. */
  method FindWorkersToStop(nodeList: seq<LoadedNode>, algorithmName: string, resources: Amount)
    returns (foundAny: bool, nodeListLocal: seq<LoadedNode>, workersToStop: seq<StopDetail>)
    ensures var d := Drain(nodeList, algorithmName, resources, 0);
            && foundAny == d.Some?
            && (foundAny ==> nodeListLocal == d.value.nodes && workersToStop == [d.value.worker])
            && (!foundAny ==> nodeListLocal == nodeList)
  {
    hide FirstPrefix, FreedBy, Candidates;
    nodeListLocal, workersToStop, foundAny := nodeList, [], false;
    var i := 0;
    while i < |nodeList| && !foundAny
      invariant i <= |nodeList|
      invariant !foundAny ==> nodeListLocal == nodeList
      invariant !foundAny ==>
                  Drain(nodeList, algorithmName, resources, 0) == Drain(nodeList, algorithmName, resources, i)
      invariant foundAny ==> Drain(nodeList, algorithmName, resources, 0).Some?
      invariant foundAny ==> nodeListLocal == Drain(nodeList, algorithmName, resources, 0).value.nodes
      invariant foundAny ==> workersToStop == [Drain(nodeList, algorithmName, resources, 0).value.worker]
      decreases |nodeList| - i, !foundAny
    {
      foundAny, nodeListLocal, workersToStop :=
        PopWorkers(nodeList, i, algorithmName, resources, workersToStop);
      if !foundAny {
        nodeListLocal := nodeList;
        i := i + 1;
      }
    }
  }

  /** The inner loop: pop candidates of node i until some node fits. */
  method PopWorkers(nodeList: seq<LoadedNode>, i: nat, algorithmName: string, resources: Amount, stale: seq<StopDetail>)
    returns (found: bool, nodeListLocal: seq<LoadedNode>, workersToStop: seq<StopDetail>)
    requires i < |nodeList|
    ensures var name, all := nodeList[i].node.name, Candidates(nodeList[i], algorithmName);
            var k := FirstPrefix(nodeList, name, all, resources, 1);
            && found == k.Some?
            && (found ==>
                  nodeListLocal == FreedBy(nodeList, name, all[..k.value]) && workersToStop == [all[k.value - 1]])
  {
    hide SomeFits, UpdateNodeResources, FirstPrefix, FreedBy, Candidates;
    var name, workers := nodeList[i].node.name, Candidates(nodeList[i], algorithmName);
    found, nodeListLocal, workersToStop := false, nodeList, stale;
    ghost var all, p := workers, 0;
    NothingPopped(nodeList, name, all);
    while |workers| > 0 && !found
      invariant p <= |all| && workers == all[p..]
      invariant nodeListLocal == FreedBy(nodeList, name, all[..p])
      invariant !found ==>
                  FirstPrefix(nodeList, name, all, resources, 1) == FirstPrefix(nodeList, name, all, resources, p + 1)
      invariant found ==> p >= 1 && FirstPrefix(nodeList, name, all, resources, 1) == Some(p)
      invariant found ==> workersToStop == [all[p - 1]]
      decreases |workers|, !found
    {
      workersToStop := [];
      var worker := workers[0];
      workers := workers[1..];
      PopStep(nodeList, name, all, resources, p);
      p := p + 1;
      nodeListLocal := UpdateNodeResources(nodeListLocal, name, worker.request);
      workersToStop := workersToStop + [worker];
      found := SomeFits(nodeListLocal, resources);
    }
    if !found {
    }
  }

  lemma NothingPopped(nodes: seq<LoadedNode>, name: string, workers: seq<StopDetail>)
    ensures FreedBy(nodes, name, workers[..0]) == nodes
  {
    assert workers[..0] == [];
  }

  lemma PopStep(nodes: seq<LoadedNode>, name: string, workers: seq<StopDetail>, r: Amount, p: nat)
    requires p < |workers|
    ensures FreedBy(nodes, name, workers[..p + 1]) ==
              UpdateNodeResources(FreedBy(nodes, name, workers[..p]), name, workers[p].request)
    ensures FirstPrefix(nodes, name, workers, r, p + 1) ==
              if SomeFits(FreedBy(nodes, name, workers[..p + 1]), r) then Some(p + 1)
              else FirstPrefix(nodes, name, workers, r, p + 2)
  {
    hide SomeFits, UpdateNodeResources;
    assert workers[..p + 1][..p] == workers[..p];
  }

  // ---------------------------------------------------------------- serving the skipped requests

  /** The node records copied by pauseAccordingToResources, the workers that may still be stopped and
      the workers picked so far. */
  datatype Pause = Pause(nodes: seq<NodeState>, details: seq<StopDetail>, toStop: seq<StopDetail>)

  function FreeCpu(n: NodeState): real { n.free.cpu }

  function Matching(nodes: seq<NodeState>, selector: Option<Labels>): seq<NodeState> {
    Filter(nodes, (n: NodeState) => NodeSelectorFilter(n.labels, selector))
  }

  /** The nodes that match the selector, the one with most free cpu first. */
  function RankedNodes(nodes: seq<NodeState>, selector: Option<Labels>): (r: seq<NodeState>)
    ensures forall n :: n in r <==> n in nodes && NodeSelectorFilter(n.labels, selector)
    ensures multiset(r) <= multiset(nodes)
    ensures Descending(r, FreeCpu)
  {
    var matching := Matching(nodes, selector);
    var r := OrderByDesc(matching, FreeCpu);
    assert forall n :: n in r <==> n in multiset(r);
    assert forall n :: n in matching <==> n in multiset(matching);
    r
  }

  /** Every matching node is tried as often as it is listed, the one with most free cpu first, and nodes with
      the same free cpu in the order of the list. */
  lemma RankedExactly(nodes: seq<NodeState>, selector: Option<Labels>, cpu: real)
    ensures var ranked, matching := RankedNodes(nodes, selector), Matching(nodes, selector);
      && Descending(ranked, FreeCpu) && multiset(ranked) == multiset(matching)
      && WithKey(ranked, FreeCpu, cpu) == WithKey(matching, FreeCpu, cpu)
    ensures forall n :: multiset(RankedNodes(nodes, selector))[n] ==
              if selector.None? || (n.labels.Some? && selector.value.Items <= n.labels.value.Items)
              then multiset(nodes)[n] else 0
  {
    forall n: NodeState { SelectorExactly(n.labels, selector); }
    OrderByDescStable(Matching(nodes, selector), FreeCpu, cpu);
    forall n ensures multiset(Matching(nodes, selector))[n] ==
                       if NodeSelectorFilter(n.labels, selector) then multiset(nodes)[n] else 0 {
      FilterCounts(nodes, (n: NodeState) => NodeSelectorFilter(n.labels, selector), n);
    }
  }

  /** Each record takes over free and requests of the first drained node of its name. */
  function WriteBack(nodes: seq<NodeState>, drained: seq<LoadedNode>): (r: seq<NodeState>)
    ensures |r| == |nodes|
    ensures forall i :: 0 <= i < |r| ==> r[i] == WriteBackOne(nodes[i], drained)
  {
    if nodes == [] then [] else [WriteBackOne(nodes[0], drained)] + WriteBack(nodes[1..], drained)
  }

  function WriteBackOne(n: NodeState, drained: seq<LoadedNode>): NodeState {
    var at := IndexByName(drained, n.name);
    if at.None? then n else n.(free := drained[at.value].node.free, requests := drained[at.value].node.requests)
  }

  function WithoutId(details: seq<StopDetail>, id: string): (r: seq<StopDetail>)
    ensures forall d :: d in r <==> d in details && d.id != id
  {
    Filter(details, (d: StopDetail) => d.id != id)
  }

  function SearchFor(p: Pause, r: JobDetails): Option<Drained> {
    Drain(MatchWorkersToNodes(RankedNodes(p.nodes, r.nodeSelector), p.details), r.algorithmName, r.request, 0)
  }

  function Serve(p: Pause, r: JobDetails): Pause {
    var d := SearchFor(p, r);
    if d.None? then p
    else Pause(WriteBack(p.nodes, d.value.nodes), WithoutId(p.details, d.value.worker.id), p.toStop + [d.value.worker])
  }

  function ServeAll(p: Pause, skipped: seq<JobDetails>): Pause {
    if skipped == [] then p else Serve(ServeAll(p, skipped[..|skipped| - 1]), skipped[|skipped| - 1])
  }

  /** pauseAccordingToResources; the records are deep copies, so the shared ones keep their values. */
  method PauseAccordingToResources(stopDetails: seq<StopDetail>, nodes: seq<NodeState>,
                                   skippedRequests: seq<JobDetails>)
    returns (toStop: seq<StopDetail>)
    ensures toStop == ServeAll(Pause(nodes, stopDetails, []), skippedRequests).toStop
  {
    toStop := [];
    var localDetails, localNodes := stopDetails, nodes;
    if stopDetails == [] {
      NoDetailsNoStop(Pause(nodes, [], []), skippedRequests);
      return;
    }
    hide Serve;
    for i := 0 to |skippedRequests|
      invariant Pause(localNodes, localDetails, toStop) == ServeAll(Pause(nodes, stopDetails, []), skippedRequests[..i])
    {
      assert skippedRequests[..i + 1][..i] == skippedRequests[..i];
      localNodes, localDetails, toStop := ServeOne(localNodes, localDetails, toStop, skippedRequests[i]);
    }
    assert skippedRequests[..|skippedRequests|] == skippedRequests;
  }

  /** The callback of the loop over the skipped requests. */
  method ServeOne(nodes: seq<NodeState>, details: seq<StopDetail>, stopped: seq<StopDetail>, r: JobDetails)
    returns (localNodes: seq<NodeState>, localDetails: seq<StopDetail>, toStop: seq<StopDetail>)
    ensures Pause(localNodes, localDetails, toStop) == Serve(Pause(nodes, details, stopped), r)
  {
    hide Drain;
    localNodes, localDetails, toStop := nodes, details, stopped;
    var nodeList := MatchWorkersToNodes(RankedNodes(nodes, r.nodeSelector), details);
    var foundAny, drained, workersToStop := FindWorkersToStop(nodeList, r.algorithmName, r.request);
    if foundAny {
      localNodes := WriteBack(localNodes, drained);
      toStop := toStop + workersToStop;
      localDetails := WithoutId(localDetails, workersToStop[0].id);
    }
  }

  /** Stopped workers are candidates, each is stopped at most once, and never for a request of its own
      algorithm; a stopped worker is no longer a candidate. */
  ghost predicate PauseSafe(p: Pause, details: seq<StopDetail>, skipped: seq<JobDetails>) {
    && (forall w :: w in p.toStop ==> w in details)
    && (forall i, j :: 0 <= i < j < |p.toStop| ==> p.toStop[i].id != p.toStop[j].id)
    && (forall d :: d in p.details <==> d in details && forall w :: w in p.toStop ==> w.id != d.id)
    && |p.toStop| <= |skipped|
    && (forall w :: w in p.toStop ==> exists r :: r in skipped && r.algorithmName != w.algorithmName)
  }

  lemma SearchSound(p: Pause, r: JobDetails)
    ensures SearchFor(p, r).Some? ==>
              var w := SearchFor(p, r).value.worker;
              w in p.details && w.algorithmName != r.algorithmName
  {
    hide DrainNode, SomeFits;
    var nodes := MatchWorkersToNodes(RankedNodes(p.nodes, r.nodeSelector), p.details);
    if SearchFor(p, r).Some? {
      DrainFirst(nodes, r.algorithmName, r.request, 0);
      var d := SearchFor(p, r).value;
      assert d.worker in d.popped;
      assert d.worker in Candidates(nodes[d.node], r.algorithmName);
    }
  }

  lemma NothingStopped(p: Pause)
    requires p.toStop == []
    ensures PauseSafe(p, p.details, [])
  {
  }

  lemma {:induction false} PauseIsSafe(p: Pause, skipped: seq<JobDetails>)
    requires p.toStop == []
    ensures PauseSafe(ServeAll(p, skipped), p.details, skipped)
  {
    hide PauseSafe, Serve;
    if skipped == [] {
      NothingStopped(p);
    } else {
      var init, last := skipped[..|skipped| - 1], skipped[|skipped| - 1];
      PauseIsSafe(p, init);
      ServeIsSafe(ServeAll(p, init), p.details, init, last);
      assert skipped == init + [last];
    }
  }

  lemma ServeIsSafe(p: Pause, details: seq<StopDetail>, skipped: seq<JobDetails>, r: JobDetails)
    requires PauseSafe(p, details, skipped)
    ensures PauseSafe(Serve(p, r), details, skipped + [r])
  {
    hide SearchFor;
    if SearchFor(p, r).Some? {
      SearchSound(p, r);
      var w := SearchFor(p, r).value.worker;
      assert r in skipped + [r];
      assert w in p.details;
      forall i | 0 <= i < |p.toStop| ensures p.toStop[i].id != w.id {
        assert p.toStop[i] in p.toStop;
      }
    }
  }

  lemma {:induction false} NoDetailsNoStop(p: Pause, skipped: seq<JobDetails>)
    requires p.details == [] && p.toStop == []
    ensures ServeAll(p, skipped) == p
  {
    if skipped != [] {
      var last := skipped[|skipped| - 1];
      NoDetailsNoStop(p, skipped[..|skipped| - 1]);
      hide SearchFor;
      if SearchFor(p, last).Some? {
        SearchSound(p, last);
      }
    }
  }

  function StateName(n: NodeState): string { n.name }

  lemma RankedNamesDistinct(nodes: seq<NodeState>, selector: Option<Labels>)
    requires DistinctBy(nodes, StateName)
    ensures DistinctBy(RankedNodes(nodes, selector), StateName)
  {
    hide RankedNodes;
    var ranked := RankedNodes(nodes, selector);
    DistinctMultiset(nodes);
    DistinctByMultiset(ranked);
    forall i, j | 0 <= i < j < |ranked| ensures ranked[i].name != ranked[j].name {
      assert ranked[i] in nodes && ranked[j] in nodes;
    }
  }

  /** A drained list is the ranked list with an amount given back at one position. */
  ghost predicate DrainedCopy(ranked: seq<NodeState>, drained: seq<LoadedNode>, at: nat, freed: Amount) {
    && |drained| == |ranked| && at < |ranked|
    && forall k :: 0 <= k < |ranked| ==> drained[k].node == if k == at then GiveBack(ranked[k], freed) else ranked[k]
  }

  /** Among ranked nodes of distinct names, the drained copy of a record is found by its name. */
  lemma FoundByName(ranked: seq<NodeState>, drained: seq<LoadedNode>, at: nat, freed: Amount, j: nat)
    requires DistinctBy(ranked, StateName) && DrainedCopy(ranked, drained, at, freed) && j < |drained|
    ensures IndexByName(drained, ranked[j].name) == Some(j)
    ensures WriteBackOne(ranked[j], drained) == drained[j].node
  {
    assert forall k :: 0 <= k < |ranked| ==> drained[k].node.name == ranked[k].name;
  }

  /** Writing the drained list back gives each record that was tried the values of its drained copy. */
  lemma WriteBackExact(nodes: seq<NodeState>, ranked: seq<NodeState>, drained: seq<LoadedNode>, at: nat,
                       freed: Amount, j: nat)
    returns (i: nat)
    requires DistinctBy(ranked, StateName) && forall n :: n in ranked ==> n in nodes
    requires DrainedCopy(ranked, drained, at, freed) && j < |drained|
    ensures i < |nodes| && nodes[i] == ranked[j] && WriteBack(nodes, drained)[i] == drained[j].node
  {
    FoundByName(ranked, drained, at, freed, j);
    hide WriteBackOne, DistinctBy;
    assert ranked[j] in ranked;
    i :| 0 <= i < |nodes| && nodes[i] == ranked[j];
  }

  lemma WriteBackOthers(nodes: seq<NodeState>, ranked: seq<NodeState>, drained: seq<LoadedNode>, at: nat,
                        freed: Amount, i: nat)
    requires DistinctBy(nodes, StateName) && forall n :: n in ranked ==> n in nodes
    requires DrainedCopy(ranked, drained, at, freed)
    requires i < |nodes| && nodes[i] != ranked[at]
    ensures WriteBack(nodes, drained)[i] == nodes[i]
  {
    hide DistinctBy, IndexByName;
    var k := IndexByName(drained, nodes[i].name);
    if k.Some? {
      assert ranked[k.value] in ranked;
      OneByName(nodes, StateName, ranked[k.value], nodes[i]);
    }
  }

  lemma RaiseIsCopy(ranked: seq<NodeState>, nodes: seq<LoadedNode>, at: nat, freed: Amount)
    requires |nodes| == |ranked| && at < |nodes| && forall i :: 0 <= i < |nodes| ==> nodes[i].node == ranked[i]
    ensures DrainedCopy(ranked, Raise(nodes, at, freed), at, freed)
  {
  }

  lemma SearchCopies(p: Pause, r: JobDetails) returns (at: nat, j: nat)
    ensures SearchFor(p, r).Some? ==>
              var d := SearchFor(p, r).value;
              && DrainedCopy(RankedNodes(p.nodes, r.nodeSelector), d.nodes, at, RequestTotal(d.popped))
              && j < |d.nodes| && FindNodeForSchedule(d.nodes[j].node, r.request)
  {
    at, j := 0, 0;
    var nodes := MatchWorkersToNodes(RankedNodes(p.nodes, r.nodeSelector), p.details);
    if SearchFor(p, r).Some? {
      var d := SearchFor(p, r).value;
      hide Drain, DrainNode, RankedNodes, RequestTotal, FreedBy, Candidates, MatchWorkersToNodes;
      DrainFirst(nodes, r.algorithmName, r.request, 0);
      at := IndexByName(nodes, nodes[d.node].node.name).value;
      RaiseIsCopy(RankedNodes(p.nodes, r.nodeSelector), nodes, at, RequestTotal(d.popped));
      hide DrainedCopy, Raise;
      j :| 0 <= j < |d.nodes| && FindNodeForSchedule(d.nodes[j].node, r.request);
    }
  }

  /** A served request has a matching node with room for it, and only the drained node changed: what
      it lost in requests it gained in free. */
  lemma ServeMakesRoom(p: Pause, r: JobDetails) returns (room: nat, changed: nat)
    requires DistinctBy(p.nodes, StateName)
    ensures SearchFor(p, r).Some? ==>
              var next := Serve(p, r).nodes;
              && |next| == |p.nodes| && room < |next| && changed < |next|
              && CanHost(next[room], r)
              && (forall i :: 0 <= i < |next| && i != changed ==> next[i] == p.nodes[i])
              && next[changed] == GiveBack(p.nodes[changed], RequestTotal(SearchFor(p, r).value.popped))
    ensures SearchFor(p, r).None? ==> Serve(p, r) == p
  {
    room, changed := 0, 0;
    hide SearchFor, RequestTotal, RankedNodes, DrainedCopy, FindNodeForSchedule, NodeSelectorFilter, GiveBack,
         WriteBack, DistinctBy;
    var at, j := SearchCopies(p, r);
    RankedNamesDistinct(p.nodes, r.nodeSelector);
    if SearchFor(p, r).Some? {
      var ranked, d := RankedNodes(p.nodes, r.nodeSelector), SearchFor(p, r).value;
      room := WriteBackExact(p.nodes, ranked, d.nodes, at, RequestTotal(d.popped), j);
      changed := WriteBackExact(p.nodes, ranked, d.nodes, at, RequestTotal(d.popped), at);
      forall i | 0 <= i < |p.nodes| && i != changed ensures WriteBack(p.nodes, d.nodes)[i] == p.nodes[i] {
        NamesDiffer(p.nodes, i, changed);
        WriteBackOthers(p.nodes, ranked, d.nodes, at, RequestTotal(d.popped), i);
      }
    }
  }

  lemma NamesDiffer(nodes: seq<NodeState>, i: nat, j: nat)
    requires DistinctBy(nodes, StateName) && i < |nodes| && j < |nodes| && i != j
    ensures nodes[i].name != nodes[j].name
  {
    assert StateName(nodes[i]) != StateName(nodes[j]);
  }
}
