/** Resource accounting per node and for the cluster (task-executor, lib/reconcile/normalize.js,
    normalizeResources). */
module Accounting {
  import opened Collections
  import opened Resources

  datatype Container = Container(requests: Amount, limits: Amount)

  /** A pod; phase is status.phase and worker says that its type label is "worker". */
  datatype Pod = Pod(nodeName: Option<string>, phase: string, worker: bool, algorithmName: string,
                     containers: seq<Container>)

  /** A node; noSchedule says that one of its taints has the effect NoSchedule. */
  datatype Node = Node(name: string, labels: Option<Labels>, total: Amount, noSchedule: bool)

  /** The record that is updated pod by pod. */
  datatype Usage = Usage(requests: Amount, limits: Amount, workersTotal: Amount, other: Amount, workers: seq<string>)

  const UNUSED := Usage(ZERO, ZERO, ZERO, ZERO, [])

  // ---------------------------------------------------------------- one pod

  function SumRequests(cs: seq<Container>): Amount {
    if cs == [] then ZERO else SumRequests(cs[..|cs| - 1]).Plus(cs[|cs| - 1].requests)
  }

  function SumLimits(cs: seq<Container>): Amount {
    if cs == [] then ZERO else SumLimits(cs[..|cs| - 1]).Plus(cs[|cs| - 1].limits)
  }

  /** With useResourceLimits, a limit that is not 0 takes the place of the request. */
  function PodRequest(pod: Pod, useResourceLimits: bool): Amount {
    var limits, requests := SumLimits(pod.containers), SumRequests(pod.containers);
    Amount(if useResourceLimits && limits.cpu != 0.0 then limits.cpu else requests.cpu,
           if useResourceLimits && limits.gpu != 0.0 then limits.gpu else requests.gpu,
           if useResourceLimits && limits.memory != 0.0 then limits.memory else requests.memory)
  }

  predicate StateFilter(pod: Pod) { pod.phase == "Running" || pod.phase == "Pending" }

  predicate RunsOn(pod: Pod, name: string) { StateFilter(pod) && pod.nodeName == Some(name) }

  function AddPod(u: Usage, pod: Pod, useLimits: bool): Usage {
    var r, limits := PodRequest(pod, useLimits), SumLimits(pod.containers);
    if pod.worker then
      Usage(u.requests.Plus(r), u.limits.Plus(limits), u.workersTotal.Plus(r), u.other, u.workers + [pod.algorithmName])
    else
      Usage(u.requests.Plus(r), u.limits.Plus(limits), u.workersTotal, u.other.Plus(r), u.workers)
  }

  // ---------------------------------------------------------------- all pods of a node

  function UsageOf(pods: seq<Pod>, name: string, useLimits: bool): Usage {
    if pods == [] then UNUSED
    else
      var before, pod := UsageOf(pods[..|pods| - 1], name, useLimits), pods[|pods| - 1];
      if RunsOn(pod, name) then AddPod(before, pod, useLimits) else before
  }

  /** The sum of the requests of the pods that satisfy p. */
  function SumPods(pods: seq<Pod>, p: Pod -> bool, useLimits: bool): Amount {
    if pods == [] then ZERO
    else
      var before, pod := SumPods(pods[..|pods| - 1], p, useLimits), pods[|pods| - 1];
      if p(pod) then before.Plus(PodRequest(pod, useLimits)) else before
  }

  /** The requests of a node are the sum over its running and pending pods, split into workers and others. */
  lemma {:induction false} UsageExact(pods: seq<Pod>, name: string, useLimits: bool)
    ensures var u := UsageOf(pods, name, useLimits);
            && u.requests == SumPods(pods, (pod: Pod) => RunsOn(pod, name), useLimits)
            && u.workersTotal == SumPods(pods, (pod: Pod) => RunsOn(pod, name) && pod.worker, useLimits)
            && u.other == SumPods(pods, (pod: Pod) => RunsOn(pod, name) && !pod.worker, useLimits)
            && u.requests == u.workersTotal.Plus(u.other)
  {
    hide RunsOn, PodRequest;
    if pods != [] {
      UsageExact(pods[..|pods| - 1], name, useLimits);
    }
  }

  // ---------------------------------------------------------------- all nodes

  /** An entry of nodeList: calcRatioFree adds what is free. */
  datatype Record = Record(name: string, labels: Option<Labels>, total: Amount, usage: Usage, free: Amount)

  function RecordOf(node: Node, pods: seq<Pod>, useLimits: bool): Record {
    var u := UsageOf(pods, node.name, useLimits);
    Record(node.name, node.labels, node.total, u, node.total.Minus(u.requests))
  }

  function Schedulable(nodes: seq<Node>): (r: seq<Node>)
    ensures forall n :: n in r <==> n in nodes && !n.noSchedule
    ensures multiset(r) <= multiset(nodes)
  {
    Filter(nodes, (n: Node) => !n.noSchedule)
  }

  function RecordsOf(nodes: seq<Node>, pods: seq<Pod>, useLimits: bool): (r: seq<Record>)
    ensures |r| == |nodes| && forall i :: 0 <= i < |r| ==> r[i] == RecordOf(nodes[i], pods, useLimits)
  {
    if nodes == [] then []
    else RecordsOf(nodes[..|nodes| - 1], pods, useLimits) + [RecordOf(nodes[|nodes| - 1], pods, useLimits)]
  }

  datatype Cluster = Cluster(total: Amount, requests: Amount, limits: Amount, free: Amount)

  function SumTotals(s: seq<Record>): Amount {
    if s == [] then ZERO else SumTotals(s[..|s| - 1]).Plus(s[|s| - 1].total)
  }
  function SumUsed(s: seq<Record>): Amount {
    if s == [] then ZERO else SumUsed(s[..|s| - 1]).Plus(s[|s| - 1].usage.requests)
  }
  function SumLimited(s: seq<Record>): Amount {
    if s == [] then ZERO else SumLimited(s[..|s| - 1]).Plus(s[|s| - 1].usage.limits)
  }
  function SumFree(s: seq<Record>): Amount {
    if s == [] then ZERO else SumFree(s[..|s| - 1]).Plus(s[|s| - 1].free)
  }

  function ClusterOf(s: seq<Record>): Cluster {
    Cluster(SumTotals(s), SumUsed(s), SumLimited(s), SumTotals(s).Minus(SumUsed(s)))
  }

  function NodeName(n: Node): string { n.name }

  /** What is free in the cluster is the sum of what is free on its nodes. */
  lemma {:induction false} ClusterFree(nodes: seq<Node>, pods: seq<Pod>, useLimits: bool)
    ensures var s := RecordsOf(nodes, pods, useLimits);
            ClusterOf(s).free == SumFree(s)
  {
    if nodes != [] {
      ClusterFree(nodes[..|nodes| - 1], pods, useLimits);
      var s := RecordsOf(nodes, pods, useLimits);
      assert s[..|s| - 1] == RecordsOf(nodes[..|nodes| - 1], pods, useLimits);
    }
  }

  predicate OnListed(pod: Pod, nodes: seq<Node>) {
    StateFilter(pod) && exists i :: 0 <= i < |nodes| && pod.nodeName == Some(nodes[i].name)
  }

  lemma {:induction false} SumPodsSplit(pods: seq<Pod>, p: Pod -> bool, q: Pod -> bool, either: Pod -> bool,
                                        useLimits: bool)
    requires forall pod :: (either(pod) <==> p(pod) || q(pod)) && !(p(pod) && q(pod))
    ensures SumPods(pods, either, useLimits) == SumPods(pods, p, useLimits).Plus(SumPods(pods, q, useLimits))
  {
    if pods != [] {
      SumPodsSplit(pods[..|pods| - 1], p, q, either, useLimits);
      hide PodRequest;
    }
  }

  /** Every running or pending pod of a schedulable node counts in the cluster totals exactly once. */
  lemma {:induction false} ClusterRequests(nodes: seq<Node>, pods: seq<Pod>, useLimits: bool)
    requires DistinctBy(nodes, NodeName)
    ensures SumUsed(RecordsOf(nodes, pods, useLimits)) == SumPods(pods, (pod: Pod) => OnListed(pod, nodes), useLimits)
  {
    if nodes == [] {
      NoPods(pods, (pod: Pod) => OnListed(pod, nodes), useLimits);
    } else {
      hide SumPods, UsageOf, OnListed, RunsOn, PodRequest;
      var init, last := nodes[..|nodes| - 1], nodes[|nodes| - 1];
      ClusterRequests(init, pods, useLimits);
      UsageExact(pods, last.name, useLimits);
      var s := RecordsOf(nodes, pods, useLimits);
      assert s[..|s| - 1] == RecordsOf(init, pods, useLimits);
      forall pod
        ensures OnListed(pod, nodes) <==> OnListed(pod, init) || RunsOn(pod, last.name)
        ensures !(OnListed(pod, init) && RunsOn(pod, last.name))
      {
        ListedSplit(pod, nodes);
      }
      hide RecordsOf;
      SumPodsSplit(pods, (pod: Pod) => OnListed(pod, init), (pod: Pod) => RunsOn(pod, last.name),
                   (pod: Pod) => OnListed(pod, nodes), useLimits);
    }
  }

  lemma ListedSplit(pod: Pod, nodes: seq<Node>)
    requires DistinctBy(nodes, NodeName) && nodes != []
    ensures var init, last := nodes[..|nodes| - 1], nodes[|nodes| - 1];
            && (OnListed(pod, nodes) <==> OnListed(pod, init) || RunsOn(pod, last.name))
            && !(OnListed(pod, init) && RunsOn(pod, last.name))
  {
    var init := nodes[..|nodes| - 1];
    assert forall i :: 0 <= i < |init| ==> init[i] == nodes[i];
    if OnListed(pod, init) {
      var i :| 0 <= i < |init| && pod.nodeName == Some(init[i].name);
      assert pod.nodeName == Some(nodes[i].name);
    }
  }

  lemma NoPods(pods: seq<Pod>, p: Pod -> bool, useLimits: bool)
    requires forall pod :: !p(pod)
    ensures SumPods(pods, p, useLimits) == ZERO
  {
  }

  // ---------------------------------------------------------------- usage by quantity

  function Cpu(a: Amount): real { a.cpu }
  function Gpu(a: Amount): real { a.gpu }
  function Memory(a: Amount): real { a.memory }

  /** What a pod takes of a quantity: the sum over its containers of their limits, when limits are to be used and
      that sum is not 0, and of their requests otherwise. */
  ghost function Takes(pod: Pod, useLimits: bool, q: Amount -> real): real {
    var limit := SumOf(pod.containers, (c: Container) => q(c.limits));
    if useLimits && limit != 0.0 then limit else SumOf(pod.containers, (c: Container) => q(c.requests))
  }

  /** Every quantity of the amount is the sum over the pods that satisfy p. */
  ghost predicate IsTaken(a: Amount, pods: seq<Pod>, p: Pod -> bool, useLimits: bool) {
    && a.cpu == SumOf(pods, (pod: Pod) => if p(pod) then Takes(pod, useLimits, Cpu) else 0.0)
    && a.gpu == SumOf(pods, (pod: Pod) => if p(pod) then Takes(pod, useLimits, Gpu) else 0.0)
    && a.memory == SumOf(pods, (pod: Pod) => if p(pod) then Takes(pod, useLimits, Memory) else 0.0)
  }

  ghost predicate IsLimited(a: Amount, pods: seq<Pod>, p: Pod -> bool) {
    && a.cpu == SumOf(pods, (pod: Pod) => if p(pod) then SumOf(pod.containers, (c: Container) => c.limits.cpu) else 0.0)
    && a.gpu == SumOf(pods, (pod: Pod) => if p(pod) then SumOf(pod.containers, (c: Container) => c.limits.gpu) else 0.0)
    && a.memory ==
         SumOf(pods, (pod: Pod) => if p(pod) then SumOf(pod.containers, (c: Container) => c.limits.memory) else 0.0)
  }

  lemma {:induction false} ContainerSums(cs: seq<Container>, q: Amount -> real)
    requires q(ZERO) == 0.0 && forall a: Amount, b: Amount :: q(a.Plus(b)) == q(a) + q(b)
    ensures q(SumRequests(cs)) == SumOf(cs, (c: Container) => q(c.requests))
    ensures q(SumLimits(cs)) == SumOf(cs, (c: Container) => q(c.limits))
  {
    if cs != [] {
      ContainerSums(cs[..|cs| - 1], q);
    }
  }

  lemma PodTakes(pod: Pod, useLimits: bool)
    ensures PodRequest(pod, useLimits) ==
              Amount(Takes(pod, useLimits, Cpu), Takes(pod, useLimits, Gpu), Takes(pod, useLimits, Memory))
  {
    ContainerSums(pod.containers, Cpu);
    ContainerSums(pod.containers, Gpu);
    ContainerSums(pod.containers, Memory);
    hide SumRequests, SumLimits, SumOf;
  }

  lemma {:induction false} PodsTaken(pods: seq<Pod>, p: Pod -> bool, useLimits: bool)
    ensures IsTaken(SumPods(pods, p, useLimits), pods, p, useLimits)
  {
    hide PodRequest, Takes;
    if pods != [] {
      PodsTaken(pods[..|pods| - 1], p, useLimits);
      PodTakes(pods[|pods| - 1], useLimits);
    }
  }

  /** The pod runs, or waits to run, on the node. */
  ghost predicate OnNode(pod: Pod, name: string) {
    (pod.phase == "Running" || pod.phase == "Pending") && pod.nodeName == Some(name)
  }

  /** The usage of a node, quantity by quantity: what its running and pending pods take in all, what the workers and
      what the other pods among them take, and their limits. */
  lemma UsageExactly(pods: seq<Pod>, name: string, useLimits: bool)
    ensures var u := UsageOf(pods, name, useLimits);
      && IsTaken(u.requests, pods, (pod: Pod) => OnNode(pod, name), useLimits)
      && IsTaken(u.workersTotal, pods, (pod: Pod) => OnNode(pod, name) && pod.worker, useLimits)
      && IsTaken(u.other, pods, (pod: Pod) => OnNode(pod, name) && !pod.worker, useLimits)
      && IsLimited(u.limits, pods, (pod: Pod) => OnNode(pod, name))
  {
    UsageExact(pods, name, useLimits);
    LimitsExactly(pods, name, useLimits);
    forall pod: Pod ensures OnNode(pod, name) <==> RunsOn(pod, name) {}
    hide UsageOf, SumPods, IsTaken, IsLimited, OnNode, RunsOn;
    SamePods(pods, (pod: Pod) => RunsOn(pod, name), (pod: Pod) => OnNode(pod, name), useLimits);
    SamePods(pods, (pod: Pod) => RunsOn(pod, name) && pod.worker, (pod: Pod) => OnNode(pod, name) && pod.worker,
             useLimits);
    SamePods(pods, (pod: Pod) => RunsOn(pod, name) && !pod.worker, (pod: Pod) => OnNode(pod, name) && !pod.worker,
             useLimits);
  }

  lemma {:induction false} SameSums(pods: seq<Pod>, p: Pod -> bool, q: Pod -> bool, useLimits: bool)
    requires forall pod :: p(pod) <==> q(pod)
    ensures SumPods(pods, p, useLimits) == SumPods(pods, q, useLimits)
  {
    hide PodRequest;
    if pods != [] {
      SameSums(pods[..|pods| - 1], p, q, useLimits);
    }
  }

  lemma SamePods(pods: seq<Pod>, p: Pod -> bool, q: Pod -> bool, useLimits: bool)
    requires forall pod :: p(pod) <==> q(pod)
    ensures IsTaken(SumPods(pods, p, useLimits), pods, q, useLimits)
  {
    hide SumPods, IsTaken;
    SameSums(pods, p, q, useLimits);
    PodsTaken(pods, q, useLimits);
  }

  lemma {:induction false} LimitsExactly(pods: seq<Pod>, name: string, useLimits: bool)
    ensures IsLimited(UsageOf(pods, name, useLimits).limits, pods, (pod: Pod) => OnNode(pod, name))
  {
    hide PodRequest;
    if pods != [] {
      LimitsExactly(pods[..|pods| - 1], name, useLimits);
      ContainerLimits(pods[|pods| - 1].containers);
      hide SumLimits;
    }
  }

  lemma {:induction false} ContainerLimits(cs: seq<Container>)
    ensures SumLimits(cs) == Amount(SumOf(cs, (c: Container) => c.limits.cpu),
                                    SumOf(cs, (c: Container) => c.limits.gpu),
                                    SumOf(cs, (c: Container) => c.limits.memory))
  {
    if cs != [] {
      ContainerLimits(cs[..|cs| - 1]);
    }
  }

  /** The algorithms of the workers on a node are those of its running and pending worker pods, in their order. */
  lemma {:induction false} WorkersExactly(pods: seq<Pod>, name: string, useLimits: bool)
    ensures var u := UsageOf(pods, name, useLimits);
            var workers := Filter(pods, (pod: Pod) => OnNode(pod, name) && pod.worker);
            |u.workers| == |workers| && forall i :: 0 <= i < |workers| ==> u.workers[i] == workers[i].algorithmName
  {
    hide PodRequest, SumLimits, Filter;
    var p := (pod: Pod) => OnNode(pod, name) && pod.worker;
    if pods == [] {
      FilterEmpty(p);
    } else {
      var init, last := pods[..|pods| - 1], pods[|pods| - 1];
      WorkersExactly(init, name, useLimits);
      assert pods == init + [last];
      FilterConcat(init, [last], p);
      FilterSingle(last, p);
    }
  }

  /** What is free on a node, and the amounts of the cluster, by quantity: the sum of the totals of its nodes, what the
      running and pending pods on them take, and the difference. */
  lemma ClusterExactly(nodes: seq<Node>, pods: seq<Pod>, useLimits: bool, i: nat)
    requires DistinctBy(nodes, NodeName)
    ensures var records := RecordsOf(nodes, pods, useLimits);
            var c := ClusterOf(records);
      && (i < |nodes| ==>
            && records[i].free.cpu == nodes[i].total.cpu - records[i].usage.requests.cpu
            && records[i].free.gpu == nodes[i].total.gpu - records[i].usage.requests.gpu
            && records[i].free.memory == nodes[i].total.memory - records[i].usage.requests.memory)
      && c.total.cpu == SumOf(nodes, (n: Node) => n.total.cpu)
      && c.total.gpu == SumOf(nodes, (n: Node) => n.total.gpu)
      && c.total.memory == SumOf(nodes, (n: Node) => n.total.memory)
      && IsTaken(c.requests, pods, (pod: Pod) => exists k :: 0 <= k < |nodes| && OnNode(pod, nodes[k].name), useLimits)
      && c.limits.cpu == SumOf(records, (r: Record) => r.usage.limits.cpu)
      && c.limits.gpu == SumOf(records, (r: Record) => r.usage.limits.gpu)
      && c.limits.memory == SumOf(records, (r: Record) => r.usage.limits.memory)
      && c.free.cpu == c.total.cpu - c.requests.cpu && c.free.gpu == c.total.gpu - c.requests.gpu
      && c.free.memory == c.total.memory - c.requests.memory
  {
    LimitedExactly(RecordsOf(nodes, pods, useLimits));
    TotalsExactly(nodes, pods, useLimits);
    ClusterRequests(nodes, pods, useLimits);
    forall pod: Pod ensures OnListed(pod, nodes) <==> exists k :: 0 <= k < |nodes| && OnNode(pod, nodes[k].name) {
      ListedOnNode(pod, nodes);
    }
    hide UsageOf, SumPods, IsTaken, OnNode, OnListed, SumTotals, SumUsed, SumLimited, SumOf;
    SamePods(pods, (pod: Pod) => OnListed(pod, nodes),
             (pod: Pod) => exists k :: 0 <= k < |nodes| && OnNode(pod, nodes[k].name), useLimits);
  }

  lemma ListedOnNode(pod: Pod, nodes: seq<Node>)
    ensures OnListed(pod, nodes) <==> exists k :: 0 <= k < |nodes| && OnNode(pod, nodes[k].name)
  {
    if OnListed(pod, nodes) {
      var k :| 0 <= k < |nodes| && pod.nodeName == Some(nodes[k].name);
      assert OnNode(pod, nodes[k].name);
    }
  }

  lemma {:induction false} LimitedExactly(s: seq<Record>)
    ensures SumLimited(s) == Amount(SumOf(s, (r: Record) => r.usage.limits.cpu),
                                    SumOf(s, (r: Record) => r.usage.limits.gpu),
                                    SumOf(s, (r: Record) => r.usage.limits.memory))
  {
    if s != [] {
      LimitedExactly(s[..|s| - 1]);
    }
  }

  lemma {:induction false} TotalsExactly(nodes: seq<Node>, pods: seq<Pod>, useLimits: bool)
    ensures SumTotals(RecordsOf(nodes, pods, useLimits)) ==
              Amount(SumOf(nodes, (n: Node) => n.total.cpu), SumOf(nodes, (n: Node) => n.total.gpu),
                     SumOf(nodes, (n: Node) => n.total.memory))
  {
    hide UsageOf;
    if nodes != [] {
      TotalsExactly(nodes[..|nodes| - 1], pods, useLimits);
      var s := RecordsOf(nodes, pods, useLimits);
      assert s[..|s| - 1] == RecordsOf(nodes[..|nodes| - 1], pods, useLimits);
    }
  }

  // ---------------------------------------------------------------- normalizeResources

  ghost predicate TableExact(table: map<string, Usage>, nodes: seq<Node>, pods: seq<Pod>, useLimits: bool) {
    forall name :: (name in table <==> exists i :: 0 <= i < |nodes| && nodes[i].name == name)
                && (name in table ==> table[name] == UsageOf(pods, name, useLimits))
  }

  /** normalizeResources, up to the ratios */
  method NormalizeResources(pods: seq<Pod>, nodes: seq<Node>, useLimits: bool)
    returns (nodeList: seq<Record>, allNodes: Cluster)
    requires DistinctBy(nodes, NodeName)
    ensures nodeList == RecordsOf(Schedulable(nodes), pods, useLimits)
    ensures allNodes == ClusterOf(nodeList)
  {
    var listed := Schedulable(nodes);
    var initial := Initial(listed, useLimits);
    var resourcesPerNode := AddPods(initial, listed, pods, useLimits);
    nodeList := [];
    var total, requests, limits := ZERO, ZERO, ZERO;
    hide UsageOf, Schedulable, RecordsOf, SumTotals, SumUsed, SumLimited, TableExact, DistinctBy;
    for i := 0 to |listed|
      invariant |nodeList| == i && nodeList == RecordsOf(listed[..i], pods, useLimits)
      invariant total == SumTotals(nodeList) && requests == SumUsed(nodeList) && limits == SumLimited(nodeList)
    {
      InTable(resourcesPerNode, listed, pods, useLimits, i);
      var v := resourcesPerNode[listed[i].name];
      var record := Record(listed[i].name, listed[i].labels, listed[i].total, v, listed[i].total.Minus(v.requests));
      NextRecord(listed, pods, useLimits, i);
      nodeList := nodeList + [record];
      total, requests, limits := total.Plus(record.total), requests.Plus(v.requests), limits.Plus(v.limits);
    }
    assert listed[..|listed|] == listed;
    allNodes := Cluster(total, requests, limits, total.Minus(requests));
  }

  lemma InTable(table: map<string, Usage>, nodes: seq<Node>, pods: seq<Pod>, useLimits: bool, i: nat)
    requires TableExact(table, nodes, pods, useLimits) && i < |nodes|
    ensures nodes[i].name in table && table[nodes[i].name] == UsageOf(pods, nodes[i].name, useLimits)
  {
    hide UsageOf;
  }

  lemma NextRecord(nodes: seq<Node>, pods: seq<Pod>, useLimits: bool, i: nat)
    requires i < |nodes|
    ensures RecordsOf(nodes[..i + 1], pods, useLimits) ==
              RecordsOf(nodes[..i], pods, useLimits) + [RecordOf(nodes[i], pods, useLimits)]
  {
    assert nodes[..i + 1][..i] == nodes[..i];
  }

  /** The reduce over the nodes. */
  method Initial(listed: seq<Node>, ghost useLimits: bool) returns (table: map<string, Usage>)
    ensures TableExact(table, listed, [], useLimits)
  {
    table := map[];
    for i := 0 to |listed|
      invariant TableExact(table, listed[..i], [], useLimits)
    {
      table := table[listed[i].name := UNUSED];
    }
    assert listed[..|listed|] == listed;
  }

  /** The reduce over the running and pending pods. */
  method AddPods(initial: map<string, Usage>, ghost listed: seq<Node>, pods: seq<Pod>, useLimits: bool)
    returns (accumulator: map<string, Usage>)
    requires TableExact(initial, listed, [], useLimits)
    ensures TableExact(accumulator, listed, pods, useLimits)
  {
    accumulator := initial;
    assert pods[..0] == [];
    for i := 0 to |pods|
      invariant TableExact(accumulator, listed, pods[..i], useLimits)
    {
      var pod := pods[i];
      assert pods[..i + 1][..i] == pods[..i];
      if StateFilter(pod) && pod.nodeName.Some? && pod.nodeName.value in accumulator {
        var name := pod.nodeName.value;
        accumulator := accumulator[name := AddPod(accumulator[name], pod, useLimits)];
      }
    }
    assert pods[..|pods|] == pods;
  }
}
