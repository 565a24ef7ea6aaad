/** When the search for workers to stop succeeds and what it changes, quantity by quantity
    (task-executor, lib/reconcile/resources.js). */
module DrainSearch {
  import opened Collections
  import opened Resources
  import opened Stopping

  // ---------------------------------------------------------------- sums of quantities

  /** What the workers that satisfy p ask for, summed by quantity. */
  function Sums(workers: seq<StopDetail>, p: StopDetail -> bool): Amount {
    Amount(SumOf(workers, (w: StopDetail) => if p(w) then w.request.cpu else 0.0),
           SumOf(workers, (w: StopDetail) => if p(w) then w.request.gpu else 0.0),
           SumOf(workers, (w: StopDetail) => if p(w) then w.request.memory else 0.0))
  }

  lemma SumsMore(workers: seq<StopDetail>, p: StopDetail -> bool)
    requires workers != []
    ensures var before, last := Sums(workers[..|workers| - 1], p), workers[|workers| - 1].request;
            Sums(workers, p) ==
              if p(workers[|workers| - 1])
              then Amount(before.cpu + last.cpu, before.gpu + last.gpu, before.memory + last.memory) else before
  {
  }

  lemma {:induction false} TotalIsSums(workers: seq<StopDetail>)
    ensures RequestTotal(workers) == Sums(workers, w => true)
  {
    if workers != [] {
      TotalIsSums(workers[..|workers| - 1]);
      SumsMore(workers, w => true);
    }
  }

  lemma FilterLast(workers: seq<StopDetail>, p: StopDetail -> bool)
    requires workers != []
    ensures var last := workers[|workers| - 1];
            Filter(workers, p) == Filter(workers[..|workers| - 1], p) + if p(last) then [last] else []
  {
    hide Filter;
    var init, last := workers[..|workers| - 1], workers[|workers| - 1];
    assert workers == init + [last];
    FilterSingle(last, p);
    FilterConcat(init, [last], p);
  }

  lemma {:induction false} FilterSums(workers: seq<StopDetail>, p: StopDetail -> bool, q: StopDetail -> bool,
                                      both: StopDetail -> bool)
    requires forall w :: both(w) <==> p(w) && q(w)
    ensures Sums(Filter(workers, p), q) == Sums(workers, both)
  {
    if workers != [] {
      var init, last := workers[..|workers| - 1], workers[|workers| - 1];
      FilterSums(init, p, q, both);
      FilterLast(workers, p);
      SumsMore(workers, both);
      if p(last) {
        var kept := Filter(init, p) + [last];
        assert kept[..|kept| - 1] == Filter(init, p);
        SumsMore(kept, q);
      } else {
        assert Filter(init, p) + [] == Filter(init, p);
      }
    }
  }

  // ---------------------------------------------------------------- freeing workers

  /** Node j is the one the list is searched for by that name. */
  ghost predicate IsFirst(nodes: seq<LoadedNode>, name: string, j: nat)
    requires j < |nodes|
  {
    nodes[j].node.name == name && forall k :: 0 <= k < j ==> nodes[k].node.name != name
  }

  ghost predicate Moved(before: NodeState, after: NodeState, freed: Amount) {
    && after.free.cpu == before.free.cpu + freed.cpu && after.requests.cpu == before.requests.cpu - freed.cpu
    && after.free.gpu == before.free.gpu + freed.gpu && after.requests.gpu == before.requests.gpu - freed.gpu
    && after.free.memory == before.free.memory + freed.memory
    && after.requests.memory == before.requests.memory - freed.memory
    && after.name == before.name && after.labels == before.labels && after.total == before.total
  }

  /** Giving back the requests of some workers moves, at the named node, their sums of cpu, gpu and memory from
      requests to free, and changes nothing else. */
  lemma FreedExactly(nodes: seq<LoadedNode>, name: string, workers: seq<StopDetail>, j: nat)
    requires j < |nodes| && exists k :: 0 <= k < |nodes| && nodes[k].node.name == name
    ensures var after := FreedBy(nodes, name, workers);
      && |after| == |nodes| && after[j].workers == nodes[j].workers
      && (IsFirst(nodes, name, j) ==> Moved(nodes[j].node, after[j].node, Sums(workers, w => true)))
      && (!IsFirst(nodes, name, j) ==> after[j] == nodes[j])
  {
    FreedByExact(nodes, name, workers);
    TotalIsSums(workers);
    hide FreedBy, RequestTotal, Sums;
  }

  /** Free amounts that hold the request and leave the reserve. */
  ghost predicate Room(free: Amount, total: Amount, r: Amount) {
    && free.cpu - r.cpu > 0.1 * total.cpu && free.memory - r.memory > 0.2 * total.memory && free.gpu - r.gpu >= 0.0
  }

  ghost function Added(a: Amount, b: Amount): Amount { Amount(a.cpu + b.cpu, a.gpu + b.gpu, a.memory + b.memory) }

  /** What node j has free once the workers of other algorithms on node i are stopped. */
  ghost function FreeWith(nodes: seq<LoadedNode>, algorithmName: string, i: nat, j: nat): Amount
    requires i < |nodes| && j < |nodes|
  {
    var freed := Sums(nodes[i].workers, (w: StopDetail) => w.algorithmName != algorithmName);
    if IsFirst(nodes, nodes[i].node.name, j) then Added(nodes[j].node.free, freed) else nodes[j].node.free
  }

  /** Node i has workers of other algorithms, and with all of them stopped node j has room. */
  ghost predicate Relieves(nodes: seq<LoadedNode>, algorithmName: string, r: Amount, i: nat, j: nat)
    requires i < |nodes| && j < |nodes|
  {
    && (exists w :: w in nodes[i].workers && w.algorithmName != algorithmName)
    && Room(FreeWith(nodes, algorithmName, i, j), nodes[j].node.total, r)
  }

  lemma FitsExactly(nodes: seq<LoadedNode>, algorithmName: string, r: Amount, i: nat, j: nat)
    requires i < |nodes| && j < |nodes|
    ensures var after := FreedBy(nodes, nodes[i].node.name, Candidates(nodes[i], algorithmName));
            FindNodeForSchedule(after[j].node, r) <==>
              Room(FreeWith(nodes, algorithmName, i, j), nodes[j].node.total, r)
  {
    FilterSums(nodes[i].workers, (w: StopDetail) => w.algorithmName != algorithmName, w => true,
               (w: StopDetail) => w.algorithmName != algorithmName);
    hide Sums, FreedBy, Filter, IsFirst;
    assert nodes[i].node.name == nodes[i].node.name;
    FreedExactly(nodes, nodes[i].node.name, Candidates(nodes[i], algorithmName), j);
  }

  lemma DrainableExactly(nodes: seq<LoadedNode>, algorithmName: string, r: Amount, i: nat)
    requires i < |nodes|
    ensures Drainable(nodes, algorithmName, r, i) <==>
              exists j :: 0 <= j < |nodes| && Relieves(nodes, algorithmName, r, i, j)
  {
    var workers := Candidates(nodes[i], algorithmName);
    if workers != [] { assert workers[0] in workers; }
    hide Candidates, Sums, FreedBy, FindNodeForSchedule, Room, FreeWith;
    forall j | 0 <= j < |nodes|
      ensures workers != [] && FindNodeForSchedule(FreedBy(nodes, nodes[i].node.name, workers)[j].node, r) <==>
                Relieves(nodes, algorithmName, r, i, j)
    {
      FitsExactly(nodes, algorithmName, r, i, j);
    }
    hide Relieves;
  }

  /** The search succeeds if and only if some listed node has workers of other algorithms and, with all of them
      stopped, some listed node has room for the request. */
  lemma DrainExactly(nodes: seq<LoadedNode>, algorithmName: string, r: Amount)
    requires forall i :: 0 <= i < |nodes| ==> NonNegativeRequests(nodes[i].workers)
    ensures Drain(nodes, algorithmName, r, 0).Some? <==>
              exists i, j :: 0 <= i < |nodes| && 0 <= j < |nodes| && Relieves(nodes, algorithmName, r, i, j)
  {
    DrainExact(nodes, algorithmName, r, 0);
    hide Drain, Drainable, Relieves;
    forall i | 0 <= i < |nodes|
      ensures Drainable(nodes, algorithmName, r, i) <==>
                exists j :: 0 <= j < |nodes| && Relieves(nodes, algorithmName, r, i, j)
    {
      DrainableExactly(nodes, algorithmName, r, i);
    }
    if i, j :| 0 <= i < |nodes| && 0 <= j < |nodes| && Relieves(nodes, algorithmName, r, i, j) {
      assert Drainable(nodes, algorithmName, r, i);
    }
  }

  /** What a successful search returns: at the drained node the sums of the popped workers moved from requests to
      free, nothing else changed, and some node has room. */
  lemma DrainedExactly(nodes: seq<LoadedNode>, algorithmName: string, r: Amount, j: nat) returns (room: nat)
    requires Drain(nodes, algorithmName, r, 0).Some? && j < |nodes|
    ensures var d := Drain(nodes, algorithmName, r, 0).value;
      && |d.nodes| == |nodes| && d.node < |nodes| && d.nodes[j].workers == nodes[j].workers
      && (if IsFirst(nodes, nodes[d.node].node.name, j)
          then Moved(nodes[j].node, d.nodes[j].node, Sums(d.popped, w => true))
          else d.nodes[j] == nodes[j])
      && room < |nodes| && Room(d.nodes[room].node.free, d.nodes[room].node.total, r)
      && (forall w :: w in d.popped ==> w in nodes[d.node].workers && w.algorithmName != algorithmName)
  {
    var d := Drain(nodes, algorithmName, r, 0).value;
    DrainFirst(nodes, algorithmName, r, 0);
    hide Drain, Sums, FreedBy;
    assert nodes[d.node].node.name == nodes[d.node].node.name;
    FreedExactly(nodes, nodes[d.node].node.name, d.popped, j);
    room :| 0 <= room < |d.nodes| && FindNodeForSchedule(d.nodes[room].node, r);
    forall w | w in d.popped ensures w in Candidates(nodes[d.node], algorithmName) {
    }
  }

  // ---------------------------------------------------------------- serving skipped requests

  /** The worker runs on the node and belongs to another algorithm than the request. */
  predicate Other(w: StopDetail, n: NodeState, r: JobDetails) {
    w.nodeName == Some(n.name) && w.algorithmName != r.algorithmName
  }

  /** Both nodes carry the labels that the request selects, workers of other algorithms run on a, and with all of
      them stopped b has room for the request. */
  ghost predicate Serves(a: NodeState, b: NodeState, details: seq<StopDetail>, r: JobDetails) {
    && LabelsMatch(a.labels, r.nodeSelector) && LabelsMatch(b.labels, r.nodeSelector)
    && (exists w :: w in details && Other(w, a, r))
    && var freed := Sums(details, (w: StopDetail) => Other(w, a, r));
    && Room(if a.name == b.name then Added(b.free, freed) else b.free, b.total, r.request)
  }

  lemma FirstOfName(ranked: seq<NodeState>, details: seq<StopDetail>, i: nat, j: nat)
    requires DistinctBy(ranked, StateName) && i < |ranked| && j < |ranked|
    ensures ranked[i].name == ranked[j].name <==> i == j
    ensures IsFirst(MatchWorkersToNodes(ranked, details), ranked[i].name, j) <==> i == j
  {
    var loaded := MatchWorkersToNodes(ranked, details);
    hide MatchWorkersToNodes, Filter;
    assert StateName(ranked[i]) == StateName(ranked[j]) <==> i == j;
    forall k | 0 <= k < j ensures loaded[k].node.name != ranked[j].name {
      assert StateName(ranked[k]) != StateName(ranked[j]);
    }
  }

  lemma OthersOn(ranked: seq<NodeState>, details: seq<StopDetail>, r: JobDetails, i: nat)
    requires i < |ranked|
    ensures var workers := MatchWorkersToNodes(ranked, details)[i].workers;
      && ((exists w :: w in workers && w.algorithmName != r.algorithmName) <==>
            exists w :: w in details && Other(w, ranked[i], r))
      && Sums(workers, (w: StopDetail) => w.algorithmName != r.algorithmName) ==
           Sums(details, (w: StopDetail) => Other(w, ranked[i], r))
  {
    LoadedInOrder(ranked, details, i);
    FilterSums(details, (w: StopDetail) => w.nodeName == Some(ranked[i].name),
               (w: StopDetail) => w.algorithmName != r.algorithmName, (w: StopDetail) => Other(w, ranked[i], r));
    hide MatchWorkersToNodes, Sums, Filter;
  }

  lemma RelievesByName(ranked: seq<NodeState>, details: seq<StopDetail>, r: JobDetails, i: nat, j: nat)
    requires DistinctBy(ranked, StateName) && i < |ranked| && j < |ranked|
    requires LabelsMatch(ranked[i].labels, r.nodeSelector) && LabelsMatch(ranked[j].labels, r.nodeSelector)
    ensures Relieves(MatchWorkersToNodes(ranked, details), r.algorithmName, r.request, i, j) <==>
              Serves(ranked[i], ranked[j], details, r)
  {
    FirstOfName(ranked, details, i, j);
    OthersOn(ranked, details, r, i);
    hide MatchWorkersToNodes, Sums, Filter, LabelsMatch, DistinctBy, IsFirst, Room, Other, Added;
  }

  lemma RankedCarry(nodes: seq<NodeState>, selector: Option<Labels>)
    ensures forall n :: n in RankedNodes(nodes, selector) <==> n in nodes && LabelsMatch(n.labels, selector)
  {
    forall n: NodeState { SelectorExactly(n.labels, selector); }
    hide NodeSelectorFilter, LabelsMatch, RankedNodes;
  }

  lemma SearchOnRanked(ranked: seq<NodeState>, details: seq<StopDetail>, r: JobDetails)
    requires DistinctBy(ranked, StateName) && NonNegativeRequests(details)
    requires forall n :: n in ranked ==> LabelsMatch(n.labels, r.nodeSelector)
    ensures Drain(MatchWorkersToNodes(ranked, details), r.algorithmName, r.request, 0).Some? <==>
              exists i, j :: 0 <= i < |ranked| && 0 <= j < |ranked| && Serves(ranked[i], ranked[j], details, r)
  {
    hide Drain, Relieves, DistinctBy, MatchWorkersToNodes, LabelsMatch, Serves;
    var loaded := MatchWorkersToNodes(ranked, details);
    DrainExactly(loaded, r.algorithmName, r.request);
    forall i, j | 0 <= i < |ranked| && 0 <= j < |ranked|
      ensures Relieves(loaded, r.algorithmName, r.request, i, j) <==> Serves(ranked[i], ranked[j], details, r)
    {
      assert ranked[i] in ranked && ranked[j] in ranked;
      RelievesByName(ranked, details, r, i, j);
    }
    PairsAgree(ranked, loaded, details, r);
  }

  lemma PairsAgree(ranked: seq<NodeState>, loaded: seq<LoadedNode>, details: seq<StopDetail>, r: JobDetails)
    requires |loaded| == |ranked|
    requires forall i, j :: 0 <= i < |ranked| && 0 <= j < |ranked| ==>
               (Relieves(loaded, r.algorithmName, r.request, i, j) <==> Serves(ranked[i], ranked[j], details, r))
    ensures (exists i, j :: 0 <= i < |loaded| && 0 <= j < |loaded| &&
                            Relieves(loaded, r.algorithmName, r.request, i, j)) <==>
              exists i, j :: 0 <= i < |ranked| && 0 <= j < |ranked| && Serves(ranked[i], ranked[j], details, r)
  {
    hide Relieves, Serves;
    if i, j :| 0 <= i < |ranked| && 0 <= j < |ranked| && Serves(ranked[i], ranked[j], details, r) {
      assert Relieves(loaded, r.algorithmName, r.request, i, j);
    }
  }

  /** A skipped request is served if and only if some nodes with the labels it selects serve it. */
  lemma SearchExactly(p: Pause, r: JobDetails)
    requires DistinctBy(p.nodes, StateName) && NonNegativeRequests(p.details)
    ensures SearchFor(p, r).Some? <==>
              exists a, b :: a in p.nodes && b in p.nodes && Serves(a, b, p.details, r)
  {
    RankedCarry(p.nodes, r.nodeSelector);
    RankedNamesDistinct(p.nodes, r.nodeSelector);
    SearchOnRanked(RankedNodes(p.nodes, r.nodeSelector), p.details, r);
    SamePairs(RankedNodes(p.nodes, r.nodeSelector), p.nodes, p.details, r);
    hide RankedNodes, DistinctBy, Serves, LabelsMatch, Drain, MatchWorkersToNodes, NonNegativeRequests;
  }

  lemma SamePairs(ranked: seq<NodeState>, nodes: seq<NodeState>, details: seq<StopDetail>, r: JobDetails)
    requires forall n :: n in ranked <==> n in nodes && LabelsMatch(n.labels, r.nodeSelector)
    ensures (exists i, j :: 0 <= i < |ranked| && 0 <= j < |ranked| && Serves(ranked[i], ranked[j], details, r)) <==>
              exists a, b :: a in nodes && b in nodes && Serves(a, b, details, r)
  {
    if a, b :| a in nodes && b in nodes && Serves(a, b, details, r) {
      assert LabelsMatch(a.labels, r.nodeSelector) && LabelsMatch(b.labels, r.nodeSelector);
      assert a in ranked && b in ranked;
      hide Serves, LabelsMatch;
      AtSomeIndex(ranked, a, b, details, r);
    }
    hide Serves, LabelsMatch;
    if i, j :| 0 <= i < |ranked| && 0 <= j < |ranked| && Serves(ranked[i], ranked[j], details, r) {
      assert ranked[i] in ranked && ranked[j] in ranked;
    }
  }

  lemma AtSomeIndex(ranked: seq<NodeState>, a: NodeState, b: NodeState, details: seq<StopDetail>, r: JobDetails)
    requires a in ranked && b in ranked && Serves(a, b, details, r)
    ensures exists i, j :: 0 <= i < |ranked| && 0 <= j < |ranked| && Serves(ranked[i], ranked[j], details, r)
  {
    hide Serves;
    var i :| 0 <= i < |ranked| && ranked[i] == a;
    var j :| 0 <= j < |ranked| && ranked[j] == b;
    assert Serves(ranked[i], ranked[j], details, r);
  }

  lemma {:induction false} NobodyStops(p: Pause, skipped: seq<JobDetails>)
    requires p.toStop == []
    ensures ServeAll(p, skipped).toStop == [] ==> ServeAll(p, skipped) == p
    ensures ServeAll(p, skipped).toStop == [] <==> forall r :: r in skipped ==> SearchFor(p, r).None?
  {
    hide SearchFor;
    if skipped != [] {
      var init, last := skipped[..|skipped| - 1], skipped[|skipped| - 1];
      NobodyStops(p, init);
      assert skipped == init + [last];
    }
  }

  /** Some worker is stopped if and only if some skipped request is served by nodes that carry its labels, with the
      nodes and candidates as they are. */
  lemma StopsExactly(p: Pause, skipped: seq<JobDetails>)
    requires p.toStop == [] && DistinctBy(p.nodes, StateName) && NonNegativeRequests(p.details)
    ensures ServeAll(p, skipped).toStop != [] <==>
              exists r, a, b :: r in skipped && a in p.nodes && b in p.nodes && Serves(a, b, p.details, r)
  {
    hide SearchFor, Serves, DistinctBy, ServeAll;
    NobodyStops(p, skipped);
    forall r
      ensures SearchFor(p, r).Some? <==>
                exists a, b :: a in p.nodes && b in p.nodes && Serves(a, b, p.details, r)
    {
      SearchExactly(p, r);
    }
  }

  /** A served request: some node carries its labels and has room for it; one node changed, where the sums of the
      popped workers, which run on it and belong to other algorithms, moved from requests to free. */
  lemma ServedExactly(p: Pause, r: JobDetails) returns (room: nat, changed: nat)
    requires DistinctBy(p.nodes, StateName)
    ensures SearchFor(p, r).Some? ==>
              var next, popped := Serve(p, r), SearchFor(p, r).value.popped;
              && |next.nodes| == |p.nodes| && room < |p.nodes| && changed < |p.nodes|
              && LabelsMatch(next.nodes[room].labels, r.nodeSelector)
              && Room(next.nodes[room].free, next.nodes[room].total, r.request)
              && (forall i :: 0 <= i < |p.nodes| && i != changed ==> next.nodes[i] == p.nodes[i])
              && Moved(p.nodes[changed], next.nodes[changed], Sums(popped, w => true))
              && popped != [] && (forall w :: w in popped ==> w in p.details && w.algorithmName != r.algorithmName)
              && next.toStop == p.toStop + [popped[|popped| - 1]]
              && (forall w :: w in next.details <==> w in p.details && w.id != popped[|popped| - 1].id)
  {
    hide SearchFor, RequestTotal, Sums, LabelsMatch, WriteBack, DistinctBy, CanHost, GiveBack, Moved, Room, WithoutId;
    room, changed := ServeMakesRoom(p, r);
    if SearchFor(p, r).Some? {
      var popped := SearchFor(p, r).value.popped;
      TotalIsSums(popped);
      PoppedAreOthers(p, r);
      HostHasRoom(Serve(p, r).nodes[room], r);
      GivenBackMoved(p.nodes[changed], RequestTotal(popped));
    }
  }

  lemma HostHasRoom(n: NodeState, r: JobDetails)
    ensures CanHost(n, r) ==> LabelsMatch(n.labels, r.nodeSelector) && Room(n.free, n.total, r.request)
  {
    CanHostExactly(n, r);
  }

  lemma GivenBackMoved(n: NodeState, freed: Amount)
    ensures Moved(n, GiveBack(n, freed), freed)
  {
  }

  lemma PoppedAreOthers(p: Pause, r: JobDetails)
    requires SearchFor(p, r).Some?
    ensures var d := SearchFor(p, r).value;
      && d.popped != [] && d.worker == d.popped[|d.popped| - 1]
      && forall w :: w in d.popped ==> w in p.details && w.algorithmName != r.algorithmName
  {
    hide RankedNodes, DrainNode, SomeFits;
    var loaded := MatchWorkersToNodes(RankedNodes(p.nodes, r.nodeSelector), p.details);
    DrainFirst(loaded, r.algorithmName, r.request, 0);
    var d := SearchFor(p, r).value;
    forall w | w in d.popped ensures w in Candidates(loaded[d.node], r.algorithmName) {
    }
  }
}
