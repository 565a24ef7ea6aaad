/** Placement of new jobs on nodes (task-executor, lib/reconcile/resources.js). */
module Resources {
  import opened Collections

  // ---------------------------------------------------------------- data model

  datatype Amount = Amount(cpu: real, gpu: real, memory: real) {
    function Plus(o: Amount): Amount { Amount(cpu + o.cpu, gpu + o.gpu, memory + o.memory) }
    function Minus(o: Amount): Amount { Amount(cpu - o.cpu, gpu - o.gpu, memory - o.memory) }
    predicate NonNegative() { cpu >= 0.0 && gpu >= 0.0 && memory >= 0.0 }
  }

  const ZERO := Amount(0.0, 0.0, 0.0)

  type Labels = map<string, string>

  datatype NodeState = NodeState(
    name: string, labels: Option<Labels>, total: Amount, free: Amount, requests: Amount)

  datatype JobDetails = JobDetails(
    algorithmName: string, request: Amount, nodeSelector: Option<Labels>, hotWorker: bool)

  /** numberOfNewJobs copies of one kind of job. */
  datatype CreateDetail = CreateDetail(numberOfNewJobs: int, job: JobDetails)

  datatype CreatedJob = CreatedJob(job: JobDetails, createdTime: int)

  // ---------------------------------------------------------------- one job

  // CPU_RATIO_PRESSURE is 0.9, GPU_RATIO_PRESSURE is 1 and MEMORY_RATIO_PRESSURE is 0.8.
  const CPU_RESERVE := 0.1
  const GPU_RESERVE := 0.0
  const MEMORY_RESERVE := 0.2

  /** What a node may still give away before it is under pressure. */
  function Available(n: NodeState): Amount {
    Amount(n.free.cpu - n.total.cpu * CPU_RESERVE,
           n.free.gpu - n.total.gpu * GPU_RESERVE,
           n.free.memory - n.total.memory * MEMORY_RESERVE)
  }

  predicate FindNodeForSchedule(n: NodeState, r: Amount) {
    r.cpu < Available(n).cpu && r.memory < Available(n).memory && r.gpu <= Available(n).gpu
  }

  predicate NodeSelectorFilter(labels: Option<Labels>, selector: Option<Labels>) {
    selector.None? ||
    (labels.Some? && forall k | k in selector.value :: k in labels.value && labels.value[k] == selector.value[k])
  }

  /** Every label of the selector is on the node with the same value. */
  ghost predicate LabelsMatch(labels: Option<Labels>, selector: Option<Labels>) {
    selector.None? || (labels.Some? && selector.value.Items <= labels.value.Items)
  }

  lemma SelectorExactly(labels: Option<Labels>, selector: Option<Labels>)
    ensures NodeSelectorFilter(labels, selector) <==> LabelsMatch(labels, selector)
  {
    if selector.Some? && labels.Some? {
      if selector.value.Items <= labels.value.Items {
        forall k | k in selector.value ensures k in labels.value && labels.value[k] == selector.value[k] {
          assert (k, selector.value[k]) in selector.value.Items;
        }
      } else {
        var item :| item in selector.value.Items && item !in labels.value.Items;
        assert item.0 in selector.value && selector.value[item.0] == item.1;
      }
    }
  }

  predicate CanHost(n: NodeState, job: JobDetails) {
    NodeSelectorFilter(n.labels, job.nodeSelector) && FindNodeForSchedule(n, job.request)
  }

  /** The node keeps its reserve: more than 10% cpu, more than 20% memory, no gpu overdraft. */
  predicate Headroom(n: NodeState) {
    n.free.cpu > n.total.cpu * 0.1 && n.free.memory > n.total.memory * 0.2 && n.free.gpu >= 0.0
  }

  /** The first node, in list order, that can host the job. */
  function FirstHost(nodes: seq<NodeState>, job: JobDetails): (r: Option<nat>)
    ensures r.Some? ==> r.value < |nodes| && CanHost(nodes[r.value], job)
    ensures r.Some? ==> forall i | 0 <= i < r.value :: !CanHost(nodes[i], job)
    ensures r.None? ==> forall i | 0 <= i < |nodes| :: !CanHost(nodes[i], job)
  {
    Find(nodes, (n: NodeState) => CanHost(n, job))
  }

  /** A node can host a job exactly when it carries all labels of the selector and keeps its reserve once the
      job is on it. */
  lemma CanHostExactly(n: NodeState, job: JobDetails)
    ensures CanHost(n, job) <==>
              && (job.nodeSelector.None?
                  || (n.labels.Some? && job.nodeSelector.value.Items <= n.labels.value.Items))
              && n.free.cpu - job.request.cpu > 0.1 * n.total.cpu
              && n.free.memory - job.request.memory > 0.2 * n.total.memory
              && n.free.gpu - job.request.gpu >= 0.0
  {
    SelectorExactly(n.labels, job.nodeSelector);
  }

  // ---------------------------------------------------------------- a list of jobs

  /** One copy of the job of one entry of the list of details. */
  datatype Ask = Ask(entry: nat, job: JobDetails)

  datatype Decision = Decision(ask: Ask, node: Option<nat>)

  datatype Run = Run(nodes: seq<NodeState>, log: seq<Decision>)

  /** shouldAddJob; cap is MAX_JOBS_PER_TICK and counts every job looked at, skipped ones too. */
  function Decide(nodes: seq<NodeState>, job: JobDetails, totalAdded: nat, cap: nat): Option<nat> {
    if totalAdded >= cap then None else FirstHost(nodes, job)
  }

  function Deduct(nodes: seq<NodeState>, at: Option<nat>, r: Amount): seq<NodeState>
    requires at.Some? ==> at.value < |nodes|
  {
    if at.None? then nodes
    else nodes[at.value := nodes[at.value].(free := nodes[at.value].free.Minus(r))]
  }

  function Place(run: Run, ask: Ask, cap: nat): Run {
    var at := Decide(run.nodes, ask.job, |run.log|, cap);
    Run(Deduct(run.nodes, at, ask.job.request), run.log + [Decision(ask, at)])
  }

  /** The nodes and the decisions after the given jobs were looked at in turn. */
  function After(nodes: seq<NodeState>, asks: seq<Ask>, cap: nat): (run: Run)
    ensures |run.nodes| == |nodes| && |run.log| == |asks|
  {
    if asks == [] then Run(nodes, [])
    else Place(After(nodes, asks[..|asks| - 1], cap), asks[|asks| - 1], cap)
  }

  function CreatedJobs(log: seq<Decision>): seq<JobDetails> {
    if log == [] then []
    else CreatedJobs(log[..|log| - 1]) +
         if log[|log| - 1].node.Some? then [log[|log| - 1].ask.job] else []
  }

  function SkippedJobs(log: seq<Decision>): seq<JobDetails> {
    if log == [] then []
    else SkippedJobs(log[..|log| - 1]) +
         if log[|log| - 1].node.None? then [log[|log| - 1].ask.job] else []
  }

  /** What the log placed on node i. */
  function PlacedOn(log: seq<Decision>, i: nat): Amount {
    if log == [] then ZERO
    else
      var d := log[|log| - 1];
      var before := PlacedOn(log[..|log| - 1], i);
      if d.node == Some(i) then before.Plus(d.ask.job.request) else before
  }

  function CreatedTotal(log: seq<Decision>): Amount {
    if log == [] then ZERO
    else
      var d := log[|log| - 1];
      var before := CreatedTotal(log[..|log| - 1]);
      if d.node.Some? then before.Plus(d.ask.job.request) else before
  }

  function TotalFree(nodes: seq<NodeState>): Amount {
    if nodes == [] then ZERO else nodes[0].free.Plus(TotalFree(nodes[1..]))
  }

  // ---------------------------------------------------------------- the round-robin order

  function RoundFrom(details: seq<CreateDetail>, i: nat): seq<Ask>
    requires i <= |details|
    decreases |details| - i
  {
    if i == |details| then []
    else (if details[i].numberOfNewJobs > 0 then [Ask(i, details[i].job)] else []) + RoundFrom(details, i + 1)
  }

  function LessOne(d: CreateDetail): CreateDetail {
    if d.numberOfNewJobs > 0 then d.(numberOfNewJobs := d.numberOfNewJobs - 1) else d
  }

  function NextRound(details: seq<CreateDetail>): (r: seq<CreateDetail>)
    ensures |r| == |details|
    ensures forall i :: 0 <= i < |r| ==> r[i] == LessOne(details[i])
  {
    if details == [] then [] else [LessOne(details[0])] + NextRound(details[1..])
  }

  function Remaining(details: seq<CreateDetail>): nat {
    if details == [] then 0 else Max(0, details[0].numberOfNewJobs) + Remaining(details[1..])
  }

  lemma {:induction false} RemainingDrops(details: seq<CreateDetail>)
    ensures Remaining(NextRound(details)) <= Remaining(details)
    ensures (exists i :: 0 <= i < |details| && details[i].numberOfNewJobs > 0) ==>
              Remaining(NextRound(details)) < Remaining(details)
  {
    if details != [] {
      RemainingDrops(details[1..]);
      assert NextRound(details)[1..] == NextRound(details[1..]);
      if i :| 0 < i < |details| && details[i].numberOfNewJobs > 0 {
        assert details[1..][i - 1].numberOfNewJobs > 0;
      }
    }
  }

  lemma RoundFromMembers(details: seq<CreateDetail>, i: nat)
    requires i <= |details|
    ensures forall a :: a in RoundFrom(details, i) ==>
              i <= a.entry < |details| && a.job == details[a.entry].job && details[a.entry].numberOfNewJobs > 0
    ensures RoundFrom(details, i) == [] ==> forall k :: i <= k < |details| ==> details[k].numberOfNewJobs <= 0
    decreases |details| - i
  {
    if i < |details| {
      RoundFromMembers(details, i + 1);
    }
  }

  lemma NoRound(details: seq<CreateDetail>, i: nat)
    requires i <= |details| && forall k :: 0 <= k < |details| ==> details[k].numberOfNewJobs <= 0
    ensures RoundFrom(details, i) == []
    decreases |details| - i
  {
  }

  /** One copy of every unfinished entry, again and again, until none is left. */
  function Asks(details: seq<CreateDetail>): seq<Ask>
    decreases Remaining(details)
  {
    var round := RoundFrom(details, 0);
    if round == [] then []
    else
      RoundFromMembers(details, 0);
      assert round[0] in round;
      RemainingDrops(details);
      round + Asks(NextRound(details))
  }

  function CountEntry(asks: seq<Ask>, i: nat): nat {
    if asks == [] then 0 else CountEntry(asks[1..], i) + if asks[0].entry == i then 1 else 0
  }

  lemma CountEntryConcat(a: seq<Ask>, b: seq<Ask>, i: nat)
    ensures CountEntry(a + b, i) == CountEntry(a, i) + CountEntry(b, i)
  {
    if a == [] {
      assert a + b == b;
    } else {
      assert (a + b)[1..] == a[1..] + b;
      CountEntryConcat(a[1..], b, i);
    }
  }

  lemma CountEntryRound(details: seq<CreateDetail>, from: nat, i: nat)
    requires from <= |details|
    ensures CountEntry(RoundFrom(details, from), i) ==
              if from <= i < |details| && details[i].numberOfNewJobs > 0 then 1 else 0
    decreases |details| - from
  {
    if from < |details| {
      CountEntryRound(details, from + 1, i);
      var rest := RoundFrom(details, from + 1);
      assert ([Ask(from, details[from].job)] + rest)[1..] == rest;
      assert [] + rest == rest;
    }
  }

  /** Every entry is looked at exactly as often as it asked for. */
  lemma {:induction false} AsksExact(details: seq<CreateDetail>, i: nat)
    requires i < |details|
    ensures CountEntry(Asks(details), i) == Max(0, details[i].numberOfNewJobs)
    decreases Remaining(details)
  {
    var round := RoundFrom(details, 0);
    RoundFromMembers(details, 0);
    CountEntryRound(details, 0, i);
    if round != [] {
      assert round[0] in round;
      RemainingDrops(details);
      AsksExact(NextRound(details), i);
      CountEntryConcat(round, Asks(NextRound(details)), i);
    }
  }

  /** Asked jobs are the jobs of their entries. */
  lemma {:induction false} AsksMembers(details: seq<CreateDetail>)
    ensures forall a :: a in Asks(details) ==> a.entry < |details| && a.job == details[a.entry].job
    decreases Remaining(details)
  {
    RoundFromMembers(details, 0);
    var round := RoundFrom(details, 0);
    if round != [] {
      assert round[0] in round;
      RemainingDrops(details);
      AsksMembers(NextRound(details));
      hide RoundFrom, Remaining;
    }
  }

  /** Round-robin fairness: whenever the loop stands after n jobs, no entry is more than one job
      ahead of another entry that still has jobs left. */
  lemma {:induction false} RoundRobinFair(details: seq<CreateDetail>, n: nat, i: nat, j: nat)
    requires i < |details| && j < |details| && n <= |Asks(details)|
    ensures CountEntry(Asks(details)[..n], i) <= CountEntry(Asks(details)[..n], j) + 1
         || CountEntry(Asks(details)[..n], j) == Max(0, details[j].numberOfNewJobs)
    decreases Remaining(details)
  {
    hide CountEntry, Asks, RoundFrom, NextRound, Remaining;
    var round := RoundFrom(details, 0);
    CountEntryRound(details, 0, i);
    CountEntryRound(details, 0, j);
    if n <= |round| {
      FirstRound(details, n);
      CountEntrySplit(round, n, i);
    } else {
      var next, m := NextRound(details), n - |round|;
      LaterRounds(details, n);
      CountEntryConcat(round, Asks(next)[..m], i);
      CountEntryConcat(round, Asks(next)[..m], j);
      RoundRobinFair(next, m, i, j);
      AsksExact(next, j);
      CountEntrySplit(Asks(next), m, j);
    }
  }

  /** Within a round the entries go in the order of the list: an earlier entry that has jobs left is never behind a
      later one. */
  lemma {:induction false} EarlierFirst(details: seq<CreateDetail>, n: nat, i: nat, j: nat)
    requires i < j < |details| && n <= |Asks(details)|
    ensures CountEntry(Asks(details)[..n], j) <= CountEntry(Asks(details)[..n], i)
         || CountEntry(Asks(details)[..n], i) == Max(0, details[i].numberOfNewJobs)
    decreases Remaining(details)
  {
    hide CountEntry, Asks, RoundFrom, NextRound, Remaining;
    var round := RoundFrom(details, 0);
    CountEntryRound(details, 0, i);
    CountEntryRound(details, 0, j);
    if n <= |round| {
      FirstRound(details, n);
      RoundInOrder(details, 0, n, i, j);
      CountEntrySplit(round, n, i);
    } else {
      var next, m := NextRound(details), n - |round|;
      LaterRounds(details, n);
      CountEntryConcat(round, Asks(next)[..m], i);
      CountEntryConcat(round, Asks(next)[..m], j);
      EarlierFirst(next, m, i, j);
      AsksExact(next, i);
      CountEntrySplit(Asks(next), m, i);
    }
  }

  lemma {:induction false} RoundInOrder(details: seq<CreateDetail>, from: nat, n: nat, i: nat, j: nat)
    requires from <= i < j < |details| && n <= |RoundFrom(details, from)|
    ensures CountEntry(RoundFrom(details, from)[..n], j) <= CountEntry(RoundFrom(details, from)[..n], i)
         || details[i].numberOfNewJobs <= 0
    decreases |details| - from
  {
    var round, rest := RoundFrom(details, from), RoundFrom(details, from + 1);
    CountEntryRound(details, from + 1, i);
    CountEntryRound(details, from + 1, j);
    if details[from].numberOfNewJobs > 0 {
      if n > 0 {
        assert round[..n] == [Ask(from, details[from].job)] + rest[..n - 1];
        CountEntryConcat([Ask(from, details[from].job)], rest[..n - 1], i);
        CountEntryConcat([Ask(from, details[from].job)], rest[..n - 1], j);
        CountEntrySplit(rest, n - 1, j);
        assert [Ask(from, details[from].job)][..0] == [];
        if from < i {
          RoundInOrder(details, from + 1, n - 1, i, j);
        }
      }
    } else if from < i {
      assert round == rest;
      RoundInOrder(details, from + 1, n, i, j);
    }
  }

  lemma CountEntrySplit(asks: seq<Ask>, n: nat, i: nat)
    requires n <= |asks|
    ensures CountEntry(asks, i) == CountEntry(asks[..n], i) + CountEntry(asks[n..], i)
  {
    CountEntryConcat(asks[..n], asks[n..], i);
    assert asks == asks[..n] + asks[n..];
  }

  lemma FirstRound(details: seq<CreateDetail>, n: nat)
    requires n <= |RoundFrom(details, 0)| && n <= |Asks(details)|
    ensures Asks(details)[..n] == RoundFrom(details, 0)[..n]
  {
    hide RoundFrom;
  }

  lemma LaterRounds(details: seq<CreateDetail>, n: nat)
    requires |RoundFrom(details, 0)| < n <= |Asks(details)|
    ensures var next, m := NextRound(details), n - |RoundFrom(details, 0)|;
            && Remaining(next) < Remaining(details) && m <= |Asks(next)|
            && Asks(details)[..n] == RoundFrom(details, 0) + Asks(next)[..m]
  {
    RoundFromMembers(details, 0);
    hide RoundFrom, NextRound;
    var round := RoundFrom(details, 0);
    assert round != [];
    assert round[0] in round;
    RemainingDrops(details);
  }

  // ---------------------------------------------------------------- capacity

  /** The books of a run: each node lost exactly what the log placed on it and nothing else changed,
      every job sits on a node its selector matches, every node that was used keeps its reserve,
      and the total that is free dropped by the sum of the created requests. */
  ghost predicate Accounted(nodes: seq<NodeState>, run: Run) {
    && |run.nodes| == |nodes|
    && (forall i :: 0 <= i < |nodes| ==>
          run.nodes[i] == nodes[i].(free := nodes[i].free.Minus(PlacedOn(run.log, i))))
    && (forall k :: 0 <= k < |run.log| ==> WellHosted(nodes, run, run.log[k]))
    && TotalFree(run.nodes) == TotalFree(nodes).Minus(CreatedTotal(run.log))
  }

  ghost predicate WellHosted(nodes: seq<NodeState>, run: Run, d: Decision)
    requires |run.nodes| == |nodes|
  {
    d.node.Some? ==>
      && d.node.value < |nodes|
      && LabelsMatch(nodes[d.node.value].labels, d.ask.job.nodeSelector)
      && Headroom(run.nodes[d.node.value])
  }

  lemma TotalFreeUpdate(nodes: seq<NodeState>, i: nat, r: Amount)
    requires i < |nodes|
    ensures TotalFree(Deduct(nodes, Some(i), r)) == TotalFree(nodes).Minus(r)
  {
    var after := Deduct(nodes, Some(i), r);
    if i == 0 {
      assert after[1..] == nodes[1..];
    } else {
      TotalFreeUpdate(nodes[1..], i - 1, r);
      assert after[1..] == Deduct(nodes[1..], Some(i - 1), r);
    }
  }

  lemma AccountedPlace(nodes: seq<NodeState>, run: Run, ask: Ask, cap: nat)
    requires Accounted(nodes, run)
    ensures Accounted(nodes, Place(run, ask, cap))
  {
    hide TotalFree, Decide, WellHosted;
    var at := Decide(run.nodes, ask.job, |run.log|, cap);
    var next := Place(run, ask, cap);
    DecideHosts(run.nodes, ask.job, |run.log|, cap);
    assert next.log[..|next.log| - 1] == run.log;
    if at.Some? {
      TotalFreeUpdate(run.nodes, at.value, ask.job.request);
    }
    forall k | 0 <= k < |next.log| ensures WellHosted(nodes, next, next.log[k]) {
      PlaceHosted(nodes, run, ask, cap, k);
    }
  }

  lemma DecideHosts(nodes: seq<NodeState>, job: JobDetails, totalAdded: nat, cap: nat)
    ensures var at := Decide(nodes, job, totalAdded, cap);
            at.Some? ==> at.value < |nodes| && CanHost(nodes[at.value], job)
  {
  }

  lemma PlaceHosted(nodes: seq<NodeState>, run: Run, ask: Ask, cap: nat, k: nat)
    requires Accounted(nodes, run) && k <= |run.log|
    ensures WellHosted(nodes, Place(run, ask, cap), Place(run, ask, cap).log[k])
  {
    hide TotalFree, CreatedTotal, PlacedOn, Decide, LabelsMatch, NodeSelectorFilter;
    DecideHosts(run.nodes, ask.job, |run.log|, cap);
    forall n: NodeState { SelectorExactly(n.labels, ask.job.nodeSelector); }
    if k < |run.log| {
      assert WellHosted(nodes, run, run.log[k]);
    }
  }

  /** Capacity safety of one call of matchJobsToResources, for requests of any sign. */
  lemma {:induction false} CapacitySafe(nodes: seq<NodeState>, asks: seq<Ask>, cap: nat)
    ensures Accounted(nodes, After(nodes, asks, cap))
  {
    if asks == [] {
    } else {
      CapacitySafe(nodes, asks[..|asks| - 1], cap);
      AccountedPlace(nodes, After(nodes, asks[..|asks| - 1], cap), asks[|asks| - 1], cap);
    }
  }

  /** The books by quantity: what a node has left of cpu, gpu and memory is what it had less the sum over the jobs
      placed on it. */
  lemma BooksByQuantity(nodes: seq<NodeState>, asks: seq<Ask>, cap: nat, i: nat)
    requires i < |nodes|
    ensures var run := After(nodes, asks, cap);
            var left, had := run.nodes[i], nodes[i];
      && left.free.cpu == had.free.cpu -
           SumOf(run.log, (d: Decision) => if d.node == Some(i) then d.ask.job.request.cpu else 0.0)
      && left.free.gpu == had.free.gpu -
           SumOf(run.log, (d: Decision) => if d.node == Some(i) then d.ask.job.request.gpu else 0.0)
      && left.free.memory == had.free.memory -
           SumOf(run.log, (d: Decision) => if d.node == Some(i) then d.ask.job.request.memory else 0.0)
      && left.name == had.name && left.labels == had.labels && left.total == had.total && left.requests == had.requests
  {
    CapacitySafe(nodes, asks, cap);
    PlacedByQuantity(After(nodes, asks, cap).log, i);
    hide After, PlacedOn, TotalFree, CreatedTotal, WellHosted, SumOf;
  }

  lemma {:induction false} PlacedByQuantity(log: seq<Decision>, i: nat)
    ensures PlacedOn(log, i).cpu ==
              SumOf(log, (d: Decision) => if d.node == Some(i) then d.ask.job.request.cpu else 0.0)
    ensures PlacedOn(log, i).gpu ==
              SumOf(log, (d: Decision) => if d.node == Some(i) then d.ask.job.request.gpu else 0.0)
    ensures PlacedOn(log, i).memory ==
              SumOf(log, (d: Decision) => if d.node == Some(i) then d.ask.job.request.memory else 0.0)
  {
    if log != [] {
      PlacedByQuantity(log[..|log| - 1], i);
    }
  }

  /** Each decision exactly: job k is created on node i if and only if it is among the first cap jobs, and i is the
      first node that, as the jobs before it left the nodes, carries the labels of its selector and keeps its
      reserve with it. */
  lemma DecidedExactly(nodes: seq<NodeState>, asks: seq<Ask>, cap: nat, k: nat, i: nat)
    requires k < |asks| && i < |nodes|
    ensures var before := After(nodes, asks[..k], cap).nodes;
            After(nodes, asks, cap).log[k].node == Some(i) <==>
              k < cap && Suits(before[i], asks[k].job) && forall j :: 0 <= j < i ==> !Suits(before[j], asks[k].job)
  {
    LogAt(nodes, asks, cap, k);
    var before := After(nodes, asks[..k], cap).nodes;
    hide After, CanHost, Suits;
    forall j | 0 <= j < |before| ensures CanHost(before[j], asks[k].job) <==> Suits(before[j], asks[k].job) {
      SuitsExactly(before[j], asks[k].job);
    }
  }

  ghost predicate Suits(n: NodeState, job: JobDetails) {
    LabelsMatch(n.labels, job.nodeSelector) && Headroom(n.(free := n.free.Minus(job.request)))
  }

  lemma SuitsExactly(n: NodeState, job: JobDetails)
    ensures CanHost(n, job) <==> Suits(n, job)
  {
    CanHostExactly(n, job);
  }

  lemma {:induction false} LogAt(nodes: seq<NodeState>, asks: seq<Ask>, cap: nat, k: nat)
    requires k < |asks|
    ensures After(nodes, asks, cap).log[k] ==
              Decision(asks[k], Decide(After(nodes, asks[..k], cap).nodes, asks[k].job, k, cap))
  {
    var init := asks[..|asks| - 1];
    if k < |init| {
      LogAt(nodes, init, cap, k);
      assert init[..k] == asks[..k];
    }
    assert After(nodes, asks, cap) == Place(After(nodes, init, cap), asks[|asks| - 1], cap);
    hide Decide;
  }

  lemma {:induction false} PlacedOnConcat(a: seq<Decision>, b: seq<Decision>, i: nat)
    ensures PlacedOn(a + b, i) == PlacedOn(a, i).Plus(PlacedOn(b, i))
    decreases |b|
  {
    if b == [] {
      assert a + b == a;
    } else {
      assert (a + b)[..|a + b| - 1] == a + b[..|b| - 1];
      PlacedOnConcat(a, b[..|b| - 1], i);
    }
  }

  lemma {:induction false} CreatedTotalConcat(a: seq<Decision>, b: seq<Decision>)
    ensures CreatedTotal(a + b) == CreatedTotal(a).Plus(CreatedTotal(b))
    decreases |b|
  {
    if b == [] {
      assert a + b == a;
    } else {
      assert (a + b)[..|a + b| - 1] == a + b[..|b| - 1];
      CreatedTotalConcat(a, b[..|b| - 1]);
    }
  }

  lemma NothingPlaced(log: seq<Decision>, i: nat)
    requires forall k :: 0 <= k < |log| ==> log[k].node != Some(i)
    ensures PlacedOn(log, i) == ZERO
  {
  }

  lemma AccountedCompose(nodes: seq<NodeState>, first: Run, second: Run)
    requires Accounted(nodes, first) && Accounted(first.nodes, second)
    ensures Accounted(nodes, Run(second.nodes, first.log + second.log))
  {
    hide PlacedOn, CreatedTotal, TotalFree, WellHosted;
    var both := Run(second.nodes, first.log + second.log);
    CreatedTotalConcat(first.log, second.log);
    forall i | 0 <= i < |nodes|
      ensures both.nodes[i] == nodes[i].(free := nodes[i].free.Minus(PlacedOn(both.log, i)))
    {
      PlacedOnConcat(first.log, second.log, i);
    }
    forall k | 0 <= k < |both.log| ensures WellHosted(nodes, both, both.log[k]) {
      HostedInBoth(nodes, first, second, k);
    }
  }

  lemma HostedInBoth(nodes: seq<NodeState>, first: Run, second: Run, k: nat)
    requires Accounted(nodes, first) && Accounted(first.nodes, second)
    requires k < |first.log + second.log|
    ensures WellHosted(nodes, Run(second.nodes, first.log + second.log), (first.log + second.log)[k])
  {
    hide TotalFree, CreatedTotal;
    if k < |first.log| {
      HeadroomStays(nodes, first, second, k);
    } else {
      assert WellHosted(first.nodes, second, second.log[k - |first.log|]);
    }
  }

  /** A node used by the first run keeps its reserve through the second. */
  lemma HeadroomStays(nodes: seq<NodeState>, first: Run, second: Run, k: nat)
    requires Accounted(nodes, first) && Accounted(first.nodes, second)
    requires k < |first.log|
    ensures WellHosted(nodes, Run(second.nodes, first.log + second.log), first.log[k])
  {
    assert WellHosted(nodes, first, first.log[k]);
    if first.log[k].node.Some? {
      var i := first.log[k].node.value;
      if l :| 0 <= l < |second.log| && second.log[l].node == Some(i) {
        assert WellHosted(first.nodes, second, second.log[l]);
      } else {
        NothingPlaced(second.log, i);
      }
    }
  }

  datatype Call = Call(details: seq<CreateDetail>, cap: nat)

  /** Several calls on the same node records: the worker pass, the driver pass, and so on. */
  function Passes(nodes: seq<NodeState>, calls: seq<Call>): Run {
    if calls == [] then Run(nodes, [])
    else
      var before := Passes(nodes, calls[..|calls| - 1]);
      var last := calls[|calls| - 1];
      var pass := After(before.nodes, Asks(last.details), last.cap);
      Run(pass.nodes, before.log + pass.log)
  }

  /** Capacity safety of any sequence of calls that share the node records. */
  lemma {:induction false} PassesCapacitySafe(nodes: seq<NodeState>, calls: seq<Call>)
    ensures Accounted(nodes, Passes(nodes, calls))
  {
    if calls == [] {
    } else {
      var before := Passes(nodes, calls[..|calls| - 1]);
      var last := calls[|calls| - 1];
      PassesCapacitySafe(nodes, calls[..|calls| - 1]);
      CapacitySafe(before.nodes, Asks(last.details), last.cap);
      AccountedCompose(nodes, before, After(before.nodes, Asks(last.details), last.cap));
    }
  }

  // ---------------------------------------------------------------- no waste

  ghost predicate RequestsNonNegative(asks: seq<Ask>) {
    forall a :: a in asks ==> a.job.request.NonNegative()
  }

  lemma AfterLog(nodes: seq<NodeState>, asks: seq<Ask>, cap: nat)
    ensures forall k :: 0 <= k < |asks| ==> After(nodes, asks, cap).log[k].ask == asks[k]
  {
  }

  ghost predicate NoHost(nodes: seq<NodeState>, job: JobDetails) {
    forall i :: 0 <= i < |nodes| ==> !CanHost(nodes[i], job)
  }

  /** A skipped job was refused by the cap, or fits no node even in the final state. */
  ghost predicate SkipJustified(run: Run, k: nat, cap: nat)
    requires k < |run.log|
  {
    run.log[k].node.None? ==> k >= cap || NoHost(run.nodes, run.log[k].ask.job)
  }

  lemma {:induction false} NoWaste(nodes: seq<NodeState>, asks: seq<Ask>, cap: nat, k: nat)
    requires RequestsNonNegative(asks)
    requires k < |asks|
    ensures SkipJustified(After(nodes, asks, cap), k, cap)
  {
    var init, last := asks[..|asks| - 1], asks[|asks| - 1];
    assert last in asks;
    var before := After(nodes, init, cap);
    var at := Decide(before.nodes, last.job, |before.log|, cap);
    assert After(nodes, asks, cap) == Place(before, last, cap);
    if k < |init| {
      NoWaste(nodes, init, cap, k);
      if NoHost(before.nodes, before.log[k].ask.job) {
      }
    }
  }

  /** Nothing changes past the cap. */
  lemma {:induction false} PastTheCap(nodes: seq<NodeState>, asks: seq<Ask>, cap: nat)
    ensures After(nodes, asks, cap).nodes == After(nodes, asks[..Min(cap, |asks|)], cap).nodes
    ensures forall k :: cap <= k < |asks| ==> After(nodes, asks, cap).log[k].node.None?
  {
    if |asks| <= cap {
      assert asks[..|asks|] == asks;
    } else {
      var init := asks[..|asks| - 1];
      PastTheCap(nodes, init, cap);
      assert init[..cap] == asks[..cap];
      assert After(nodes, asks, cap) == Place(After(nodes, init, cap), asks[|asks| - 1], cap);
    }
  }

  /** Every skipped job fits no node in the end. */
  ghost predicate NothingWasted(nodes: seq<NodeState>, asks: seq<Ask>, cap: nat) {
    var run := After(nodes, asks, cap);
    forall k :: 0 <= k < |asks| && run.log[k].node.None? ==> NoHost(run.nodes, asks[k].job)
  }

  function AskedTotal(asks: seq<Ask>): Amount {
    if asks == [] then ZERO else AskedTotal(asks[..|asks| - 1]).Plus(asks[|asks| - 1].job.request)
  }

  lemma {:induction false} PlacedWithinAsked(nodes: seq<NodeState>, asks: seq<Ask>, cap: nat, i: nat)
    requires RequestsNonNegative(asks)
    ensures AskedTotal(asks).Minus(PlacedOn(After(nodes, asks, cap).log, i)).NonNegative()
    ensures AskedTotal(asks).NonNegative()
  {
    if asks != [] {
      var init, last := asks[..|asks| - 1], asks[|asks| - 1];
      assert last in asks;
      PlacedWithinAsked(nodes, init, cap, i);
      PlacedNext(nodes, asks, cap, i);
      hide After, PlacedOn;
    }
  }

  lemma PlacedNext(nodes: seq<NodeState>, asks: seq<Ask>, cap: nat, i: nat)
    requires asks != []
    ensures var before := PlacedOn(After(nodes, asks[..|asks| - 1], cap).log, i);
            var after := PlacedOn(After(nodes, asks, cap).log, i);
            after == before || after == before.Plus(asks[|asks| - 1].job.request)
  {
    var run := After(nodes, asks, cap);
    assert run.log[..|run.log| - 1] == After(nodes, asks[..|asks| - 1], cap).log;
    hide After, FirstHost;
  }

  /** An idle node with room for all the jobs and one more. */
  function Roomy(asks: seq<Ask>, extra: JobDetails): NodeState {
    var all := AskedTotal(asks).Plus(extra.request);
    var total := Amount(10.0 * all.cpu + 10.0, 10.0 * all.gpu, 10.0 * all.memory + 10.0);
    NodeState("roomy", extra.nodeSelector, total, total, ZERO)
  }

  lemma RoomIsLeft(asks: seq<Ask>, extra: JobDetails, cap: nat)
    requires RequestsNonNegative(asks) && extra.request.NonNegative()
    ensures CanHost(After([Roomy(asks, extra)], asks, cap).nodes[0], extra)
  {
    var nodes := [Roomy(asks, extra)];
    CapacitySafe(nodes, asks, cap);
    PlacedWithinAsked(nodes, asks, cap, 0);
    hide After, AskedTotal, PlacedOn;
  }

  /** Nothing is wasted, whatever the nodes, if and only if there are no more jobs than the cap. */
  lemma NoWasteExactly(asks: seq<Ask>, cap: nat)
    requires RequestsNonNegative(asks)
    ensures |asks| <= cap <==> forall nodes :: NothingWasted(nodes, asks, cap)
  {
    if |asks| <= cap {
      forall nodes ensures NothingWasted(nodes, asks, cap) {
        forall k | 0 <= k < |asks| && After(nodes, asks, cap).log[k].node.None?
          ensures NoHost(After(nodes, asks, cap).nodes, asks[k].job)
        {
          NoWaste(nodes, asks, cap, k);
          AfterLog(nodes, asks, cap);
        }
      }
    } else {
      var nodes := [Roomy(asks, asks[cap].job)];
      assert asks[cap] in asks;
      RoomIsLeft(asks, asks[cap].job, cap);
      PastTheCap(nodes, asks, cap);
      hide After, Roomy, CanHost;
      assert !NoHost(After(nodes, asks, cap).nodes, asks[cap].job);
      assert !NothingWasted(nodes, asks, cap);
    }
  }

  lemma {:induction false} NothingFits(n: NodeState, asks: seq<Ask>, cap: nat)
    requires forall k :: 0 <= k < |asks| && k < cap ==> !CanHost(n, asks[k].job)
    ensures After([n], asks, cap).nodes == [n] && CreatedJobs(After([n], asks, cap).log) == []
    ensures forall k :: 0 <= k < |asks| ==> After([n], asks, cap).log[k].node.None?
  {
    if asks != [] {
      var init := asks[..|asks| - 1];
      NothingFits(n, init, cap);
      var run := After([n], asks, cap);
      assert run == Place(After([n], init, cap), asks[|asks| - 1], cap);
      assert run.log[..|run.log| - 1] == After([n], init, cap).log;
    }
  }

  /** Skipped jobs use up the cap: jobs that fit nowhere, as many as the cap allows, keep out a later one that
      fits, and nothing is created. */
  lemma SkippedUseTheCap(n: NodeState, asks: seq<Ask>, cap: nat)
    requires forall k :: 0 <= k < |asks| && k < cap ==> !CanHost(n, asks[k].job)
    requires cap < |asks| && CanHost(n, asks[cap].job)
    ensures var run := After([n], asks, cap);
            && CreatedJobs(run.log) == [] && run.log[cap].node.None? && CanHost(run.nodes[0], asks[cap].job)
            && !NothingWasted([n], asks, cap)
  {
    NothingFits(n, asks, cap);
    hide After, CanHost;
    assert !NoHost([n], asks[cap].job) by { assert [n][0] == n; }
  }

  /** Once a job is skipped, every later job of the same kind is skipped: for each entry the created
      copies are a prefix. */
  lemma {:induction false} CreatedPrefix(nodes: seq<NodeState>, asks: seq<Ask>, cap: nat, k: nat, l: nat)
    requires RequestsNonNegative(asks)
    requires k < l < |asks| && asks[k].job == asks[l].job
    ensures After(nodes, asks, cap).log[k].node.None? ==> After(nodes, asks, cap).log[l].node.None?
  {
    var init, last := asks[..|asks| - 1], asks[|asks| - 1];
    var before := After(nodes, init, cap);
    assert After(nodes, asks, cap) == Place(before, last, cap);
    if l < |init| {
      CreatedPrefix(nodes, init, cap, k, l);
    } else {
      NoWaste(nodes, init, cap, k);
      AfterLog(nodes, init, cap);
    }
  }

  // ---------------------------------------------------------------- conservation

  lemma {:induction false} CreatedPlusSkipped(log: seq<Decision>)
    ensures multiset(CreatedJobs(log)) + multiset(SkippedJobs(log)) == multiset(JobsOf(log))
  {
    if log != [] {
      CreatedPlusSkipped(log[..|log| - 1]);
    }
  }

  function JobsOf(log: seq<Decision>): seq<JobDetails> {
    if log == [] then [] else JobsOf(log[..|log| - 1]) + [log[|log| - 1].ask.job]
  }

  /** At most cap jobs are created. */
  lemma {:induction false} CapHolds(nodes: seq<NodeState>, asks: seq<Ask>, cap: nat)
    ensures |CreatedJobs(After(nodes, asks, cap).log)| <= Min(cap, |asks|)
  {
    if asks != [] {
      var init := asks[..|asks| - 1];
      CapHolds(nodes, init, cap);
      AfterLog(nodes, init, cap);
      var run := After(nodes, asks, cap);
      assert run.log[..|run.log| - 1] == After(nodes, init, cap).log;
    }
  }

  // ---------------------------------------------------------------- matchJobsToResources

  /** A node record of availableResources.nodeList. The worker pass and the driver pass of one tick
      hold the same records and write to the same field free. */
  class NodeRecord {
    const name: string
    const labels: Option<Labels>
    const total: Amount
    var free: Amount
    var requests: Amount

    constructor (name: string, labels: Option<Labels>, total: Amount, free: Amount, requests: Amount)
      ensures State() == NodeState(name, labels, total, free, requests)
    {
      this.name, this.labels, this.total, this.free, this.requests := name, labels, total, free, requests;
    }

    function State(): NodeState
      reads this
    {
      NodeState(name, labels, total, free, requests)
    }
  }

  function States(nodes: seq<NodeRecord>): (r: seq<NodeState>)
    reads nodes
    ensures |r| == |nodes|
    ensures forall i :: 0 <= i < |nodes| ==> r[i] == nodes[i].State()
  {
    if nodes == [] then [] else States(nodes[..|nodes| - 1]) + [nodes[|nodes| - 1].State()]
  }

  /** shouldAddJob */
  method ShouldAddJob(job: JobDetails, nodes: seq<NodeRecord>, totalAdded: nat, cap: nat) returns (shouldAdd: bool)
    requires Distinct(nodes)
    modifies nodes
    ensures var at := Decide(old(States(nodes)), job, totalAdded, cap);
            shouldAdd == at.Some? && States(nodes) == Deduct(old(States(nodes)), at, job.request)
  {
    if totalAdded >= cap {
      return false;
    }
    var i := 0;
    while i < |nodes| && !CanHost(nodes[i].State(), job)
      invariant i <= |nodes|
      invariant forall k :: 0 <= k < i ==> !CanHost(nodes[k].State(), job)
    {
      i := i + 1;
    }
    if i == |nodes| {
      return false;
    }
    nodes[i].free := nodes[i].free.Minus(job.request);
    shouldAdd := true;
  }

  function Stamp(jobs: seq<JobDetails>, now: int): (r: seq<CreatedJob>)
    ensures |r| == |jobs| && forall i :: 0 <= i < |r| ==> r[i] == CreatedJob(jobs[i], now)
  {
    seq(|jobs|, i requires 0 <= i < |jobs| => CreatedJob(jobs[i], now))
  }

  /** What the loop holds once the jobs in done were looked at. */
  ghost predicate Reflects(nodes: seq<NodeState>, created: seq<CreatedJob>, skipped: seq<JobDetails>,
                           start: seq<NodeState>, done: seq<Ask>, cap: nat, now: int)
  {
    var run := After(start, done, cap);
    nodes == run.nodes && created == Stamp(CreatedJobs(run.log), now) && skipped == SkippedJobs(run.log)
  }

  lemma RoundStep(details: seq<CreateDetail>, i: nat, done0: seq<Ask>, done: seq<Ask>)
    requires i < |details|
    requires done + RoundFrom(details, i) == done0 + RoundFrom(details, 0)
    ensures (if details[i].numberOfNewJobs > 0 then done + [Ask(i, details[i].job)] else done)
              + RoundFrom(details, i + 1) == done0 + RoundFrom(details, 0)
  {
    var ask := if details[i].numberOfNewJobs > 0 then [Ask(i, details[i].job)] else [];
    assert done + (ask + RoundFrom(details, i + 1)) == done + ask + RoundFrom(details, i + 1);
    assert done + [] == done;
  }

  /** The part of the callback cb that tries one job. */
  method AddOrSkip(job: JobDetails, nodes: seq<NodeRecord>, cap: nat, now: int,
                   created0: seq<CreatedJob>, skipped0: seq<JobDetails>, totalAdded: nat,
                   ghost start: seq<NodeState>, ghost done: seq<Ask>, ghost entry: nat)
    returns (created: seq<CreatedJob>, skipped: seq<JobDetails>)
    requires Distinct(nodes)
    requires totalAdded == |done|
    requires Reflects(States(nodes), created0, skipped0, start, done, cap, now)
    modifies nodes
    ensures Reflects(States(nodes), created, skipped, start, done + [Ask(entry, job)], cap, now)
  {
    created, skipped := created0, skipped0;
    var shouldAdd := ShouldAddJob(job, nodes, totalAdded, cap);
    if shouldAdd {
      created := created + [CreatedJob(job, now)];
    } else {
      skipped := skipped + [job];
    }
  }

  lemma RoundEnd(details: seq<CreateDetail>)
    ensures RoundFrom(details, |details|) == []
  {
  }

  /** One pass of the callback cb over all kinds of jobs. */
  method Sweep(details: seq<CreateDetail>, nodes: seq<NodeRecord>, cap: nat, now: int,
               created0: seq<CreatedJob>, skipped0: seq<JobDetails>, totalAdded0: nat,
               ghost start: seq<NodeState>, ghost done0: seq<Ask>)
    returns (created: seq<CreatedJob>, skipped: seq<JobDetails>, localDetails: seq<CreateDetail>,
             totalAdded: nat, ghost done: seq<Ask>)
    requires Distinct(nodes)
    requires totalAdded0 == |done0|
    requires Reflects(States(nodes), created0, skipped0, start, done0, cap, now)
    modifies nodes
    ensures localDetails == NextRound(details)
    ensures done == done0 + RoundFrom(details, 0) && totalAdded == |done|
    ensures Reflects(States(nodes), created, skipped, start, done, cap, now)
  {
    hide Reflects, RoundFrom, NextRound, States;
    created, skipped, localDetails, totalAdded, done := created0, skipped0, [], totalAdded0, done0;
    RoundEnd(details);
    for i := 0 to |details|
      invariant localDetails == NextRound(details)[..i]
      invariant done + RoundFrom(details, i) == done0 + RoundFrom(details, 0)
      invariant totalAdded == |done|
      invariant Reflects(States(nodes), created, skipped, start, done, cap, now)
    {
      var j := details[i];
      RoundStep(details, i, done0, done);
      if j.numberOfNewJobs > 0 {
        created, skipped := AddOrSkip(j.job, nodes, cap, now, created, skipped, totalAdded, start, done, i);
        localDetails := localDetails + [j.(numberOfNewJobs := j.numberOfNewJobs - 1)];
        totalAdded := totalAdded + 1;
        done := done + [Ask(i, j.job)];
      } else {
        localDetails := localDetails + [j];
      }
    }
  }

  lemma RoundsStep(round: seq<CreateDetail>, before: seq<Ask>)
    ensures before + RoundFrom(round, 0) + Asks(NextRound(round)) == before + Asks(round)
    ensures RoundFrom(round, 0) == [] ==> Asks(NextRound(round)) == [] && NextRound(round) == round
    ensures RoundFrom(round, 0) != [] ==> Remaining(NextRound(round)) < Remaining(round)
  {
    RoundFromMembers(round, 0);
    RemainingDrops(round);
    if RoundFrom(round, 0) != [] {
      assert RoundFrom(round, 0)[0] in RoundFrom(round, 0);
    }
    hide RoundFrom, NextRound, Remaining;
    if RoundFrom(round, 0) == [] {
      assert NextRound(round) == round;
    } else {
      Assoc(before, RoundFrom(round, 0), Asks(NextRound(round)));
    }
  }

  /** matchJobsToResources: the do-while loop over all kinds of jobs. */
  method MatchJobsToResources(createDetails: seq<CreateDetail>, nodes: seq<NodeRecord>, cap: nat, now: int)
    returns (created: seq<CreatedJob>, skipped: seq<JobDetails>)
    requires Distinct(nodes)
    modifies nodes
    ensures Reflects(States(nodes), created, skipped, old(States(nodes)), Asks(createDetails), cap, now)
  {
    hide RoundFrom;
    created, skipped := [], [];
    var localDetails := createDetails;
    var addedThisTime, totalAdded := 1, 0;
    ghost var start := States(nodes);
    ghost var done: seq<Ask> := [];
    while addedThisTime > 0
      invariant totalAdded == |done|
      invariant addedThisTime >= 0
      invariant done + Asks(localDetails) == Asks(createDetails)
      invariant addedThisTime == 0 ==> Asks(localDetails) == []
      invariant Reflects(States(nodes), created, skipped, start, done, cap, now)
      decreases Remaining(localDetails), addedThisTime
    {
      ghost var round, before := localDetails, done;
      var totalBefore := totalAdded;
      created, skipped, localDetails, totalAdded, done :=
        Sweep(localDetails, nodes, cap, now, created, skipped, totalAdded, start, done);
      addedThisTime := totalAdded - totalBefore;
      RoundsStep(round, before);
    }
    assert done == Asks(createDetails);
  }
}
