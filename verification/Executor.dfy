/** The two passes of one interval over the same node records (task-executor, lib/executor.js and
    lib/reconcile/drivers-reconciler.js). */
module Executor {
  import opened Collections
  import opened Resources
  import opened Demand
  import opened HotWorkers
  import opened Reconciler

  /** normalizeDriversAmount: how many drivers are missing; negative when there are too many, and fractional
      when the maximum, a percentage above the minimum, is. */
  function MissingDrivers(jobs: nat, requested: nat, minAmount: int, maxAmount: real): real {
    (if requested > minAmount then maxAmount else minAmount as real) - jobs as real
  }

  /** How often a loop that takes 1 off as long as something is left goes round. */
  function Turns(pods: real): nat
    decreases if pods > 0.0 then Ceiling(pods) else 0
  {
    if pods > 0.0 then 1 + Turns(pods - 1.0) else 0
  }

  function Ceiling(x: real): int { -(-x).Floor }

  /** Jobs are asked for one by one while the number left is positive, so a fraction asks for one more. */
  lemma {:induction false} TurnsExact(pods: real)
    ensures Turns(pods) == Max(0, Ceiling(pods))
    decreases if pods > 0.0 then Ceiling(pods) else 0
  {
    if pods > 0.0 {
      TurnsExact(pods - 1.0);
    }
  }

  function DriverDetails(pods: real, driver: JobDetails): seq<CreateDetail> {
    if pods > 0.0 then [CreateDetail(Turns(pods), driver)] else []
  }

  datatype Driver = Driver(id: string, driverStatus: string, paused: bool)

  function IdleDrivers(drivers: seq<Driver>): seq<Driver> {
    Filter(drivers, (d: Driver) => d.driverStatus == "ready" && !d.paused)
  }

  /** The drivers to stop are the first idle ones; minAmount of them stay, or all when there are fewer. */
  function Surplus(drivers: seq<Driver>, minAmount: int): (r: seq<Driver>)
    ensures r <= IdleDrivers(drivers)
    ensures |IdleDrivers(drivers)| - |r| == Min(|IdleDrivers(drivers)|, Max(0, minAmount))
  {
    var idle := IdleDrivers(drivers);
    if |idle| > minAmount then idle[..Min(|idle| - minAmount, |idle|)] else []
  }

  /** The first ready drivers that are not paused, as many as there are beyond minAmount, are stopped. */
  lemma SurplusExactly(drivers: seq<Driver>, minAmount: int)
    ensures var idle := Filter(drivers, (d: Driver) => d.driverStatus == "ready" && !d.paused);
            Surplus(drivers, minAmount) == idle[..Max(0, Min(|idle| - minAmount, |idle|))]
  {
  }

  /** The drivers asked for are the least number that brings the jobs to what is wanted: the maximum when more are
      requested than the minimum, and the minimum otherwise. */
  ghost predicate BringsTo(n: nat, jobs: nat, requested: nat, minAmount: int, maxAmount: real) {
    var wanted := if requested > minAmount then maxAmount else minAmount as real;
    (jobs + n) as real >= wanted && (n > 0 ==> (jobs + n - 1) as real < wanted)
  }

  lemma MissingExactly(jobs: nat, requested: nat, minAmount: int, maxAmount: real, n: nat)
    ensures BringsTo(n, jobs, requested, minAmount, maxAmount) <==>
              n == Max(0, Ceiling(MissingDrivers(jobs, requested, minAmount, maxAmount)))
  {
  }

  /** reconcileDrivers, up to the commands it sends */
  method ReconcileDrivers(driver: JobDetails, drivers: seq<Driver>, jobs: nat, requested: nat, minAmount: int,
                          maxAmount: real, nodes: seq<NodeRecord>, cap: nat, now: int)
    returns (created: seq<CreatedJob>, skipped: seq<JobDetails>, stopped: seq<Driver>)
    requires Distinct(nodes)
    modifies nodes
    ensures stopped == Surplus(drivers, minAmount)
    ensures Reflects(States(nodes), created, skipped, old(States(nodes)),
                     Asks(DriverDetails(MissingDrivers(jobs, requested, minAmount, maxAmount), driver)), cap, now)
  {
    var idleDrivers, createDetails := IdleDrivers(drivers), [];
    var extra := |idleDrivers| - minAmount;
    stopped := if extra > 0 then idleDrivers[..Min(extra, |idleDrivers|)] else [];
    var pods := MissingDrivers(jobs, requested, minAmount, maxAmount);
    if pods > 0.0 {
      createDetails := [CreateDetail(Turns(pods), driver)];
    }
    created, skipped := MatchJobsToResources(createDetails, nodes, cap, now);
  }

  /** One interval: the algorithm pass and the driver pass on the same records, in the order they reach
      matchJobsToResources. Together they respect the capacity of every node. */
  method Interval(reconciler: Reconciler, s: Snapshot, driver: JobDetails, drivers: seq<Driver>, jobs: nat,
                  requested: nat, minAmount: int, maxAmount: real, nodes: seq<NodeRecord>, now: int, ttl: int, cap: nat)
    returns (out: Outcome, created: seq<CreatedJob>, skipped: seq<JobDetails>, stopped: seq<Driver>)
    requires ValidStore(s.templates) && Distinct(nodes)
    modifies reconciler, nodes
    ensures exists log ::
              && Accounted(old(States(nodes)), Run(States(nodes), log))
              && Stamp(CreatedJobs(log), now) == out.created + created
    ensures BringsTo(|created| + |skipped|, jobs, requested, minAmount, maxAmount)
    ensures var idle := Filter(drivers, (d: Driver) => d.driverStatus == "ready" && !d.paused);
            stopped == idle[..Max(0, Min(|idle| - minAmount, |idle|))]
  {
    SurplusExactly(drivers, minAmount);
    hide Surplus, Filter, BringsTo, MissingDrivers;
    hide TickOf, After, Asks, Accounted, States, ReportAddsUp, WarmUp, CoolDown, CreatedJobs, SkippedJobs;
    ghost var start := States(nodes);
    ghost var first := TickOf(s, start, reconciler.createdJobsList, now, ttl, cap).run;
    TickAccounted(s, start, reconciler.createdJobsList, now, ttl, cap);
    out := reconciler.Reconcile(s, nodes, now, ttl, cap);
    ghost var between := States(nodes);
    ghost var asks := Asks(DriverDetails(MissingDrivers(jobs, requested, minAmount, maxAmount), driver));
    ghost var second := After(between, asks, cap);
    created, skipped, stopped :=
      ReconcileDrivers(driver, drivers, jobs, requested, minAmount, maxAmount, nodes, cap, now);
    CapacitySafe(between, asks, cap);
    AccountedCompose(start, first, second);
    CreatedConcat(first.log, second.log, now);
    assert Accounted(start, Run(States(nodes), first.log + second.log));
    DriversAskedFor(MissingDrivers(jobs, requested, minAmount, maxAmount), driver, between, cap);
    MissingExactly(jobs, requested, minAmount, maxAmount, |created| + |skipped|);
  }

  /** Every missing driver is created or skipped. */
  lemma DriversAskedFor(pods: real, driver: JobDetails, nodes: seq<NodeState>, cap: nat)
    ensures var log := After(nodes, Asks(DriverDetails(pods, driver)), cap).log;
            |CreatedJobs(log)| + |SkippedJobs(log)| == Max(0, Ceiling(pods))
  {
    TurnsExact(pods);
    var details := DriverDetails(pods, driver);
    var asks := Asks(details);
    var log := After(nodes, asks, cap).log;
    if details == [] {
      NothingAsked(nodes, cap);
    } else {
      AsksExact(details, 0);
      AsksMembers(details);
      OneEntry(asks);
    }
    hide After, Asks, CreatedJobs, SkippedJobs, Turns;
    CreatedOrSkipped(log);
  }

  lemma OneEntry(asks: seq<Ask>)
    requires forall a :: a in asks ==> a.entry == 0
    ensures CountEntry(asks, 0) == |asks|
  {
  }

  lemma CreatedOrSkipped(log: seq<Decision>)
    ensures |CreatedJobs(log)| + |SkippedJobs(log)| == |log|
  {
  }

  /** The placement of one tick respects capacity, also when the matching throws. */
  lemma TickAccounted(s: Snapshot, nodes: seq<NodeState>, list: seq<CreatedJob>, now: int, ttl: int, cap: nat)
    ensures Accounted(nodes, TickOf(s, nodes, list, now, ttl, cap).run)
  {
    hide MatchingOf, After, Asks, Accounted, ClearCreatedJobs;
    CapacitySafe(nodes, [], cap);
    assert After(nodes, [], cap) == Run(nodes, []) by { NothingAsked(nodes, cap); }
    CapacitySafe(nodes, Asks(MatchingOf(s, ClearCreatedJobs(list, now, ttl)).asked), cap);
  }

  lemma NothingAsked(nodes: seq<NodeState>, cap: nat)
    ensures After(nodes, [], cap) == Run(nodes, [])
  {
  }

  lemma CreatedConcat(a: seq<Decision>, b: seq<Decision>, now: int)
    ensures Stamp(CreatedJobs(a + b), now) == Stamp(CreatedJobs(a), now) + Stamp(CreatedJobs(b), now)
    decreases |b|
  {
    if b == [] {
      assert a + b == a;
    } else {
      assert (a + b)[..|a + b| - 1] == a + b[..|b| - 1];
      CreatedConcat(a, b[..|b| - 1], now);
    }
  }
}
