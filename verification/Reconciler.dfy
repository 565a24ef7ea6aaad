/** One tick of the task executor and runs of ticks (task-executor, lib/reconcile/reconciler.js). */
module Reconciler {
  import opened Collections
  import opened Resources
  import opened Stopping
  import opened Demand
  import opened Matching
  import opened HotWorkers

  // ---------------------------------------------------------------- workers and their jobs

  predicate StartsWith(s: string, prefix: string) { prefix <= s }

  /** The first job whose name starts the pod name of the worker. */
  function JobOf(w: Worker, jobs: seq<ClusterJob>): Option<ClusterJob> {
    if w.podName.None? || w.podName.value == "" then None
    else
      var at := Find(jobs, (j: ClusterJob) => StartsWith(w.podName.value, j.name));
      if at.None? then None else Some(jobs[at.value])
  }

  /** mergedWorkers of mergeWorkers */
  function Merged(workers: seq<Worker>, jobs: seq<ClusterJob>): (r: seq<Worker>)
    ensures |r| == |workers|
    ensures forall i :: 0 <= i < |r| ==> r[i] == workers[i].(job := JobOf(workers[i], jobs))
  {
    if workers == [] then [] else [workers[0].(job := JobOf(workers[0], jobs))] + Merged(workers[1..], jobs)
  }

  /** extraJobs of mergeWorkers: the jobs no worker was found for; a job with an empty name is always
      one of them, because the name that find returns is falsy. */
  function ExtraJobs(workers: seq<Worker>, jobs: seq<ClusterJob>): (r: seq<ClusterJob>)
    ensures forall j :: j in r <==> j in jobs && !JobFound(workers, jobs, j)
  {
    Filter(jobs, (j: ClusterJob) => !JobFound(workers, jobs, j))
  }

  predicate JobFound(workers: seq<Worker>, jobs: seq<ClusterJob>, j: ClusterJob) {
    j.name != "" && exists w :: w in workers && JobOf(w, jobs).Some? && JobOf(w, jobs).value.name == j.name
  }

  predicate IdleFilter(w: Worker) { w.workerStatus == "ready" && !w.workerPaused }
  predicate ActiveFilter(w: Worker) { w.workerStatus != "ready" && !w.workerPaused }
  predicate PausedFilter(w: Worker) { w.workerStatus == "ready" && w.workerPaused }

  // ---------------------------------------------------------------- candidates to stop

  predicate Debug(templates: seq<Template>, a: string) {
    var t := Lookup(templates, a);
    t.Some? && t.value.debug
  }

  function Detail(w: Worker, templates: seq<Template>): StopDetail {
    StopDetail(w.id, w.algorithmName, ContainerResource(Lookup(templates, w.algorithmName)),
               if w.job.Some? then w.job.value.nodeName else None, w.podName)
  }

  function Details(workers: seq<Worker>, templates: seq<Template>): (r: seq<StopDetail>)
    ensures forall d :: d in r <==> exists w :: w in workers && d == Detail(w, templates)
  {
    if workers == [] then []
    else
      assert workers == workers[..|workers| - 1] + [workers[|workers| - 1]];
      Details(workers[..|workers| - 1], templates) + [Detail(workers[|workers| - 1], templates)]
  }

  function NotDebug(workers: seq<Worker>, templates: seq<Template>): (r: seq<Worker>)
    ensures forall w :: w in r <==> w in workers && !Debug(templates, w.algorithmName)
  {
    Filter(workers, (w: Worker) => !Debug(templates, w.algorithmName))
  }

  /** No job of the algorithm was skipped and it is not under debug. */
  predicate MayStop(a: string, skipped: seq<JobDetails>, templates: seq<Template>) {
    !Debug(templates, a) && forall j :: j in skipped ==> j.algorithmName != a
  }

  /** The active workers of the given algorithms, algorithm by algorithm, of those with no skipped job
      that are not under debug. */
  function UnusedActive(active: seq<Worker>, names: seq<string>, skipped: seq<JobDetails>,
                        templates: seq<Template>): (r: seq<Worker>)
    ensures forall w :: w in r <==>
              (w in active && w.algorithmName in names && MayStop(w.algorithmName, skipped, templates))
  {
    if names == [] then []
    else
      var a := names[|names| - 1];
      assert names == names[..|names| - 1] + [a];
      UnusedActive(active, names[..|names| - 1], skipped, templates) +
      if MayStop(a, skipped, templates) then GroupOf(active, a) else []
  }

  /** _findWorkersToStop of reconciler.js: nothing when nothing was skipped. */
  function StopCandidates(skipped: seq<JobDetails>, idle: seq<Worker>, active: seq<Worker>,
                          templates: seq<Template>): seq<StopDetail> {
    if skipped == [] then []
    else Details(NotDebug(idle, templates), templates) +
         Details(UnusedActive(active, Algorithms(active), skipped, templates), templates)
  }

  // ---------------------------------------------------------------- one tick

  /** What one tick sees besides the nodes. */
  datatype Snapshot = Snapshot(
    templates: seq<Template>, requests: seq<Request>, workers: seq<Worker>, jobs: seq<ClusterJob>)

  /** createdJobsList without the jobs that are older than the time to live. */
  function ClearCreatedJobs(list: seq<CreatedJob>, now: int, ttl: int): (r: seq<CreatedJob>)
    ensures forall j :: j in r <==> j in list && now - j.createdTime < ttl
  {
    Filter(list, (j: CreatedJob) => now - j.createdTime < ttl)
  }

  function SupplyFor(s: Snapshot, recent: seq<CreatedJob>): Supply {
    var merged := Merged(s.workers, s.jobs);
    Supply(Filter(merged, IdleFilter), Filter(merged, PausedFilter), ExtraJobs(s.workers, s.jobs), recent)
  }

  function ActiveWorkers(s: Snapshot): seq<Worker> { Filter(Merged(s.workers, s.jobs), ActiveFilter) }

  /** The matching, the placement, the workers to stop and the created-jobs list that is kept. */
  datatype Tick = Tick(matching: State, run: Run, stop: seq<StopDetail>, list: seq<CreatedJob>)

  function MatchingOf(s: Snapshot, recent: seq<CreatedJob>): State {
    Process(SupplyFor(s, recent), TotalRequests(s.requests, s.templates), s.templates)
  }

  /** When the matching throws, nothing is placed or stopped; start commands were sent already. */
  function TickOf(s: Snapshot, nodes: seq<NodeState>, list: seq<CreatedJob>, now: int, ttl: int, cap: nat): Tick {
    var recent := ClearCreatedJobs(list, now, ttl);
    var m := MatchingOf(s, recent);
    if m.failed.Some? then Tick(m, Run(nodes, []), [], recent)
    else
      var run := After(nodes, Asks(m.asked), cap);
      var skipped := SkippedJobs(run.log);
      var candidates := StopCandidates(skipped, m.supply.idle, ActiveWorkers(s), s.templates);
      Tick(m, run, ServeAll(Pause(run.nodes, candidates, []), skipped).toStop,
           recent + Stamp(CreatedJobs(run.log), now))
  }

  // ---------------------------------------------------------------- demand and its outcome

  /** What an algorithm lacks: its demand beyond idle, paused and pending supply and created jobs. */
  function Deficit(s: Snapshot, recent: seq<CreatedJob>, a: string): nat {
    Max(0, Max(Count(s.requests, RequestName, a), MinHot(s.templates, a)) - SupplyOf(SupplyFor(s, recent), a))
  }

  /** Exact demand of a tick: each algorithm asks for exactly what it lacks, and wakes the paused
      workers its demand reaches once the idle ones are used. */
  lemma ExactTick(s: Snapshot, recent: seq<CreatedJob>, a: string)
    requires ValidStore(s.templates)
    ensures var m, supply := MatchingOf(s, recent), SupplyFor(s, recent);
            var demand := Max(Count(s.requests, RequestName, a), MinHot(s.templates, a));
            m.failed.None? ==>
              && Count(m.asked, DetailName, a) == Deficit(s, recent, a)
              && Count(m.woken, WorkerName, a) ==
                   Clamp(demand - Count(supply.idle, WorkerName, a), Count(supply.paused, WorkerName, a))
              && Count(m.served, WorkerName, a) == Clamp(demand, Count(supply.idle, WorkerName, a))
              && (Count(m.asked, DetailName, a) > 0 ==> Count(m.supply.idle, WorkerName, a) == 0)
  {
    hide Process, TotalRequests, Count, SupplyFor, MinHot, ValidStore;
    TotalRequestsExact(s.requests, s.templates, a);
    if MatchingOf(s, recent).failed.None? {
      ExactDemand(SupplyFor(s, recent), TotalRequests(s.requests, s.templates), s.templates, a);
    }
    hide Matched;
  }

  function DetailsJobName(j: JobDetails): string { j.algorithmName }

  lemma {:induction false} LogCounts(log: seq<Decision>, a: string)
    ensures Count(CreatedJobs(log), DetailsJobName, a) + Count(SkippedJobs(log), DetailsJobName, a) ==
              Count(JobsOf(log), DetailsJobName, a)
  {
    if log != [] {
      var init, last := log[..|log| - 1], log[|log| - 1];
      LogCounts(init, a);
      CountAppend(JobsOf(init), last.ask.job, DetailsJobName, a);
      CountAppend(CreatedJobs(init), last.ask.job, DetailsJobName, a);
      CountAppend(SkippedJobs(init), last.ask.job, DetailsJobName, a);
      assert CreatedJobs(init) + [] == CreatedJobs(init) && SkippedJobs(init) + [] == SkippedJobs(init);
    }
  }

  lemma {:induction false} LogJobs(nodes: seq<NodeState>, asks: seq<Ask>, cap: nat, a: string)
    ensures Count(JobsOf(After(nodes, asks, cap).log), DetailsJobName, a) == Count(asks, AskName, a)
  {
    if asks != [] {
      var init, last := asks[..|asks| - 1], asks[|asks| - 1];
      LogJobs(nodes, init, cap, a);
      var before, run := After(nodes, init, cap), After(nodes, asks, cap);
      assert run.log == before.log + [run.log[|run.log| - 1]];
      assert run.log[..|run.log| - 1] == before.log;
      CountAppend(JobsOf(before.log), last.job, DetailsJobName, a);
      CountAppend(init, last, AskName, a);
      assert asks == init + [last];
    }
  }

  function AskName(k: Ask): string { k.job.algorithmName }

  lemma {:induction false} RoundCounts(details: seq<CreateDetail>, i: nat, a: string)
    requires i <= |details|
    requires forall d :: d in details ==> d.numberOfNewJobs == 1
    ensures Count(RoundFrom(details, i), AskName, a) == Count(details[i..], DetailName, a)
    decreases |details| - i
  {
    if i < |details| {
      RoundCounts(details, i + 1, a);
      assert details[i..][1..] == details[i + 1..];
      assert ([Ask(i, details[i].job)] + RoundFrom(details, i + 1))[1..] == RoundFrom(details, i + 1);
    }
  }

  /** Details that ask for one job each are looked at once each. */
  lemma SingleRound(details: seq<CreateDetail>, a: string)
    requires forall d :: d in details ==> d.numberOfNewJobs == 1
    ensures Count(Asks(details), AskName, a) == Count(details, DetailName, a)
  {
    RoundCounts(details, 0, a);
    assert details[0..] == details;
    if RoundFrom(details, 0) != [] {
      var next := NextRound(details);
      forall i | 0 <= i < |next| ensures next[i].numberOfNewJobs == 0 { assert details[i] in details; }
      NoRound(next, 0);
      assert Asks(details) == RoundFrom(details, 0) + [];
      assert RoundFrom(details, 0) + [] == RoundFrom(details, 0);
    }
  }

  /** required = created + skipped, for every algorithm. */
  lemma RequiredIsCreatedPlusSkipped(s: Snapshot, nodes: seq<NodeState>, list: seq<CreatedJob>, now: int, ttl: int,
                                     cap: nat, a: string)
    ensures var t := TickOf(s, nodes, list, now, ttl, cap);
            t.matching.failed.None? ==>
              Count(t.matching.asked, DetailName, a) ==
              Count(CreatedJobs(t.run.log), DetailsJobName, a) + Count(SkippedJobs(t.run.log), DetailsJobName, a)
  {
    hide ServeAll, StopCandidates;
    var t := TickOf(s, nodes, list, now, ttl, cap);
    if t.matching.failed.None? {
      AskedFromTemplates(SupplyFor(s, ClearCreatedJobs(list, now, ttl)), TotalRequests(s.requests, s.templates),
                         s.templates);
      hide Process, SupplyFor, TotalRequests;
      SingleRound(t.matching.asked, a);
      LogCounts(t.run.log, a);
      LogJobs(nodes, Asks(t.matching.asked), cap, a);
    }
  }

  // ---------------------------------------------------------------- stop safety

  /** A stopped worker is an idle or active one that is not under debug, no job of its algorithm was
      skipped, and it neither served a request nor was woken in this tick. */
  ghost predicate StopJustified(s: Snapshot, t: Tick, d: StopDetail) {
    && (exists w :: w in Merged(s.workers, s.jobs) && d == Detail(w, s.templates) && (IdleFilter(w) || ActiveFilter(w)))
    && MayStop(d.algorithmName, SkippedJobs(t.run.log), s.templates)
    && (forall w :: w in t.matching.served || w in t.matching.woken ==> w.id != d.id)
  }

  /** Idle workers that are left belong to an algorithm of which no job was asked for. */
  lemma IdleLeftNotSkipped(s: Snapshot, nodes: seq<NodeState>, recent: seq<CreatedJob>, cap: nat, w: Worker)
    requires ValidStore(s.templates)
    requires MatchingOf(s, recent).failed.None? && w in MatchingOf(s, recent).supply.idle
    ensures forall j :: j in SkippedJobs(After(nodes, Asks(MatchingOf(s, recent).asked), cap).log) ==>
              j.algorithmName != w.algorithmName
  {
    var m, a := MatchingOf(s, recent), w.algorithmName;
    var log := After(nodes, Asks(m.asked), cap).log;
    ExactTick(s, recent, a);
    AskedFromTemplates(SupplyFor(s, recent), TotalRequests(s.requests, s.templates), s.templates);
    hide MatchingOf, SupplyFor, Process, TotalRequests, After, Asks, SkippedJobs, CreatedJobs, JobsOf;
    assert WorkerName(w) == a;
    CountPositive(m.supply.idle, WorkerName, a);
    CountPositive(SkippedJobs(log), DetailsJobName, a);
    LogCounts(log, a);
    LogJobs(nodes, Asks(m.asked), cap, a);
    SingleRound(m.asked, a);
    hide After, Count, Asks, SkippedJobs;
    forall j | j in SkippedJobs(log) ensures j.algorithmName != a {
      assert DetailsJobName(j) == j.algorithmName;
    }
  }

  /** Where the workers of a matching come from; idle workers that are left served nothing. */
  lemma PoolMembers(s: Snapshot, recent: seq<CreatedJob>)
    requires DistinctBy(s.workers, WorkerId)
    ensures var m, merged := MatchingOf(s, recent), Merged(s.workers, s.jobs);
            && (forall w :: w in m.supply.idle || w in m.served ==> w in merged && IdleFilter(w))
            && (forall w :: w in m.woken ==> w in merged && PausedFilter(w))
            && (forall w :: w in m.supply.idle ==> w !in m.served)
  {
    var m, supply, merged := MatchingOf(s, recent), SupplyFor(s, recent), Merged(s.workers, s.jobs);
    SupplyConserved(supply, TotalRequests(s.requests, s.templates), s.templates);
    hide Merged, Process, TotalRequests, ExtraJobs;
    SubsetIdsDistinct(supply.idle, merged);
    DistinctMultiset(supply.idle);
    hide DistinctBy, MatchingOf;
    PartMembers(supply.idle, m.supply.idle, m.served);
    PartMembers(supply.paused, m.supply.paused, m.woken);
  }

  lemma PartMembers(all: seq<Worker>, left: seq<Worker>, used: seq<Worker>)
    requires multiset(all) == multiset(left) + multiset(used)
    ensures forall w :: w in left || w in used ==> w in all
    ensures (forall w :: multiset(all)[w] <= 1) ==> forall w :: w in left ==> w !in used
  {
    forall w
      ensures w in left || w in used ==> w in all
      ensures w in left && w in used ==> multiset(all)[w] > 1
    {
      assert w in all <==> w in multiset(all);
      assert w in left <==> w in multiset(left);
      assert w in used <==> w in multiset(used);
      assert multiset(all)[w] == multiset(left)[w] + multiset(used)[w];
    }
  }

  /** With distinct worker ids, a worker that is idle still or active has served no request and was not woken. */
  lemma UnusedWorker(s: Snapshot, recent: seq<CreatedJob>, v: Worker, w: Worker)
    requires DistinctBy(s.workers, WorkerId)
    ensures var m := MatchingOf(s, recent);
            (v in m.supply.idle || v in ActiveWorkers(s)) && (w in m.served || w in m.woken) ==> v.id != w.id
  {
    PoolMembers(s, recent);
    hide MatchingOf, Merged;
    if v in Merged(s.workers, s.jobs) && w in Merged(s.workers, s.jobs) {
      SameId(Merged(s.workers, s.jobs), v, w);
    }
  }

  /** The worker a candidate was made from. */
  lemma CandidateSource(skipped: seq<JobDetails>, idle: seq<Worker>, active: seq<Worker>, templates: seq<Template>,
                        d: StopDetail)
    returns (w: Worker)
    requires d in StopCandidates(skipped, idle, active, templates)
    ensures d == Detail(w, templates) && !Debug(templates, w.algorithmName)
    ensures w in idle || (w in active && MayStop(w.algorithmName, skipped, templates))
  {
    hide Details, Detail, NotDebug, UnusedActive, Algorithms, Debug, MayStop;
    var unused := UnusedActive(active, Algorithms(active), skipped, templates);
    if d in Details(NotDebug(idle, templates), templates) {
      w :| w in NotDebug(idle, templates) && d == Detail(w, templates);
    } else {
      assert d in Details(unused, templates);
      w :| w in unused && d == Detail(w, templates);
      UnusedNotDebug(w.algorithmName, skipped, templates);
    }
  }

  lemma UnusedNotDebug(a: string, skipped: seq<JobDetails>, templates: seq<Template>)
    requires MayStop(a, skipped, templates)
    ensures !Debug(templates, a)
  {
  }

  lemma CandidateJustified(s: Snapshot, nodes: seq<NodeState>, recent: seq<CreatedJob>, cap: nat, t: Tick,
                           d: StopDetail)
    requires ValidStore(s.templates) && DistinctBy(s.workers, WorkerId)
    ensures (&& t.matching == MatchingOf(s, recent) && t.matching.failed.None?
             && t.run == After(nodes, Asks(t.matching.asked), cap)
             && d in StopCandidates(SkippedJobs(t.run.log), t.matching.supply.idle, ActiveWorkers(s), s.templates)) ==>
              StopJustified(s, t, d)
  {
    hide MatchingOf, After, Asks, ContainerResource, Merged, StopCandidates, SkippedJobs, ValidStore, DistinctBy;
    if && t.matching == MatchingOf(s, recent) && t.matching.failed.None?
       && t.run == After(nodes, Asks(t.matching.asked), cap)
       && d in StopCandidates(SkippedJobs(t.run.log), t.matching.supply.idle, ActiveWorkers(s), s.templates)
    {
      var w := CandidateSource(SkippedJobs(t.run.log), t.matching.supply.idle, ActiveWorkers(s), s.templates, d);
      PoolMembers(s, recent);
      if w in t.matching.supply.idle {
        IdleLeftNotSkipped(s, nodes, recent, cap, w);
      }
      forall u | u in t.matching.served || u in t.matching.woken ensures u.id != d.id {
        UnusedWorker(s, recent, w, u);
      }
    }
  }

  /** Stop safety of a whole tick. */
  lemma StopSafety(s: Snapshot, nodes: seq<NodeState>, list: seq<CreatedJob>, now: int, ttl: int, cap: nat)
    requires ValidStore(s.templates) && DistinctBy(s.workers, WorkerId)
    ensures var t := TickOf(s, nodes, list, now, ttl, cap);
            && (forall d :: d in t.stop ==> StopJustified(s, t, d))
            && (forall i, j :: 0 <= i < j < |t.stop| ==> t.stop[i].id != t.stop[j].id)
            && |t.stop| <= |SkippedJobs(t.run.log)|
  {
    var t := TickOf(s, nodes, list, now, ttl, cap);
    var recent := ClearCreatedJobs(list, now, ttl);
    if t.matching.failed.None? {
      var skipped := SkippedJobs(t.run.log);
      var candidates := StopCandidates(skipped, t.matching.supply.idle, ActiveWorkers(s), s.templates);
      PauseIsSafe(Pause(t.run.nodes, candidates, []), skipped);
      hide MatchingOf, After, Asks, StopCandidates, ServeAll, StopJustified, SkippedJobs;
      forall d | d in t.stop ensures StopJustified(s, t, d) {
        assert d in candidates;
        CandidateJustified(s, nodes, recent, cap, t, d);
      }
    }
  }

  // ---------------------------------------------------------------- runs of ticks

  /** The nodes and the clock of one tick; the snapshot stays the same. */
  datatype TickInput = TickInput(nodes: seq<NodeState>, now: int, cap: nat)

  /** createdJobsList after the ticks. */
  function ListAfter(s: Snapshot, list: seq<CreatedJob>, ticks: seq<TickInput>, ttl: int): seq<CreatedJob> {
    if ticks == [] then list
    else
      var last := ticks[|ticks| - 1];
      TickOf(s, last.nodes, ListAfter(s, list, ticks[..|ticks| - 1], ttl), last.now, ttl, last.cap).list
  }

  /** No job created so far or during the ticks expires before the time limit. */
  ghost predicate Live(list: seq<CreatedJob>, ticks: seq<TickInput>, ttl: int, limit: int) {
    && (forall j :: j in list ==> limit < j.createdTime + ttl)
    && (forall i :: 0 <= i < |ticks| ==> ticks[i].now <= limit < ticks[i].now + ttl)
  }

  lemma StampCount(jobs: seq<JobDetails>, now: int, a: string)
    ensures Count(Stamp(jobs, now), CreatedName, a) == Count(jobs, DetailsJobName, a)
  {
    if jobs != [] {
      StampCount(jobs[1..], now, a);
      assert Stamp(jobs, now)[1..] == Stamp(jobs[1..], now);
    }
  }

  /** One tick before expiry: the list grows by the created jobs of each algorithm, which never exceed
      what the algorithm lacked, and what it lacks afterwards is what was skipped. */
  lemma TickFillsDeficit(s: Snapshot, nodes: seq<NodeState>, list: seq<CreatedJob>, now: int, ttl: int, cap: nat,
                         a: string)
    requires ValidStore(s.templates)
    requires forall j :: j in list ==> now - j.createdTime < ttl
    ensures var t := TickOf(s, nodes, list, now, ttl, cap);
            if t.matching.failed.Some? then t.list == list
            else
              var created := Count(CreatedJobs(t.run.log), DetailsJobName, a);
              var skipped := Count(SkippedJobs(t.run.log), DetailsJobName, a);
              && created + skipped == Deficit(s, list, a)
              && Count(t.list, CreatedName, a) == Count(list, CreatedName, a) + created
              && Deficit(s, t.list, a) == skipped
  {
    hide ClearCreatedJobs, MatchingOf, After, Asks, ServeAll, StopCandidates, SupplyFor, MinHot, Count, Stamp,
         CreatedJobs, SkippedJobs, ActiveWorkers, SupplyOf;
    NothingExpired(list, now, ttl);
    var t := TickOf(s, nodes, list, now, ttl, cap);
    TickUnfolds(s, nodes, list, now, ttl, cap);
    hide TickOf;
    if t.matching.failed.None? {
      ExactTick(s, list, a);
      RequiredIsCreatedPlusSkipped(s, nodes, list, now, ttl, cap, a);
      var created := CreatedJobs(t.run.log);
      StampCount(created, now, a);
      CountConcat(list, Stamp(created, now), CreatedName, a);
      DeficitShrinks(s, list, Stamp(created, now), a);
      hide Deficit;
    }
  }

  lemma DeficitShrinks(s: Snapshot, list: seq<CreatedJob>, more: seq<CreatedJob>, a: string)
    ensures Deficit(s, list + more, a) == Max(0, Deficit(s, list, a) - Count(more, CreatedName, a))
         || Count(more, CreatedName, a) > Deficit(s, list, a)
  {
    CountConcat(list, more, CreatedName, a);
    hide Count, MinHot, Merged, Filter, ExtraJobs;
  }

  lemma NothingExpired(list: seq<CreatedJob>, now: int, ttl: int)
    requires forall j :: j in list ==> now - j.createdTime < ttl
    ensures ClearCreatedJobs(list, now, ttl) == list
  {
    FilterAll(list, (j: CreatedJob) => now - j.createdTime < ttl);
  }

  lemma ListStaysLive(s: Snapshot, list: seq<CreatedJob>, ticks: seq<TickInput>, ttl: int, limit: int)
    requires Live(list, ticks, ttl, limit)
    ensures forall j :: j in ListAfter(s, list, ticks, ttl) ==> limit < j.createdTime + ttl
  {
    if ticks != [] {
      var init, last := ticks[..|ticks| - 1], ticks[|ticks| - 1];
      ListStaysLive(s, list, init, ttl, limit);
      hide MatchingOf, After, Asks, ServeAll, StopCandidates;
    }
  }

  /** No over-creation: over any ticks on one snapshot before expiry, the jobs created for an algorithm
      never exceed what it lacked at first; creations and what it still lacks add up to that. */
  lemma {:induction false} NoOverCreation(s: Snapshot, list: seq<CreatedJob>, ticks: seq<TickInput>, ttl: int,
                                          limit: int, a: string)
    requires ValidStore(s.templates) && Live(list, ticks, ttl, limit)
    ensures var after := ListAfter(s, list, ticks, ttl);
            && Count(after, CreatedName, a) >= Count(list, CreatedName, a)
            && Count(after, CreatedName, a) - Count(list, CreatedName, a) + Deficit(s, after, a) == Deficit(s, list, a)
  {
    hide TickOf, Deficit, Count, ValidStore, CreatedJobs, SkippedJobs;
    if ticks != [] {
      var init, last := ticks[..|ticks| - 1], ticks[|ticks| - 1];
      NoOverCreation(s, list, init, ttl, limit, a);
      ListStaysLive(s, list, init, ttl, limit);
      TickFillsDeficit(s, last.nodes, ListAfter(s, list, init, ttl), last.now, ttl, last.cap, a);
    }
  }

  /** Once a tick skips no job of an algorithm, later ticks create none for it. */
  lemma {:induction false} SatisfiedStays(s: Snapshot, list: seq<CreatedJob>, tick: TickInput, later: seq<TickInput>,
                                          ttl: int, limit: int, a: string)
    requires ValidStore(s.templates) && Live(list, [tick] + later, ttl, limit)
    requires var t := TickOf(s, tick.nodes, list, tick.now, ttl, tick.cap);
             t.matching.failed.None? && Count(SkippedJobs(t.run.log), DetailsJobName, a) == 0
    ensures var next := TickOf(s, tick.nodes, list, tick.now, ttl, tick.cap).list;
            Count(ListAfter(s, next, later, ttl), CreatedName, a) == Count(next, CreatedName, a)
  {
    hide TickOf, Deficit, Count;
    assert ([tick] + later)[0] == tick;
    assert forall i :: 0 <= i < |later| ==> later[i] == ([tick] + later)[i + 1];
    TickFillsDeficit(s, tick.nodes, list, tick.now, ttl, tick.cap, a);
    var next := TickOf(s, tick.nodes, list, tick.now, ttl, tick.cap).list;
    assert ListAfter(s, list, [tick], ttl) == next by {
      assert [tick][..0] == [];
    }
    ListStaysLive(s, list, [tick], ttl, limit);
    NoOverCreation(s, next, later, ttl, limit, a);
  }

  // ---------------------------------------------------------------- reconcile

  /** The commands and jobs one tick sends out, and its report per algorithm. */
  datatype Outcome = Outcome(
    thrown: Option<string>, woken: seq<Worker>, created: seq<CreatedJob>, stopped: seq<StopDetail>,
    warmed: seq<Worker>, cooled: seq<Worker>, report: map<string, Report>)

  datatype Report = Report(required: nat, created: nat, skipped: nat, paused: nat)

  /** The report adds up for every algorithm it names, and it names those that asked for a job. */
  ghost predicate ReportAddsUp(report: map<string, Report>, asked: seq<CreateDetail>, log: seq<Decision>) {
    forall a :: (a in report <==> Count(asked, DetailName, a) > 0)
             && (a in report ==>
                   && report[a].required == Count(asked, DetailName, a) == report[a].created + report[a].skipped
                   && report[a].created == Count(CreatedJobs(log), DetailsJobName, a)
                   && report[a].skipped == Count(SkippedJobs(log), DetailsJobName, a))
  }

  function StopName(d: StopDetail): string { d.algorithmName }

  lemma NothingCreated(now: int)
    ensures Stamp(CreatedJobs([]), now) == []
  {
  }

  lemma MatchingUnfolds(s: Snapshot, recent: seq<CreatedJob>)
    ensures MatchingOf(s, recent) == Process(SupplyFor(s, recent), TotalRequests(s.requests, s.templates), s.templates)
  {
  }

  lemma TickUnfolds(s: Snapshot, nodes: seq<NodeState>, list: seq<CreatedJob>, now: int, ttl: int, cap: nat)
    ensures var t, recent := TickOf(s, nodes, list, now, ttl, cap), ClearCreatedJobs(list, now, ttl);
            var m := MatchingOf(s, recent);
            && t.matching == m
            && (m.failed.Some? ==> t.run == Run(nodes, []) && t.stop == [] && t.list == recent)
            && (m.failed.None? ==>
                  var run := After(nodes, Asks(m.asked), cap);
                  var candidates := StopCandidates(SkippedJobs(run.log), m.supply.idle, ActiveWorkers(s), s.templates);
                  && t.run == run && t.list == recent + Stamp(CreatedJobs(run.log), now)
                  && t.stop == ServeAll(Pause(run.nodes, candidates, []), SkippedJobs(run.log)).toStop)
  {
    hide MatchingOf, After, Asks, SkippedJobs, StopCandidates, ServeAll, ClearCreatedJobs, CreatedJobs;
  }

  /** The counts of the report, before required is known to be their sum. */
  ghost predicate ReportCounts(report: map<string, Report>, asked: seq<CreateDetail>, log: seq<Decision>) {
    forall a :: (a in report <==> Count(asked, DetailName, a) > 0)
             && (a in report ==>
                   && report[a].required == Count(asked, DetailName, a)
                   && report[a].created == Count(CreatedJobs(log), DetailsJobName, a)
                   && report[a].skipped == Count(SkippedJobs(log), DetailsJobName, a))
  }

  /** The loop that adds created, skipped and paused to reconcileResult. */
  method BuildReport(required: map<string, nat>, created: seq<CreatedJob>, skipped: seq<JobDetails>,
                     toStop: seq<StopDetail>,
                     ghost asked: seq<CreateDetail>, ghost log: seq<Decision>, ghost now: int)
    returns (report: map<string, Report>)
    requires Tallies(required, asked)
    requires created == Stamp(CreatedJobs(log), now) && skipped == SkippedJobs(log)
    ensures ReportCounts(report, asked, log)
    ensures forall a :: a in report ==> report[a].paused == Count(toStop, StopName, a)
  {
    hide Count, CreatedJobs, SkippedJobs, Stamp;
    report := map a | a in required :: Report(required[a], Count(created, CreatedName, a),
                                             Count(skipped, DetailsJobName, a), Count(toStop, StopName, a));
    forall a { StampCount(CreatedJobs(log), now, a); }
  }

  lemma CountsAddUp(report: map<string, Report>, asked: seq<CreateDetail>, log: seq<Decision>)
    requires ReportCounts(report, asked, log)
    requires forall a :: Count(asked, DetailName, a) ==
               Count(CreatedJobs(log), DetailsJobName, a) + Count(SkippedJobs(log), DetailsJobName, a)
    ensures ReportAddsUp(report, asked, log)
  {
    hide Count, CreatedJobs, SkippedJobs;
  }

  /** _findWorkersToStop of reconciler.js */
  method CollectStopDetails(skipped: seq<JobDetails>, idleWorkers: seq<Worker>, activeWorkers: seq<Worker>,
                            algorithmTemplates: seq<Template>)
    returns (stopDetails: seq<StopDetail>)
    ensures stopDetails == StopCandidates(skipped, idleWorkers, activeWorkers, algorithmTemplates)
  {
    hide Details, UnusedActive, NotDebug;
    stopDetails := [];
    if |skipped| == 0 {
      return;
    }
    var active := CollectActive(skipped, activeWorkers, algorithmTemplates);
    stopDetails := Details(NotDebug(idleWorkers, algorithmTemplates), algorithmTemplates) + active;
  }

  /** The loop over the active algorithms that are not among the skipped ones. */
  method CollectActive(skipped: seq<JobDetails>, activeWorkers: seq<Worker>, algorithmTemplates: seq<Template>)
    returns (stopDetails: seq<StopDetail>)
    ensures stopDetails ==
              Details(UnusedActive(activeWorkers, Algorithms(activeWorkers), skipped, algorithmTemplates),
                      algorithmTemplates)
  {
    hide Details, UnusedActive, Algorithms, GroupOf, MayStop;
    var activeTypes := Algorithms(activeWorkers);
    stopDetails := [];
    ActiveStart(activeWorkers, activeTypes, skipped, algorithmTemplates);
    for i := 0 to |activeTypes|
      invariant stopDetails ==
                  Details(UnusedActive(activeWorkers, activeTypes[..i], skipped, algorithmTemplates),
                          algorithmTemplates)
    {
      ActiveStep(activeWorkers, activeTypes, i, skipped, algorithmTemplates);
      if MayStop(activeTypes[i], skipped, algorithmTemplates) {
        stopDetails := stopDetails + Details(GroupOf(activeWorkers, activeTypes[i]), algorithmTemplates);
      }
    }
    assert activeTypes[..|activeTypes|] == activeTypes;
  }

  lemma ActiveStart(active: seq<Worker>, names: seq<string>, skipped: seq<JobDetails>, templates: seq<Template>)
    ensures Details(UnusedActive(active, names[..0], skipped, templates), templates) == []
  {
    assert names[..0] == [];
  }

  lemma DetailsConcat(a: seq<Worker>, b: seq<Worker>, templates: seq<Template>)
    ensures Details(a + b, templates) == Details(a, templates) + Details(b, templates)
    decreases |b|
  {
    if b == [] {
      assert a + b == a;
    } else {
      assert (a + b)[..|a + b| - 1] == a + b[..|b| - 1];
      DetailsConcat(a, b[..|b| - 1], templates);
    }
  }

  lemma ActiveStep(active: seq<Worker>, names: seq<string>, i: nat, skipped: seq<JobDetails>, templates: seq<Template>)
    requires i < |names|
    ensures Details(UnusedActive(active, names[..i + 1], skipped, templates), templates) ==
              Details(UnusedActive(active, names[..i], skipped, templates), templates) +
              if MayStop(names[i], skipped, templates) then Details(GroupOf(active, names[i]), templates) else []
  {
    hide MayStop, GroupOf;
    assert names[..i + 1][..i] == names[..i];
    var before := UnusedActive(active, names[..i], skipped, templates);
    DetailsConcat(before, GroupOf(active, names[i]), templates);
    assert before + [] == before;
  }

  class Reconciler {
    var createdJobsList: seq<CreatedJob>

    constructor ()
      ensures createdJobsList == []
    {
      createdJobsList := [];
    }

    /** _clearCreatedJobsList */
    method ClearCreatedJobsList(now: int, createdJobsTTL: int)
      modifies this
      ensures createdJobsList == ClearCreatedJobs(old(createdJobsList), now, createdJobsTTL)
    {
      createdJobsList := ClearCreatedJobs(createdJobsList, now, createdJobsTTL);
    }

    /** reconcile: the list of created jobs and the shared node records end as TickOf says. */
    method Reconcile(s: Snapshot, nodes: seq<NodeRecord>, now: int, createdJobsTTL: int,
                     cap: nat) returns (out: Outcome)
      requires ValidStore(s.templates)
      requires Distinct(nodes)
      modifies this, nodes
      ensures var t := TickOf(s, old(States(nodes)), old(createdJobsList), now, createdJobsTTL, cap);
              && createdJobsList == t.list && States(nodes) == t.run.nodes
              && out.thrown == t.matching.failed && out.woken == t.matching.woken
              && out.created == Stamp(CreatedJobs(t.run.log), now) && out.stopped == t.stop
              && (out.thrown.None? ==>
                    && ReportAddsUp(out.report, t.matching.asked, t.run.log)
                    && out.warmed == WarmUp(s.workers, s.templates) && out.cooled == CoolDown(s.workers, s.templates))
    {
      hide TickOf, MatchingOf, After, Asks, ServeAll, StopCandidates, WarmUp, CoolDown, ReportAddsUp, ReportCounts,
           States,
           ClearCreatedJobs, CreatedJobs, SkippedJobs;
      ClearCreatedJobsList(now, createdJobsTTL);
      ghost var start, recent := States(nodes), createdJobsList;
      var warmUpWorkers := NormalizeHotWorkers(s.workers, s.templates);
      var coolDownWorkers := NormalizeColdWorkers(s.workers, s.templates);
      var woken, createDetails, required, thrown, idleWorkers := MatchRequests(s);
      TickUnfolds(s, start, old(createdJobsList), now, createdJobsTTL, cap);
      if thrown.Some? {
        NothingCreated(now);
        return Outcome(thrown, woken, [], [], [], [], map[]);
      }
      var created, toStop, report := PlaceAndStop(s, createDetails, required, idleWorkers, nodes, now, cap);
      ghost var log := After(start, Asks(createDetails), cap).log;
      forall a ensures Count(createDetails, DetailName, a) ==
                         Count(CreatedJobs(log), DetailsJobName, a) + Count(SkippedJobs(log), DetailsJobName, a) {
        RequiredIsCreatedPlusSkipped(s, start, old(createdJobsList), now, createdJobsTTL, cap, a);
      }
      CountsAddUp(report, createDetails, log);
      out := Outcome(None, woken, created, toStop, warmUpWorkers, coolDownWorkers, report);
    }

    /** The part of reconcile that matches the requests against clones of the lists. */
    method MatchRequests(s: Snapshot)
      returns (woken: seq<Worker>, createDetails: seq<CreateDetail>, required: map<string, nat>,
               thrown: Option<string>, idleWorkers: seq<Worker>)
      ensures var m := MatchingOf(s, createdJobsList);
              && woken == m.woken && createDetails == m.asked && thrown == m.failed && idleWorkers == m.supply.idle
      ensures Tallies(required, createDetails)
    {
      hide MatchingOf, Process, TotalRequests, Merged, Filter, ExtraJobs, Tallies;
      var merged := Merged(s.workers, s.jobs);
      var totalRequests := NormalizeHotRequests(s.requests, s.templates);
      var pools := new Pools(Filter(merged, IdleFilter), Filter(merged, PausedFilter), ExtraJobs(s.workers, s.jobs),
                             createdJobsList);
      ghost var served;
      woken, createDetails, required, thrown, served := pools.ProcessAllRequests(totalRequests, s.templates);
      MatchingUnfolds(s, createdJobsList);
      idleWorkers := pools.idleWorkers;
    }

    /** The part of reconcile that places the jobs, picks the workers to stop and reports. */
    method PlaceAndStop(s: Snapshot, createDetails: seq<CreateDetail>, required: map<string, nat>,
                        idleWorkers: seq<Worker>,
                        nodes: seq<NodeRecord>, now: int, cap: nat)
      returns (created: seq<CreatedJob>, toStop: seq<StopDetail>, report: map<string, Report>)
      requires Distinct(nodes) && Tallies(required, createDetails)
      modifies this, nodes
      ensures var run := After(old(States(nodes)), Asks(createDetails), cap);
              var candidates := StopCandidates(SkippedJobs(run.log), idleWorkers, ActiveWorkers(s), s.templates);
              && States(nodes) == run.nodes && created == Stamp(CreatedJobs(run.log), now)
              && createdJobsList == old(createdJobsList) + created
              && toStop == ServeAll(Pause(run.nodes, candidates, []), SkippedJobs(run.log)).toStop
              && ReportCounts(report, createDetails, run.log)
    {
      hide After, Asks, ServeAll, StopCandidates, ReportCounts, States, Filter, Merged, CreatedJobs, SkippedJobs,
           Tallies;
      ghost var log := After(States(nodes), Asks(createDetails), cap).log;
      var skipped;
      created, skipped := MatchJobsToResources(createDetails, nodes, cap, now);
      createdJobsList := createdJobsList + created;
      var activeWorkers := Filter(Merged(s.workers, s.jobs), ActiveFilter);
      var stopDetails := CollectStopDetails(skipped, idleWorkers, activeWorkers, s.templates);
      toStop := PauseAccordingToResources(stopDetails, States(nodes), skipped);
      report := BuildReport(required, created, skipped, toStop, createDetails, log, now);
    }
  }
}
