/** One tick in terms of what it sees: the fields of workers, jobs, requests and templates
    (task-executor, lib/reconcile/reconciler.js and normalize.js). */
module TickExactly {
  import opened Collections
  import opened Resources
  import opened Stopping
  import opened DrainSearch
  import opened Demand
  import opened Matching
  import opened HotWorkers
  import opened Reconciler

  // ---------------------------------------------------------------- templates

  lemma LookupFinds(templates: seq<Template>, t: Template)
    requires ValidStore(templates) && t in templates
    ensures Lookup(templates, t.name) == Some(t)
  {
    OneByName(templates, TemplateName, t, Lookup(templates, t.name).value);
  }

  ghost predicate DebugOn(templates: seq<Template>, a: string) {
    exists t :: t in templates && t.name == a && t.debug
  }

  /** What a container of the algorithm asks for: an amount of 0 or none takes the default of 0.1 cpu and 4 Mi. */
  ghost predicate Asking(templates: seq<Template>, a: string, r: Amount) {
    && (forall t :: t in templates && t.name == a ==>
          && r.cpu == (if t.cpu != 0.0 then t.cpu else 0.1)
          && r.memory == (if t.mem != 0.0 then t.mem else 4.0)
          && r.gpu == t.gpu)
    && ((forall t :: t in templates ==> t.name != a) ==> r.cpu == 0.1 && r.gpu == 0.0 && r.memory == 4.0)
  }

  ghost predicate HotWanted(templates: seq<Template>, a: string, hot: int) {
    && (forall t :: t in templates && t.name == a ==> hot == t.minHotWorkers)
    && ((forall t :: t in templates ==> t.name != a) ==> hot == 0)
  }

  lemma TemplateExactly(templates: seq<Template>, a: string)
    requires ValidStore(templates)
    ensures Debug(templates, a) <==> DebugOn(templates, a)
    ensures forall r :: Asking(templates, a, r) <==> r == ContainerResource(Lookup(templates, a))
    ensures HotWanted(templates, a, MinHot(templates, a))
  {
    forall t | t in templates { LookupFinds(templates, t); }
    hide ValidStore;
    var found := Lookup(templates, a);
    if found.Some? {
      assert found.value in templates && found.value.name == a;
      forall r ensures Asking(templates, a, r) <==> r == ContainerResource(found) {
        assert forall t :: t in templates && t.name == a ==> t == found.value;
      }
    } else {
      assert forall t :: t in templates ==> t.name != a;
    }
  }

  // ---------------------------------------------------------------- workers and jobs

  /** The first job whose name starts the pod name. */
  ghost predicate JobIs(w: Worker, jobs: seq<ClusterJob>, job: Option<ClusterJob>) {
    var pod := if w.podName.Some? then w.podName.value else "";
    if job.None? then pod == "" || forall k :: 0 <= k < |jobs| ==> !(jobs[k].name <= pod)
    else
      && pod != ""
      && exists k :: 0 <= k < |jobs| && jobs[k] == job.value && jobs[k].name <= pod
                     && forall l :: 0 <= l < k ==> !(jobs[l].name <= pod)
  }

  lemma JobExactly(w: Worker, jobs: seq<ClusterJob>, job: Option<ClusterJob>)
    ensures JobIs(w, jobs, job) <==> job == JobOf(w, jobs)
  {
    if w.podName.Some? && w.podName.value != "" {
      var pod := w.podName.value;
      var at := Find(jobs, (j: ClusterJob) => StartsWith(pod, j.name));
      if at.Some? {
        assert jobs[at.value].name <= pod;
        if job.Some? && JobIs(w, jobs, job) {
          var k :| 0 <= k < |jobs| && jobs[k] == job.value && jobs[k].name <= pod
                   && forall l :: 0 <= l < k ==> !(jobs[l].name <= pod);
          assert StartsWith(pod, jobs[k].name);
          assert k == at.value;
        }
      } else {
        assert forall k :: 0 <= k < |jobs| ==> !StartsWith(pod, jobs[k].name);
      }
    }
  }

  /** A worker of the snapshot joined with its job. */
  ghost predicate Joined(s: Snapshot, w: Worker) {
    exists i :: 0 <= i < |s.workers| && w == s.workers[i].(job := w.job) && JobIs(s.workers[i], s.jobs, w.job)
  }

  lemma JoinedExactly(s: Snapshot, w: Worker)
    ensures Joined(s, w) <==> w in Merged(s.workers, s.jobs)
  {
    var merged := Merged(s.workers, s.jobs);
    forall i | 0 <= i < |s.workers| ensures JobIs(s.workers[i], s.jobs, w.job) <==> w.job == merged[i].job {
      JobExactly(s.workers[i], s.jobs, w.job);
    }
    hide JobIs, JobOf, Merged;
    if w in merged {
      var i :| 0 <= i < |merged| && merged[i] == w;
      assert w == s.workers[i].(job := w.job);
    }
  }

  /** Some worker was found for a job of that name; a job with an empty name is never found. */
  ghost predicate Taken(s: Snapshot, j: ClusterJob) {
    j.name != "" && exists w :: Joined(s, w) && w.job.Some? && w.job.value.name == j.name
  }

  lemma TakenExactly(s: Snapshot, j: ClusterJob)
    ensures Taken(s, j) <==> JobFound(s.workers, s.jobs, j)
  {
    var merged := Merged(s.workers, s.jobs);
    forall w ensures Joined(s, w) <==> w in merged { JoinedExactly(s, w); }
    hide Joined, JobOf, Merged;
    if JobFound(s.workers, s.jobs, j) {
      var w :| w in s.workers && JobOf(w, s.jobs).Some? && JobOf(w, s.jobs).value.name == j.name;
      var i :| 0 <= i < |s.workers| && s.workers[i] == w;
      assert merged[i] in merged;
    }
    if Taken(s, j) {
      var w :| Joined(s, w) && w.job.Some? && w.job.value.name == j.name;
      var i :| 0 <= i < |merged| && merged[i] == w;
      assert s.workers[i] in s.workers;
    }
  }

  // ---------------------------------------------------------------- supply and demand

  ghost predicate IsIdle(w: Worker, a: string) {
    w.algorithmName == a && w.workerStatus == "ready" && !w.workerPaused
  }

  ghost predicate IsPaused(w: Worker, a: string) {
    w.algorithmName == a && w.workerStatus == "ready" && w.workerPaused
  }

  lemma {:induction false} CountFilterIf<T(!new)>(s: seq<T>, p: T -> bool, name: T -> string, a: string, q: T -> bool)
    requires forall x :: q(x) <==> p(x) && name(x) == a
    ensures Count(Filter(s, p), name, a) == CountIf(s, q)
  {
    if s != [] {
      CountFilterIf(s[1..], p, name, a, q);
      var rest := Filter(s[1..], p);
      assert ([s[0]] + rest)[1..] == rest && [] + rest == rest;
    }
  }

  lemma {:induction false} CountMergedIf(workers: seq<Worker>, jobs: seq<ClusterJob>, p: Worker -> bool, a: string,
                                         q: Worker -> bool)
    requires forall w: Worker, job :: p(w.(job := job)) == p(w)
    requires forall w :: q(w) <==> p(w) && w.algorithmName == a
    ensures Count(Filter(Merged(workers, jobs), p), WorkerName, a) == CountIf(workers, q)
  {
    hide JobOf;
    if workers != [] {
      CountMergedIf(workers[1..], jobs, p, a, q);
      var first, rest := workers[0].(job := JobOf(workers[0], jobs)), Merged(workers[1..], jobs);
      assert p(first) == p(workers[0]);
      var merged := [first] + rest;
      assert merged[0] == first && merged[1..] == rest;
      assert ([first] + Filter(rest, p))[1..] == Filter(rest, p) && [] + Filter(rest, p) == Filter(rest, p);
    }
  }

  lemma {:induction false} CountIsCountIf<T(!new)>(s: seq<T>, name: T -> string, a: string, q: T -> bool)
    requires forall x :: q(x) <==> name(x) == a
    ensures Count(s, name, a) == CountIf(s, q)
  {
    if s != [] {
      CountIsCountIf(s[1..], name, a, q);
    }
  }

  /** What stands against the demand for an algorithm: its workers that are ready, paused or not, the jobs that no
      worker was found for, and the created jobs that have not expired. */
  lemma SupplyExactly(s: Snapshot, list: seq<CreatedJob>, now: int, ttl: int, a: string)
    ensures var supply := SupplyFor(s, ClearCreatedJobs(list, now, ttl));
      && Count(supply.idle, WorkerName, a) == CountIf(s.workers, (w: Worker) => IsIdle(w, a))
      && Count(supply.paused, WorkerName, a) == CountIf(s.workers, (w: Worker) => IsPaused(w, a))
      && Count(supply.pending, JobName, a) ==
           CountIf(s.jobs, (j: ClusterJob) => j.algorithmName == a && !Taken(s, j))
      && Count(supply.recent, CreatedName, a) ==
           CountIf(list, (c: CreatedJob) => c.job.algorithmName == a && now - c.createdTime < ttl)
  {
    CountMergedIf(s.workers, s.jobs, IdleFilter, a, (w: Worker) => IsIdle(w, a));
    CountMergedIf(s.workers, s.jobs, PausedFilter, a, (w: Worker) => IsPaused(w, a));
    PendingExactly(s, a);
    CountFilterIf(list, (c: CreatedJob) => now - c.createdTime < ttl, CreatedName, a,
                  (c: CreatedJob) => c.job.algorithmName == a && now - c.createdTime < ttl);
    hide Filter, Count, CountIf, Merged, ExtraJobs;
  }

  lemma PendingExactly(s: Snapshot, a: string)
    ensures Count(ExtraJobs(s.workers, s.jobs), JobName, a) ==
              CountIf(s.jobs, (j: ClusterJob) => j.algorithmName == a && !Taken(s, j))
  {
    forall j ensures Taken(s, j) <==> JobFound(s.workers, s.jobs, j) { TakenExactly(s, j); }
    hide Taken, JobFound, Filter, Count, CountIf;
    CountFilterIf(s.jobs, (j: ClusterJob) => !JobFound(s.workers, s.jobs, j), JobName, a,
                  (j: ClusterJob) => j.algorithmName == a && !Taken(s, j));
  }

  /** The supply of an algorithm, list by list, and its demand. */
  ghost function IdleOf(s: Snapshot, a: string): nat { CountIf(s.workers, (w: Worker) => IsIdle(w, a)) }

  ghost function PausedOf(s: Snapshot, a: string): nat { CountIf(s.workers, (w: Worker) => IsPaused(w, a)) }

  ghost function PendingOf(s: Snapshot, a: string): nat {
    CountIf(s.jobs, (j: ClusterJob) => j.algorithmName == a && !Taken(s, j))
  }

  ghost function RecentOf(list: seq<CreatedJob>, now: int, ttl: int, a: string): nat {
    CountIf(list, (c: CreatedJob) => c.job.algorithmName == a && now - c.createdTime < ttl)
  }

  ghost function RequestedOf(s: Snapshot, a: string): nat { CountIf(s.requests, (r: Request) => r.algorithmName == a) }

  lemma SupplyCounts(s: Snapshot, list: seq<CreatedJob>, now: int, ttl: int, a: string)
    ensures var supply := SupplyFor(s, ClearCreatedJobs(list, now, ttl));
      && Count(supply.idle, WorkerName, a) == IdleOf(s, a) && Count(supply.paused, WorkerName, a) == PausedOf(s, a)
      && SupplyOf(supply, a) == IdleOf(s, a) + PausedOf(s, a) + PendingOf(s, a) + RecentOf(list, now, ttl, a)
      && Count(s.requests, RequestName, a) == RequestedOf(s, a)
  {
    SupplyExactly(s, list, now, ttl, a);
    CountIsCountIf(s.requests, RequestName, a, (r: Request) => r.algorithmName == a);
    hide SupplyFor, ClearCreatedJobs, Count, CountIf, IsIdle, IsPaused, Taken;
  }

  /** A tick that does not throw asks, for every algorithm, for the larger of its requests and its hot workers, less
      its ready workers, the jobs without a worker and the jobs created before; it wakes the paused workers that
      the demand reaches once the ready ones are used. */
  lemma DemandExactly(s: Snapshot, nodes: seq<NodeState>, list: seq<CreatedJob>, now: int, ttl: int, cap: nat,
                      a: string, hot: int)
    requires ValidStore(s.templates) && HotWanted(s.templates, a, hot)
    ensures var t, demand := TickOf(s, nodes, list, now, ttl, cap), Max(RequestedOf(s, a), hot);
            t.matching.failed.None? ==>
              && CountIf(t.matching.asked, (d: CreateDetail) => d.job.algorithmName == a) ==
                   Max(0, demand - IdleOf(s, a) - PausedOf(s, a) - PendingOf(s, a) - RecentOf(list, now, ttl, a))
              && CountIf(t.matching.woken, (w: Worker) => w.algorithmName == a) ==
                   Max(0, Min(demand - IdleOf(s, a), PausedOf(s, a)))
              && CountIf(t.matching.served, (w: Worker) => w.algorithmName == a) ==
                   Max(0, Min(demand, IdleOf(s, a)))
              && CountIf(CreatedJobs(t.run.log), (j: JobDetails) => j.algorithmName == a) +
                 CountIf(SkippedJobs(t.run.log), (j: JobDetails) => j.algorithmName == a) ==
                   Max(0, demand - IdleOf(s, a) - PausedOf(s, a) - PendingOf(s, a) - RecentOf(list, now, ttl, a))
  {
    var t, recent := TickOf(s, nodes, list, now, ttl, cap), ClearCreatedJobs(list, now, ttl);
    MatchedExactly(s, list, now, ttl, a, hot);
    TickMatching(s, nodes, list, now, ttl, cap);
    RequiredIsCreatedPlusSkipped(s, nodes, list, now, ttl, cap, a);
    hide TickOf, MatchingOf, HotWanted, Count, CountIf, ClearCreatedJobs, CreatedJobs, SkippedJobs,
         IdleOf, PausedOf, PendingOf, RecentOf, RequestedOf;
    CountsOfWorkers(t.matching.woken, a);
    CountsOfWorkers(t.matching.served, a);
    CountsOfJobs(t.matching.asked, CreatedJobs(t.run.log), SkippedJobs(t.run.log), a);
  }

  lemma TickMatching(s: Snapshot, nodes: seq<NodeState>, list: seq<CreatedJob>, now: int, ttl: int, cap: nat)
    ensures TickOf(s, nodes, list, now, ttl, cap).matching == MatchingOf(s, ClearCreatedJobs(list, now, ttl))
  {
    hide MatchingOf, After, Asks, SkippedJobs, StopCandidates, ServeAll, ClearCreatedJobs, CreatedJobs;
  }

  lemma MatchedExactly(s: Snapshot, list: seq<CreatedJob>, now: int, ttl: int, a: string, hot: int)
    requires ValidStore(s.templates) && HotWanted(s.templates, a, hot)
    ensures var m, demand := MatchingOf(s, ClearCreatedJobs(list, now, ttl)), Max(RequestedOf(s, a), hot);
            m.failed.None? ==>
              && Count(m.asked, DetailName, a) ==
                   Max(0, demand - IdleOf(s, a) - PausedOf(s, a) - PendingOf(s, a) - RecentOf(list, now, ttl, a))
              && Count(m.woken, WorkerName, a) == Max(0, Min(demand - IdleOf(s, a), PausedOf(s, a)))
              && Count(m.served, WorkerName, a) == Max(0, Min(demand, IdleOf(s, a)))
  {
    hide MatchingOf, HotWanted, MinHot, ValidStore, Count, SupplyOf, SupplyFor, ClearCreatedJobs,
         IdleOf, PausedOf, PendingOf, RecentOf, RequestedOf;
    ExactTick(s, ClearCreatedJobs(list, now, ttl), a);
    SupplyCounts(s, list, now, ttl, a);
    HotIsMinHot(s.templates, a, hot);
  }

  lemma CountsOfWorkers(workers: seq<Worker>, a: string)
    ensures Count(workers, WorkerName, a) == CountIf(workers, (w: Worker) => w.algorithmName == a)
  {
    CountIsCountIf(workers, WorkerName, a, (w: Worker) => w.algorithmName == a);
  }

  lemma CountsOfJobs(asked: seq<CreateDetail>, created: seq<JobDetails>, skipped: seq<JobDetails>, a: string)
    ensures Count(asked, DetailName, a) == CountIf(asked, (d: CreateDetail) => d.job.algorithmName == a)
    ensures Count(created, DetailsJobName, a) == CountIf(created, (j: JobDetails) => j.algorithmName == a)
    ensures Count(skipped, DetailsJobName, a) == CountIf(skipped, (j: JobDetails) => j.algorithmName == a)
  {
    CountIsCountIf(asked, DetailName, a, (d: CreateDetail) => d.job.algorithmName == a);
    CountIsCountIf(created, DetailsJobName, a, (j: JobDetails) => j.algorithmName == a);
    CountIsCountIf(skipped, DetailsJobName, a, (j: JobDetails) => j.algorithmName == a);
  }

  lemma HotIsMinHot(templates: seq<Template>, a: string, hot: int)
    requires ValidStore(templates) && HotWanted(templates, a, hot)
    ensures hot == MinHot(templates, a)
  {
    TemplateExactly(templates, a);
    hide ValidStore;
    if t :| t in templates && t.name == a {
      assert hot == t.minHotWorkers;
    }
  }

  /** A tick throws if and only if some algorithm without a template is requested more often than its workers, its
      jobs without a worker and its created jobs can serve. */
  lemma ThrownExactly(s: Snapshot, nodes: seq<NodeState>, list: seq<CreatedJob>, now: int, ttl: int, cap: nat)
    requires ValidStore(s.templates)
    ensures TickOf(s, nodes, list, now, ttl, cap).matching.failed.Some? <==>
              exists a :: (forall t :: t in s.templates ==> t.name != a) &&
                          RequestedOf(s, a) >
                            IdleOf(s, a) + PausedOf(s, a) + PendingOf(s, a) + RecentOf(list, now, ttl, a)
  {
    var recent := ClearCreatedJobs(list, now, ttl);
    var supply, total := SupplyFor(s, recent), TotalRequests(s.requests, s.templates);
    TickUnfolds(s, nodes, list, now, ttl, cap);
    MatchingUnfolds(s, recent);
    ThrowsExactly(supply, total, s.templates);
    hide TickOf, MatchingOf, ClearCreatedJobs, ValidStore, Count, SupplyOf, SupplyFor, Process, TotalRequests,
         IdleOf, PausedOf, PendingOf, RecentOf, RequestedOf;
    forall a
      ensures (forall t :: t in s.templates ==> t.name != a) <==> Lookup(s.templates, a).None?
      ensures Lookup(s.templates, a).None? ==> Count(total, RequestName, a) == RequestedOf(s, a)
      ensures SupplyOf(supply, a) ==
                IdleOf(s, a) + PausedOf(s, a) + PendingOf(s, a) + RecentOf(list, now, ttl, a)
    {
      TotalRequestsExact(s.requests, s.templates, a);
      SupplyCounts(s, list, now, ttl, a);
    }
  }

  // ---------------------------------------------------------------- first come, first served

  /** Taking the first worker of an algorithm out of a list. */
  lemma RemoveFirst(s: seq<Worker>, i: nat, a: string)
    requires i < |s| && forall k :: 0 <= k < i ==> s[k].algorithmName != s[i].algorithmName
    ensures GroupOf(s, a) == (if s[i].algorithmName == a then [s[i]] else []) + GroupOf(RemoveAt(s, i), a)
  {
    var p := (w: Worker) => w.algorithmName == a;
    var before, after := s[..i], s[i + 1..];
    SplitAt(s, i);
    hide Filter;
    if s[i].algorithmName == a {
      FilterNone(before, p);
    }
    AroundOne(before, s[i], after, p);
  }

  lemma AroundOne(before: seq<Worker>, w: Worker, after: seq<Worker>, p: Worker -> bool)
    requires p(w) ==> Filter(before, p) == []
    ensures Filter(before + ([w] + after), p) == (if p(w) then [w] else []) + Filter(before + after, p)
  {
    hide Filter;
    FilterConcat(before, [w] + after, p);
    FilterConcat([w], after, p);
    FilterConcat(before, after, p);
    FilterSingle(w, p);
    var kept, rest := Filter(before, p), Filter(after, p);
    assert [] + rest == rest && [] + (kept + rest) == kept + rest;
  }

  lemma GroupAppend(s: seq<Worker>, w: Worker, a: string)
    ensures GroupOf(s + [w], a) == GroupOf(s, a) + if w.algorithmName == a then [w] else []
  {
    var p := (w: Worker) => w.algorithmName == a;
    FilterConcat(s, [w], p);
    FilterSingle(w, p);
  }

  /** The workers of an algorithm that were used so far, followed by those that are left. */
  ghost predicate InOrder(supply: Supply, m: State, a: string) {
    && GroupOf(supply.idle, a) == GroupOf(m.served, a) + GroupOf(m.supply.idle, a)
    && GroupOf(supply.paused, a) == GroupOf(m.woken, a) + GroupOf(m.supply.paused, a)
  }

  lemma StepInOrder(supply: Supply, m: State, r: Request, templates: seq<Template>, a: string)
    requires InOrder(supply, m, a)
    ensures InOrder(supply, Step(m, r, templates), a)
  {
    hide GroupOf, RemoveAt, IndexOf, Lookup, ContainerResource, Count;
    var idle := IndexOf(m.supply.idle, WorkerName, r.algorithmName);
    var paused := IndexOf(m.supply.paused, WorkerName, r.algorithmName);
    if m.failed.None? && idle.Some? {
      MoveFirst(m.supply.idle, idle.value, m.served, a);
    } else if m.failed.None? && paused.Some? {
      MoveFirst(m.supply.paused, paused.value, m.woken, a);
    }
  }

  lemma MoveFirst(list: seq<Worker>, i: nat, used: seq<Worker>, a: string)
    requires i < |list| && forall k :: 0 <= k < i ==> WorkerName(list[k]) != WorkerName(list[i])
    ensures GroupOf(used + [list[i]], a) + GroupOf(RemoveAt(list, i), a) == GroupOf(used, a) + GroupOf(list, a)
  {
    hide GroupOf, RemoveAt;
    RemoveFirst(list, i, a);
    GroupAppend(used, list[i], a);
    JoinMiddle(GroupOf(used, a), if list[i].algorithmName == a then [list[i]] else [], GroupOf(RemoveAt(list, i), a));
  }

  lemma JoinMiddle(a: seq<Worker>, b: seq<Worker>, c: seq<Worker>)
    ensures a + b + c == a + (b + c)
  {
  }

  lemma StartsInOrder(supply: Supply, a: string)
    ensures InOrder(supply, Start(supply), a)
  {
    assert GroupOf([], a) == [];
    hide GroupOf;
    assert GroupOf(supply.idle, a) == [] + GroupOf(supply.idle, a);
    assert GroupOf(supply.paused, a) == [] + GroupOf(supply.paused, a);
  }

  lemma {:induction false} ProcessInOrder(supply: Supply, requests: seq<Request>, templates: seq<Template>, a: string)
    ensures InOrder(supply, Process(supply, requests, templates), a)
  {
    hide Step, GroupOf;
    if requests == [] {
      StartsInOrder(supply, a);
    } else {
      var init, last := requests[..|requests| - 1], requests[|requests| - 1];
      ProcessInOrder(supply, init, templates, a);
      StepInOrder(supply, Process(supply, init, templates), last, templates, a);
    }
  }

  /** The workers of the snapshot in their order, each joined with its job. */
  ghost predicate JoinedAll(s: Snapshot, joined: seq<Worker>) {
    |joined| == |s.workers| &&
    forall i :: 0 <= i < |joined| ==>
      joined[i] == s.workers[i].(job := joined[i].job) && JobIs(s.workers[i], s.jobs, joined[i].job)
  }

  lemma JoinedAllExactly(s: Snapshot, joined: seq<Worker>)
    ensures JoinedAll(s, joined) <==> joined == Merged(s.workers, s.jobs)
  {
    var merged := Merged(s.workers, s.jobs);
    forall i | 0 <= i < |s.workers| && i < |joined|
      ensures JobIs(s.workers[i], s.jobs, joined[i].job) <==> joined[i].job == merged[i].job
    {
      JobExactly(s.workers[i], s.jobs, joined[i].job);
    }
    forall i | 0 <= i < |s.workers| ensures JobIs(s.workers[i], s.jobs, merged[i].job) {
      JobExactly(s.workers[i], s.jobs, merged[i].job);
    }
    hide JobIs, JobOf, Merged;
  }

  lemma GroupSize(workers: seq<Worker>, a: string)
    ensures |GroupOf(workers, a)| == Count(workers, WorkerName, a)
  {
    CountFilter(workers, (w: Worker) => w.algorithmName == a, WorkerName, a);
    CountSame(GroupOf(workers, a), WorkerName, a);
  }

  lemma SupplyGroups(s: Snapshot, recent: seq<CreatedJob>, joined: seq<Worker>, a: string)
    requires JoinedAll(s, joined)
    ensures var supply := SupplyFor(s, recent);
      && GroupOf(supply.idle, a) == Filter(joined, (w: Worker) => IsIdle(w, a))
      && GroupOf(supply.paused, a) == Filter(joined, (w: Worker) => IsPaused(w, a))
  {
    JoinedAllExactly(s, joined);
    hide JoinedAll, Filter, Merged;
    FilterFilter(joined, IdleFilter, (w: Worker) => w.algorithmName == a, (w: Worker) => IsIdle(w, a));
    FilterFilter(joined, PausedFilter, (w: Worker) => w.algorithmName == a, (w: Worker) => IsPaused(w, a));
  }

  /** Within an algorithm the requests are served by the first ready workers of the snapshot, and the first paused
      ones are woken; the ready workers after those are the idle ones that are left, in their order. */
  lemma FirstComeFirstServed(s: Snapshot, nodes: seq<NodeState>, list: seq<CreatedJob>, now: int, ttl: int, cap: nat,
                             a: string, hot: int, joined: seq<Worker>)
    requires ValidStore(s.templates) && HotWanted(s.templates, a, hot) && JoinedAll(s, joined)
    ensures var t, demand := TickOf(s, nodes, list, now, ttl, cap), Max(RequestedOf(s, a), hot);
            var ready := Filter(joined, (w: Worker) => IsIdle(w, a));
            var asleep := Filter(joined, (w: Worker) => IsPaused(w, a));
            t.matching.failed.None? ==>
              && |ready| == IdleOf(s, a) && |asleep| == PausedOf(s, a)
              && var used, woken := Max(0, Min(demand, |ready|)), Max(0, Min(demand - |ready|, |asleep|));
              && Filter(t.matching.served, (w: Worker) => w.algorithmName == a) == ready[..used]
              && Filter(t.matching.supply.idle, (w: Worker) => w.algorithmName == a) == ready[used..]
              && Filter(t.matching.woken, (w: Worker) => w.algorithmName == a) == asleep[..woken]
  {
    hide TickOf, HotWanted, JoinedAll, ValidStore, IsIdle, IsPaused, Filter, Process, Count,
         ClearCreatedJobs, IdleOf, PausedOf, PendingOf, RecentOf, RequestedOf, SupplyFor, SupplyOf, TotalRequests;
    var recent := ClearCreatedJobs(list, now, ttl);
    var supply, m := SupplyFor(s, recent), MatchingOf(s, recent);
    TickMatching(s, nodes, list, now, ttl, cap);
    MatchedExactly(s, list, now, ttl, a, hot);
    SupplyCounts(s, list, now, ttl, a);
    SupplyGroups(s, recent, joined, a);
    ProcessInOrder(supply, TotalRequests(s.requests, s.templates), s.templates, a);
    GroupSize(supply.idle, a);
    GroupSize(supply.paused, a);
    GroupSize(m.served, a);
    GroupSize(m.woken, a);
  }

  // ---------------------------------------------------------------- candidates to stop

  /** What a candidate says about its worker: id, algorithm, pod, the node of its job, what its template asks for. */
  ghost predicate DetailIs(d: StopDetail, w: Worker, templates: seq<Template>) {
    && d.id == w.id && d.algorithmName == w.algorithmName && d.podName == w.podName
    && d.nodeName == (if w.job.Some? then w.job.value.nodeName else None)
    && Asking(templates, w.algorithmName, d.request)
  }

  lemma DetailExactly(d: StopDetail, w: Worker, templates: seq<Template>)
    requires ValidStore(templates)
    ensures DetailIs(d, w, templates) <==> d == Detail(w, templates)
  {
    TemplateExactly(templates, w.algorithmName);
    hide ValidStore, Asking, ContainerResource, Lookup;
  }

  /** A worker that is neither ready nor paused, of an algorithm of which no job was skipped. */
  ghost predicate BusyElsewhere(s: Snapshot, skipped: seq<JobDetails>, w: Worker) {
    && Joined(s, w) && w.workerStatus != "ready" && !w.workerPaused
    && forall j :: j in skipped ==> j.algorithmName != w.algorithmName
  }

  /** A worker may be stopped when it was left idle, or is busy for an algorithm of which no job was skipped, and
      its algorithm is not under debug. */
  ghost predicate Stoppable(s: Snapshot, skipped: seq<JobDetails>, idle: seq<Worker>, w: Worker) {
    && (w in idle || BusyElsewhere(s, skipped, w))
    && forall t :: t in s.templates && t.name == w.algorithmName ==> !t.debug
  }

  lemma StoppableExactly(s: Snapshot, skipped: seq<JobDetails>, idle: seq<Worker>, w: Worker)
    requires ValidStore(s.templates)
    ensures Stoppable(s, skipped, idle, w) <==>
              w in NotDebug(idle, s.templates) ||
              w in UnusedActive(ActiveWorkers(s), Algorithms(ActiveWorkers(s)), skipped, s.templates)
  {
    JoinedExactly(s, w);
    TemplateExactly(s.templates, w.algorithmName);
    hide Joined, Merged, ValidStore, Debug, Asking, HotWanted, NotDebug, UnusedActive, Algorithms, ContainerResource;
  }

  /** The candidates of a tick are exactly the workers that may be stopped, none at all when nothing was skipped. */
  lemma CandidatesExactly(s: Snapshot, skipped: seq<JobDetails>, idle: seq<Worker>, d: StopDetail)
    requires ValidStore(s.templates)
    ensures d in StopCandidates(skipped, idle, ActiveWorkers(s), s.templates) <==>
              skipped != [] && exists w :: Stoppable(s, skipped, idle, w) && DetailIs(d, w, s.templates)
  {
    forall w
      ensures DetailIs(d, w, s.templates) <==> d == Detail(w, s.templates)
      ensures Stoppable(s, skipped, idle, w) <==>
                w in NotDebug(idle, s.templates) ||
                w in UnusedActive(ActiveWorkers(s), Algorithms(ActiveWorkers(s)), skipped, s.templates)
    {
      DetailExactly(d, w, s.templates);
      StoppableExactly(s, skipped, idle, w);
    }
    hide Stoppable, DetailIs, Detail, Details, NotDebug, UnusedActive, Algorithms, ActiveWorkers, ValidStore;
  }

  function CandidateId(d: StopDetail): string { d.id }

  lemma {:induction false} UnusedCounts(active: seq<Worker>, names: seq<string>, skipped: seq<JobDetails>,
                                        templates: seq<Template>, w: Worker)
    requires Distinct(names)
    ensures multiset(UnusedActive(active, names, skipped, templates))[w] <= multiset(active)[w]
    ensures w.algorithmName !in names ==> multiset(UnusedActive(active, names, skipped, templates))[w] == 0
  {
    hide MayStop;
    if names != [] {
      var init, last := names[..|names| - 1], names[|names| - 1];
      assert names == init + [last];
      UnusedCounts(active, init, skipped, templates, w);
      FilterCounts(active, (v: Worker) => v.algorithmName == last, w);
      assert last !in init;
      hide GroupOf, Filter;
    }
  }

  lemma {:induction false} DetailsAt(workers: seq<Worker>, templates: seq<Template>)
    ensures |Details(workers, templates)| == |workers|
    ensures forall i :: 0 <= i < |workers| ==> Details(workers, templates)[i] == Detail(workers[i], templates)
  {
    hide Detail;
    if workers != [] {
      DetailsAt(workers[..|workers| - 1], templates);
    }
  }

  /** The workers that the candidates of a tick are made from, in the order of the candidates. */
  ghost function Sources(s: Snapshot, skipped: seq<JobDetails>, idle: seq<Worker>): seq<Worker> {
    NotDebug(idle, s.templates) +
    UnusedActive(ActiveWorkers(s), Algorithms(ActiveWorkers(s)), skipped, s.templates)
  }

  lemma SourcesOnce(s: Snapshot, recent: seq<CreatedJob>, skipped: seq<JobDetails>)
    requires DistinctBy(s.workers, WorkerId)
    ensures DistinctBy(Sources(s, skipped, MatchingOf(s, recent).supply.idle), WorkerId)
  {
    var idle, active, merged := MatchingOf(s, recent).supply.idle, ActiveWorkers(s), Merged(s.workers, s.jobs);
    var sources := Sources(s, skipped, idle);
    LeftIsIdle(s, recent);
    hide MatchingOf, Merged, Filter;
    forall w ensures multiset(sources)[w] <= multiset(merged)[w] {
      SourceCounts(merged, idle, active, skipped, s.templates, w);
    }
    assert DistinctBy(merged, WorkerId);
    hide DistinctBy, Sources, ActiveWorkers;
    SubsetIdsDistinct(sources, merged);
  }

  lemma LeftIsIdle(s: Snapshot, recent: seq<CreatedJob>)
    ensures multiset(MatchingOf(s, recent).supply.idle) <= multiset(Filter(Merged(s.workers, s.jobs), IdleFilter))
  {
    SupplyConserved(SupplyFor(s, recent), TotalRequests(s.requests, s.templates), s.templates);
    hide Merged, Filter, Process, TotalRequests, ExtraJobs;
  }

  lemma SourceCounts(merged: seq<Worker>, idle: seq<Worker>, active: seq<Worker>, skipped: seq<JobDetails>,
                     templates: seq<Template>, w: Worker)
    requires multiset(idle) <= multiset(Filter(merged, IdleFilter)) && active == Filter(merged, ActiveFilter)
    ensures var sources := NotDebug(idle, templates) + UnusedActive(active, Algorithms(active), skipped, templates);
            multiset(sources)[w] <= multiset(merged)[w]
  {
    UnusedCounts(active, Algorithms(active), skipped, templates, w);
    FilterCounts(merged, ActiveFilter, w);
    FilterCounts(merged, IdleFilter, w);
    FilterCounts(idle, (w: Worker) => !Debug(templates, w.algorithmName), w);
    assert multiset(idle)[w] <= multiset(Filter(merged, IdleFilter))[w];
    hide Filter, UnusedActive, Algorithms, Debug;
  }

  /** The list of candidates of a tick: one for each worker that may be stopped, those of workers left idle first. */
  ghost predicate CandidateList(s: Snapshot, skipped: seq<JobDetails>, idle: seq<Worker>, list: seq<StopDetail>) {
    && (forall d :: d in list <==>
          skipped != [] && exists w :: Stoppable(s, skipped, idle, w) && DetailIs(d, w, s.templates))
    && DistinctBy(list, CandidateId)
    && (forall i, j :: 0 <= i < j < |list| && (exists v :: v in idle && v.id == list[j].id) ==>
          exists v :: v in idle && v.id == list[i].id)
  }

  lemma CandidatesOnce(s: Snapshot, recent: seq<CreatedJob>, skipped: seq<JobDetails>)
    requires ValidStore(s.templates) && DistinctBy(s.workers, WorkerId)
    ensures var idle := MatchingOf(s, recent).supply.idle;
            CandidateList(s, skipped, idle, StopCandidates(skipped, idle, ActiveWorkers(s), s.templates))
  {
    var idle := MatchingOf(s, recent).supply.idle;
    hide MatchingOf, StopCandidates, Stoppable, DetailIs, ValidStore, ActiveWorkers, DistinctBy;
    CandidatesInOrder(s, recent, skipped);
    forall d { CandidatesExactly(s, skipped, idle, d); }
  }

  lemma CandidatesInOrder(s: Snapshot, recent: seq<CreatedJob>, skipped: seq<JobDetails>)
    requires DistinctBy(s.workers, WorkerId)
    ensures var idle := MatchingOf(s, recent).supply.idle;
            var list := StopCandidates(skipped, idle, ActiveWorkers(s), s.templates);
            && DistinctBy(list, CandidateId)
            && forall i, j :: 0 <= i < j < |list| && (exists v :: v in idle && v.id == list[j].id) ==>
                 exists v :: v in idle && v.id == list[i].id
  {
    var idle := MatchingOf(s, recent).supply.idle;
    var list := StopCandidates(skipped, idle, ActiveWorkers(s), s.templates);
    hide MatchingOf, StopCandidates, ActiveWorkers, UnusedActive, NotDebug, Algorithms, DistinctBy;
    SourcesOnce(s, recent, skipped);
    ListOfSources(s, skipped, idle);
    BusyAreNotIdle(s, recent);
    if skipped != [] {
      FirstPartFirst(NotDebug(idle, s.templates),
                     UnusedActive(ActiveWorkers(s), Algorithms(ActiveWorkers(s)), skipped, s.templates), idle, list);
    } else {
      NoneDistinct(list);
    }
  }

  lemma NoneDistinct(list: seq<StopDetail>)
    ensures list == [] ==> DistinctBy(list, CandidateId)
  {
  }

  lemma FirstPartFirst(first: seq<Worker>, second: seq<Worker>, idle: seq<Worker>, list: seq<StopDetail>)
    requires |list| == |first + second| && forall i :: 0 <= i < |list| ==> list[i].id == (first + second)[i].id
    requires (forall w :: w in first ==> w in idle) && forall v, w :: v in idle && w in second ==> v.id != w.id
    ensures DistinctBy(first + second, WorkerId) ==> DistinctBy(list, CandidateId)
    ensures forall i, j :: 0 <= i < j < |list| && (exists v :: v in idle && v.id == list[j].id) ==>
              exists v :: v in idle && v.id == list[i].id
  {
    forall k | |first| <= k < |list| ensures (first + second)[k] in second {
      assert (first + second)[k] == second[k - |first|];
    }
    forall k | 0 <= k < |first| ensures (first + second)[k] in idle {
      assert first[k] in first;
    }
  }

  lemma ListOfSources(s: Snapshot, skipped: seq<JobDetails>, idle: seq<Worker>)
    ensures var list, sources := StopCandidates(skipped, idle, ActiveWorkers(s), s.templates),
                                 Sources(s, skipped, idle);
            if skipped == [] then list == []
            else |list| == |sources| && forall i :: 0 <= i < |list| ==> list[i].id == sources[i].id
  {
    hide ActiveWorkers, UnusedActive, NotDebug, Details, ContainerResource;
    DetailsAt(NotDebug(idle, s.templates), s.templates);
    DetailsAt(UnusedActive(ActiveWorkers(s), Algorithms(ActiveWorkers(s)), skipped, s.templates), s.templates);
  }

  lemma BusyAreNotIdle(s: Snapshot, recent: seq<CreatedJob>)
    requires DistinctBy(s.workers, WorkerId)
    ensures forall v, w :: v in MatchingOf(s, recent).supply.idle && w in ActiveWorkers(s) ==> v.id != w.id
  {
    PoolMembers(s, recent);
    hide MatchingOf, Merged;
    forall v, w | v in MatchingOf(s, recent).supply.idle && w in ActiveWorkers(s) ensures v.id != w.id {
      SameId(Merged(s.workers, s.jobs), v, w);
    }
  }

  // ---------------------------------------------------------------- which ticks stop workers

  lemma {:induction false} NamesStay(nodes: seq<NodeState>, asks: seq<Ask>, cap: nat)
    ensures forall i :: 0 <= i < |nodes| ==> After(nodes, asks, cap).nodes[i].name == nodes[i].name
  {
    if asks != [] {
      NamesStay(nodes, asks[..|asks| - 1], cap);
      hide FirstHost;
    }
  }

  lemma CandidatesNonNegative(s: Snapshot, skipped: seq<JobDetails>, idle: seq<Worker>, list: seq<StopDetail>)
    requires ValidStore(s.templates) && CandidateList(s, skipped, idle, list)
    requires forall t :: t in s.templates ==> t.cpu >= 0.0 && t.gpu >= 0.0 && t.mem >= 0.0
    ensures NonNegativeRequests(list)
  {
    forall d | d in list ensures d.request.NonNegative() {
      var w :| Stoppable(s, skipped, idle, w) && DetailIs(d, w, s.templates);
      AskingNonNegative(s.templates, w.algorithmName, d.request);
    }
  }

  lemma AskingNonNegative(templates: seq<Template>, a: string, r: Amount)
    requires Asking(templates, a, r)
    requires forall t :: t in templates ==> t.cpu >= 0.0 && t.gpu >= 0.0 && t.mem >= 0.0
    ensures r.NonNegative()
  {
    if t :| t in templates && t.name == a {
    }
  }

  /** A tick stops some worker if and only if a skipped job would fit a node with its labels once the candidates of
      other algorithms on one such node were stopped. */
  lemma TickStopsExactly(s: Snapshot, nodes: seq<NodeState>, list: seq<CreatedJob>, now: int, ttl: int, cap: nat)
    returns (candidates: seq<StopDetail>)
    requires ValidStore(s.templates) && DistinctBy(s.workers, WorkerId) && DistinctBy(nodes, StateName)
    requires forall t :: t in s.templates ==> t.cpu >= 0.0 && t.gpu >= 0.0 && t.mem >= 0.0
    ensures var t := TickOf(s, nodes, list, now, ttl, cap);
            var skipped := SkippedJobs(t.run.log);
            if t.matching.failed.Some? then t.stop == []
            else
              && CandidateList(s, skipped, t.matching.supply.idle, candidates)
              && (t.stop != [] <==>
                    exists r, a, b :: r in skipped && a in t.run.nodes && b in t.run.nodes &&
                                      Serves(a, b, candidates, r))
  {
    var t, recent := TickOf(s, nodes, list, now, ttl, cap), ClearCreatedJobs(list, now, ttl);
    var skipped := SkippedJobs(t.run.log);
    candidates := StopCandidates(skipped, t.matching.supply.idle, ActiveWorkers(s), s.templates);
    TickUnfolds(s, nodes, list, now, ttl, cap);
    hide TickOf, MatchingOf, After, Asks, StopCandidates, ServeAll, SkippedJobs, CreatedJobs, ActiveWorkers, ValidStore,
         CandidateList, NonNegativeRequests, Serves, ClearCreatedJobs;
    if t.matching.failed.None? {
      CandidatesOnce(s, recent, skipped);
      CandidatesNonNegative(s, skipped, t.matching.supply.idle, candidates);
      NamesStay(nodes, Asks(t.matching.asked), cap);
      StopsExactly(Pause(t.run.nodes, candidates, []), skipped);
    }
  }

  /** Every stopped worker was left idle or is busy, its algorithm is not under debug and had no job skipped, and it
      neither served a request nor was woken; no worker is stopped twice. */
  lemma StoppedExactly(s: Snapshot, nodes: seq<NodeState>, list: seq<CreatedJob>, now: int, ttl: int, cap: nat,
                       d: StopDetail)
    returns (w: Worker)
    requires ValidStore(s.templates) && DistinctBy(s.workers, WorkerId)
    requires d in TickOf(s, nodes, list, now, ttl, cap).stop
    ensures var t := TickOf(s, nodes, list, now, ttl, cap);
      && Joined(s, w) && !w.workerPaused && DetailIs(d, w, s.templates)
      && (forall u :: u in s.templates && u.name == w.algorithmName ==> !u.debug)
      && (forall j :: j in SkippedJobs(t.run.log) ==> j.algorithmName != w.algorithmName)
      && (forall u :: u in t.matching.served || u in t.matching.woken ==> u.id != w.id)
      && DistinctBy(t.stop, CandidateId) && |t.stop| <= |SkippedJobs(t.run.log)|
  {
    var t := TickOf(s, nodes, list, now, ttl, cap);
    StopSafety(s, nodes, list, now, ttl, cap);
    hide TickOf, Merged, Joined, ValidStore, SkippedJobs, Asking, Detail;
    assert StopJustified(s, t, d);
    w :| w in Merged(s.workers, s.jobs) && d == Detail(w, s.templates) && (IdleFilter(w) || ActiveFilter(w));
    JoinedExactly(s, w);
    DetailExactly(d, w, s.templates);
    TemplateExactly(s.templates, w.algorithmName);
  }

  // ---------------------------------------------------------------- the jobs asked for

  function AskedOf(asked: seq<CreateDetail>, a: string): seq<CreateDetail> {
    Filter(asked, (d: CreateDetail) => d.job.algorithmName == a)
  }

  lemma AskedAppend(asked: seq<CreateDetail>, d: CreateDetail, a: string)
    ensures AskedOf(asked + [d], a) == AskedOf(asked, a) + if d.job.algorithmName == a then [d] else []
  {
    FilterConcat(asked, [d], (d: CreateDetail) => d.job.algorithmName == a);
    FilterSingle(d, (d: CreateDetail) => d.job.algorithmName == a);
    hide Filter;
  }

  lemma RequestsAppend(requests: seq<Request>, r: Request, a: string)
    ensures OfAlgorithm(requests + [r], a) == OfAlgorithm(requests, a) + if r.algorithmName == a then [r] else []
  {
    FilterConcat(requests, [r], (r: Request) => r.algorithmName == a);
    FilterSingle(r, (r: Request) => r.algorithmName == a);
    hide Filter;
  }

  lemma AskedSize(asked: seq<CreateDetail>, a: string)
    ensures |AskedOf(asked, a)| == Count(asked, DetailName, a)
  {
    CountFilter(asked, (d: CreateDetail) => d.job.algorithmName == a, DetailName, a);
    CountSame(AskedOf(asked, a), DetailName, a);
  }

  /** One job each for the requests beyond the first n. */
  ghost predicate ForRest(asked: seq<CreateDetail>, own: seq<Request>, n: nat, t: Option<Template>) {
    && |asked| == Max(0, |own| - n)
    && forall k :: 0 <= k < |asked| ==> t.Some? && asked[k] == CreateDetail(1, NewJob(t.value, own[n + k]))
  }

  /** The jobs asked for an algorithm belong to its requests beyond those that its supply serves. */
  lemma {:induction false} AskedForRest(supply: Supply, requests: seq<Request>, templates: seq<Template>, a: string)
    requires Process(supply, requests, templates).failed.None?
    ensures ForRest(AskedOf(Process(supply, requests, templates).asked, a), OfAlgorithm(requests, a),
                    SupplyOf(supply, a), Lookup(templates, a))
  {
    hide Step, SupplyOf, NewJob, AskedOf, OfAlgorithm, ForRest;
    AskedCount(supply, requests, templates, a);
    if requests == [] {
      NothingAsked(supply, templates, a);
    } else {
      var init, last := requests[..|requests| - 1], requests[|requests| - 1];
      var before, after := Process(supply, init, templates), Process(supply, requests, templates);
      var t := Lookup(templates, last.algorithmName);
      assert requests == init + [last];
      FailureSticks(before, last, templates);
      AskedForRest(supply, init, templates, a);
      RequestsAppend(init, last, a);
      AskedStep(before, last, templates);
      if after.asked != before.asked {
        NewJobName(t.value, last);
        AskedAppend(before.asked, CreateDetail(1, NewJob(t.value, last)), a);
      }
      OneMoreAsked(AskedOf(before.asked, a), OfAlgorithm(init, a), SupplyOf(supply, a), Lookup(templates, a),
                   AskedOf(after.asked, a), OfAlgorithm(requests, a), last);
    }
  }

  lemma NothingAsked(supply: Supply, templates: seq<Template>, a: string)
    ensures ForRest(AskedOf(Process(supply, [], templates).asked, a), OfAlgorithm([], a), SupplyOf(supply, a),
                    Lookup(templates, a))
  {
    assert OfAlgorithm([], a) == [];
    hide SupplyOf;
  }

  lemma OneMoreAsked(was: seq<CreateDetail>, had: seq<Request>, n: nat, t: Option<Template>,
                     asked: seq<CreateDetail>, own: seq<Request>, r: Request)
    requires ForRest(was, had, n, t) && |asked| == Max(0, |own| - n)
    requires own == had || own == had + [r]
    requires asked == was || (own == had + [r] && t.Some? && asked == was + [CreateDetail(1, NewJob(t.value, r))])
    ensures ForRest(asked, own, n, t)
  {
    hide NewJob;
    forall k | 0 <= k < |asked| ensures t.Some? && asked[k] == CreateDetail(1, NewJob(t.value, own[n + k])) {
      if k < |was| {
        assert asked[k] == was[k];
        assert own[n + k] == had[n + k];
      } else {
        assert n + k == |own| - 1;
        assert own[n + k] == r && asked[k] == CreateDetail(1, NewJob(t.value, r));
      }
    }
  }

  lemma AskedCount(supply: Supply, requests: seq<Request>, templates: seq<Template>, a: string)
    requires Process(supply, requests, templates).failed.None?
    ensures |AskedOf(Process(supply, requests, templates).asked, a)| ==
              Max(0, |OfAlgorithm(requests, a)| - SupplyOf(supply, a))
  {
    hide Process, Count, OfAlgorithm, AskedOf;
    ExactDemand(supply, requests, templates, a);
    GroupCount(requests, a);
    AskedSize(Process(supply, requests, templates).asked, a);
  }

  lemma AskedStep(m: State, r: Request, templates: seq<Template>)
    requires Step(m, r, templates).failed.None?
    ensures var next, t := Step(m, r, templates), Lookup(templates, r.algorithmName);
            next.asked == m.asked || (t.Some? && next.asked == m.asked + [CreateDetail(1, NewJob(t.value, r))])
  {
    hide RemoveAt, IndexOf, Lookup, Count, NewJob;
  }

  lemma NewJobName(t: Template, r: Request)
    ensures NewJob(t, r).algorithmName == r.algorithmName
  {
  }

  lemma OfAlgorithmConcat(x: seq<Request>, y: seq<Request>, a: string)
    ensures OfAlgorithm(x + y, a) == OfAlgorithm(x, a) + OfAlgorithm(y, a)
  {
    FilterConcat(x, y, (r: Request) => r.algorithmName == a);
    hide Filter;
  }

  lemma OfOneName(requests: seq<Request>, name: string, a: string)
    requires forall r :: r in requests ==> r.algorithmName == name
    ensures OfAlgorithm(requests, a) == if a == name then requests else []
  {
    if a == name {
      FilterAll(requests, (r: Request) => r.algorithmName == a);
    } else {
      FilterNone(requests, (r: Request) => r.algorithmName == a);
    }
  }

  lemma HotOfOneName(t: Template, requests: seq<Request>)
    requires t.minHotWorkers > 0
    ensures forall r :: r in HotRequestsOf(t, requests) ==> r.algorithmName == t.name
  {
    hide OfAlgorithm, Repeat;
  }

  lemma {:induction false} HotPartOf(store: seq<Template>, requests: seq<Request>, a: string)
    requires ValidStore(store) && forall t :: t in store ==> t.minHotWorkers > 0
    ensures !Listed(store, a) ==> OfAlgorithm(HotRequests(store, requests), a) == []
    ensures forall t :: t in store && t.name == a ==>
              OfAlgorithm(HotRequests(store, requests), a) == HotRequestsOf(t, requests)
  {
    hide Filter, HotRequestsOf, OfAlgorithm;
    if store == [] {
      OfOneName([], a, a);
    } else {
      var init, last := store[..|store| - 1], store[|store| - 1];
      assert store == init + [last];
      HotPartOf(init, requests, a);
      OfAlgorithmConcat(HotRequests(init, requests), HotRequestsOf(last, requests), a);
      HotOfOneName(last, requests);
      OfOneName(HotRequestsOf(last, requests), last.name, a);
      var before, more := OfAlgorithm(HotRequests(init, requests), a), HotRequestsOf(last, requests);
      assert before + [] == before && [] + more == more;
      if last.name == a {
        assert !Listed(init, a);
      } else {
        assert Listed(store, a) ==> Listed(init, a);
      }
    }
  }

  lemma UnlistedOf(store: seq<Template>, requests: seq<Request>, a: string)
    ensures OfAlgorithm(Unlisted(store, requests), a) == if Listed(store, a) then [] else OfAlgorithm(requests, a)
  {
    hide Listed;
    var p, q := (r: Request) => !Listed(store, r.algorithmName), (r: Request) => r.algorithmName == a;
    FilterFilter(requests, p, q, (r: Request) => p(r) && q(r));
    if Listed(store, a) {
      FilterNone(requests, (r: Request) => p(r) && q(r));
    } else {
      FilterFilter(requests, q, p, (r: Request) => p(r) && q(r));
      FilterAll(Filter(requests, q), p);
    }
  }

  /** The hot workers of an algorithm first, then its first requests. */
  ghost predicate Tops(all: seq<Request>, own: seq<Request>, hot: int, a: string) {
    && |all| == Max(|own|, hot)
    && forall k :: 0 <= k < |all| ==> all[k] == if k < hot then Request(a, true) else own[k - Max(0, hot)]
  }

  /** The requests of an algorithm once they are topped up. */
  lemma ToppedUp(requests: seq<Request>, templates: seq<Template>, a: string)
    requires ValidStore(templates)
    ensures Tops(OfAlgorithm(TotalRequests(requests, templates), a), OfAlgorithm(requests, a), MinHot(templates, a), a)
  {
    hide HotStore, MinHot, ValidStore, OfAlgorithm, HotRequests, Listed, HotRequestsOf, Unlisted, Tops;
    var store, own := HotStore(templates), OfAlgorithm(requests, a);
    HotStoreListed(templates, a);
    NothingToTop(own, MinHot(templates, a), a);
    if store == [] {
      NothingListed(a);
    } else {
      var hot := OfAlgorithm(HotRequests(store, requests), a);
      HotPartOf(store, requests, a);
      UnlistedOf(store, requests, a);
      OfAlgorithmConcat(HotRequests(store, requests), Unlisted(store, requests), a);
      assert hot + [] == hot && [] + own == own;
      if Listed(store, a) {
        ListedAs(store, a);
        var t :| t in store && t.name == a;
        HotFirst(t, requests);
      }
    }
  }

  lemma NothingToTop(own: seq<Request>, hot: int, a: string)
    ensures hot <= 0 ==> Tops(own, own, hot, a)
  {
  }

  lemma ListedAs(store: seq<Template>, a: string)
    requires Listed(store, a)
    ensures exists t :: t in store && t.name == a
  {
  }

  lemma HotFirst(t: Template, requests: seq<Request>)
    requires t.minHotWorkers > 0
    ensures Tops(HotRequestsOf(t, requests), OfAlgorithm(requests, t.name), t.minHotWorkers, t.name)
  {
    hide OfAlgorithm, Repeat;
    var hot := Repeat(Request(t.name, true), t.minHotWorkers);
    forall k | 0 <= k < |hot| ensures hot[k] == Request(t.name, true) {
      assert hot[k] in hot;
    }
  }

  ghost predicate WantsHot(templates: seq<Template>, a: string) {
    exists t :: t in templates && t.name == a && t.minHotWorkers > 0
  }

  lemma WantsHotExactly(templates: seq<Template>, a: string)
    ensures Listed(HotStore(templates), a) <==> WantsHot(templates, a)
  {
    hide Filter, HotStore;
  }

  lemma {:induction false} HotRequestsListed(store: seq<Template>, requests: seq<Request>)
    requires forall t :: t in store ==> t.minHotWorkers > 0
    ensures forall r :: r in HotRequests(store, requests) ==> Listed(store, r.algorithmName)
  {
    if store != [] {
      var init, last := store[..|store| - 1], store[|store| - 1];
      assert store == init + [last];
      HotRequestsListed(init, requests);
      HotOfOneName(last, requests);
      hide HotRequestsOf;
    }
  }

  /** The topped-up requests of algorithms that want hot workers come before all others; the others are the requests
      as they are, in their order. */
  lemma HotAlgorithmsFirst(requests: seq<Request>, templates: seq<Template>) returns (first: nat)
    ensures var all := TotalRequests(requests, templates);
      && first <= |all|
      && (forall i :: 0 <= i < first ==> WantsHot(templates, all[i].algorithmName))
      && all[first..] == Filter(requests, (r: Request) => !WantsHot(templates, r.algorithmName))
  {
    var store := HotStore(templates);
    forall a ensures Listed(store, a) <==> WantsHot(templates, a) { WantsHotExactly(templates, a); }
    HotRequestsListed(store, requests);
    hide HotStore, Listed, WantsHot, HotRequests;
    FilterSame(requests, (r: Request) => !Listed(store, r.algorithmName),
               (r: Request) => !WantsHot(templates, r.algorithmName));
    var hot := HotRequests(store, requests);
    if store == [] {
      forall a ensures !Listed(store, a) { NothingListed(a); }
      FilterAll(requests, (r: Request) => !WantsHot(templates, r.algorithmName));
      hide Filter;
      first := 0;
      assert requests[0..] == requests;
    } else {
      hide Filter;
      first := |hot|;
      forall i | 0 <= i < first ensures WantsHot(templates, TotalRequests(requests, templates)[i].algorithmName) {
        assert hot[i] in hot;
      }
    }
  }

  /** The k-th job asked for an algorithm: one job, with the resources and the selector of the template, hot when
      the demand it stands for is one of the hot workers, and as its request says otherwise. */
  lemma AskedExactly(s: Snapshot, nodes: seq<NodeState>, list: seq<CreatedJob>, now: int, ttl: int, cap: nat,
                     a: string, hot: int, k: nat)
    requires ValidStore(s.templates) && HotWanted(s.templates, a, hot)
    ensures var t := TickOf(s, nodes, list, now, ttl, cap);
            var asked := Filter(t.matching.asked, (d: CreateDetail) => d.job.algorithmName == a);
            var own := Filter(s.requests, (r: Request) => r.algorithmName == a);
            var supply := IdleOf(s, a) + PausedOf(s, a) + PendingOf(s, a) + RecentOf(list, now, ttl, a);
            t.matching.failed.None? ==>
              && |asked| == Max(0, Max(|own|, hot) - supply)
              && (k < |asked| ==>
                    && asked[k].numberOfNewJobs == 1 && Asking(s.templates, a, asked[k].job.request)
                    && (exists u :: u in s.templates && u.name == a && asked[k].job.nodeSelector == u.nodeSelector)
                    && asked[k].job.hotWorker ==
                         if supply + k < hot then true else own[supply + k - Max(0, hot)].hotWorker)
  {
    hide TickOf, HotWanted, ValidStore, Process, MinHot, OfAlgorithm, AskedOf, Lookup, Asking, Filter, ForRest, Tops,
         ClearCreatedJobs, IdleOf, PausedOf, PendingOf, RecentOf, SupplyFor, SupplyOf, TotalRequests;
    var recent := ClearCreatedJobs(list, now, ttl);
    TickMatching(s, nodes, list, now, ttl, cap);
    HotIsMinHot(s.templates, a, hot);
    SupplyCounts(s, list, now, ttl, a);
    AskedIsFilter(MatchingOf(s, recent).asked, s.requests, a);
    if MatchingOf(s, recent).failed.None? {
      ToppedUp(s.requests, s.templates, a);
      AskedForRest(SupplyFor(s, recent), TotalRequests(s.requests, s.templates), s.templates, a);
      AskedJob(AskedOf(MatchingOf(s, recent).asked, a), OfAlgorithm(TotalRequests(s.requests, s.templates), a),
               OfAlgorithm(s.requests, a), SupplyOf(SupplyFor(s, recent), a), hot, a, s.templates, k);
    }
  }

  lemma AskedJob(asked: seq<CreateDetail>, all: seq<Request>, own: seq<Request>, n: nat, hot: int, a: string,
                 templates: seq<Template>, k: nat)
    requires ValidStore(templates)
    requires ForRest(asked, all, n, Lookup(templates, a)) && Tops(all, own, hot, a)
    ensures |asked| == Max(0, Max(|own|, hot) - n)
    ensures k < |asked| ==>
              && asked[k].numberOfNewJobs == 1 && Asking(templates, a, asked[k].job.request)
              && (exists u :: u in templates && u.name == a && asked[k].job.nodeSelector == u.nodeSelector)
              && asked[k].job.hotWorker == if n + k < hot then true else own[n + k - Max(0, hot)].hotWorker
  {
    hide ValidStore, Lookup, Asking, NewJob;
    if k < |asked| {
      assert asked[k].numberOfNewJobs == 1;
      TemplateJob(templates, a, all[n + k]);
    }
  }

  lemma AskedIsFilter(asked: seq<CreateDetail>, requests: seq<Request>, a: string)
    ensures AskedOf(asked, a) == Filter(asked, (d: CreateDetail) => d.job.algorithmName == a)
    ensures OfAlgorithm(requests, a) == Filter(requests, (r: Request) => r.algorithmName == a)
  {
  }

  lemma TemplateJob(templates: seq<Template>, a: string, r: Request)
    requires ValidStore(templates) && Lookup(templates, a).Some?
    ensures var job := NewJob(Lookup(templates, a).value, r);
              && job.hotWorker == r.hotWorker && Asking(templates, a, job.request)
              && exists u :: u in templates && u.name == a && job.nodeSelector == u.nodeSelector
  {
    TemplateExactly(templates, a);
    hide ValidStore, Asking, ContainerResource;
  }

  // ---------------------------------------------------------------- hot workers

  lemma GroupConcat(x: seq<Worker>, y: seq<Worker>, a: string)
    ensures GroupOf(x + y, a) == GroupOf(x, a) + GroupOf(y, a)
  {
    FilterConcat(x, y, (w: Worker) => w.algorithmName == a);
    hide Filter;
  }

  lemma GroupOfOneName(workers: seq<Worker>, name: string, a: string)
    requires forall w :: w in workers ==> w.algorithmName == name
    ensures GroupOf(workers, a) == if a == name then workers else []
  {
    if a == name {
      FilterAll(workers, (w: Worker) => w.algorithmName == a);
    } else {
      FilterNone(workers, (w: Worker) => w.algorithmName == a);
    }
  }

  lemma {:induction false} CommandsOf(workers: seq<Worker>, templates: seq<Template>, names: seq<string>, a: string)
    requires Distinct(names)
    ensures GroupOf(WarmUpFor(workers, templates, names), a) ==
              if a in names then WarmUpOf(workers, templates, a) else []
    ensures GroupOf(CoolDownFor(workers, templates, names), a) ==
              if a in names then CoolDownOf(workers, templates, a) else []
  {
    hide GroupOf, WarmUpOf, CoolDownOf;
    if names == [] {
      GroupOfOneName([], a, a);
    } else {
      var init, last := names[..|names| - 1], names[|names| - 1];
      assert names == init + [last];
      CommandsOf(workers, templates, init, a);
      WarmUpOfMembers(workers, templates, last);
      CoolDownOfMembers(workers, templates, last);
      GroupOfOneName(WarmUpOf(workers, templates, last), last, a);
      GroupOfOneName(CoolDownOf(workers, templates, last), last, a);
      GroupConcat(WarmUpFor(workers, templates, init), WarmUpOf(workers, templates, last), a);
      GroupConcat(CoolDownFor(workers, templates, init), CoolDownOf(workers, templates, last), a);
      EmptyRight(GroupOf(WarmUpFor(workers, templates, init), a), WarmUpOf(workers, templates, last));
      EmptyRight(GroupOf(CoolDownFor(workers, templates, init), a), CoolDownOf(workers, templates, last));
    }
  }

  lemma EmptyRight(s: seq<Worker>, t: seq<Worker>)
    ensures s + [] == s && [] + t == t
  {
  }

  /** The commands to the workers of an algorithm: while fewer than wanted are hot, its first cold workers are warmed
      up, as many as are wanted in all; otherwise its first hot workers beyond that number are cooled down. */
  lemma CommandsExactly(workers: seq<Worker>, templates: seq<Template>, a: string, wanted: int)
    requires ValidStore(templates) && HotWanted(templates, a, wanted)
    ensures var hot := Filter(workers, (w: Worker) => w.algorithmName == a && w.hotWorker);
            var cold := Filter(workers, (w: Worker) => w.algorithmName == a && !w.hotWorker);
      && Filter(WarmUp(workers, templates), (w: Worker) => w.algorithmName == a) ==
           (if |hot| < wanted then cold[..Min(wanted, |cold|)] else [])
      && Filter(CoolDown(workers, templates), (w: Worker) => w.algorithmName == a) ==
           hot[..Max(0, Min(|hot| - wanted, |hot|))]
  {
    hide ValidStore, HotWanted, MinHot, Filter, GroupOf, Hot, Cold, WarmUp, CoolDown;
    HotIsMinHot(templates, a, wanted);
    HotAndCold(workers, a);
    CommandsOfAll(workers, templates, a);
  }

  lemma CommandsOfAll(workers: seq<Worker>, templates: seq<Template>, a: string)
    ensures Filter(WarmUp(workers, templates), (w: Worker) => w.algorithmName == a) == WarmUpOf(workers, templates, a)
    ensures Filter(CoolDown(workers, templates), (w: Worker) => w.algorithmName == a) ==
              CoolDownOf(workers, templates, a)
  {
    hide Filter, WarmUpFor, CoolDownFor, WarmUpOf, CoolDownOf, Hot, Algorithms;
    CommandsOf(workers, templates, Algorithms(workers), a);
    CommandsOf(workers, templates, Algorithms(Hot(workers)), a);
    NoCommands(workers, templates, a);
  }

  lemma HotAndCold(workers: seq<Worker>, a: string)
    ensures var hot := Filter(workers, (w: Worker) => w.algorithmName == a && w.hotWorker);
            && Hot(GroupOf(workers, a)) == hot && GroupOf(Hot(workers), a) == hot
            && Cold(GroupOf(workers, a)) == Filter(workers, (w: Worker) => w.algorithmName == a && !w.hotWorker)
  {
    hide Filter;
    FilterFilter(workers, (w: Worker) => w.algorithmName == a, (w: Worker) => w.hotWorker,
                 (w: Worker) => w.algorithmName == a && w.hotWorker);
    FilterFilter(workers, (w: Worker) => w.algorithmName == a, (w: Worker) => !w.hotWorker,
                 (w: Worker) => w.algorithmName == a && !w.hotWorker);
    FilterFilter(workers, (w: Worker) => w.hotWorker, (w: Worker) => w.algorithmName == a,
                 (w: Worker) => w.algorithmName == a && w.hotWorker);
  }

  lemma NoCommands(workers: seq<Worker>, templates: seq<Template>, a: string)
    ensures a !in Algorithms(workers) ==> WarmUpOf(workers, templates, a) == []
    ensures a !in Algorithms(Hot(workers)) ==> CoolDownOf(workers, templates, a) == []
  {
    WarmUpOfMembers(workers, templates, a);
    CoolDownOfMembers(workers, templates, a);
    hide WarmUpOf, Algorithms, Hot, GroupOf;
    var warm := WarmUpOf(workers, templates, a);
    if warm != [] {
      assert warm[0] in warm && warm[0].algorithmName in Algorithms(workers);
    }
    var group := GroupOf(Hot(workers), a);
    if group != [] {
      assert group[0] in group;
    }
  }
}
