/** Matching of the requests of one tick against the supply of workers and jobs
    (task-executor, lib/reconcile/reconciler.js, _processAllRequests). */
module Matching {
  import opened Collections
  import opened Resources
  import opened Demand

  /** The worker and job lists of one tick, spliced while requests are matched. */
  datatype Supply = Supply(
    idle: seq<Worker>, paused: seq<Worker>, pending: seq<ClusterJob>, recent: seq<CreatedJob>)

  /** The lists, the idle workers that serve a request, the paused workers that were sent a start
      command, the jobs to create, and the algorithm without a template that made the loop throw. */
  datatype State = State(
    supply: Supply, served: seq<Worker>, woken: seq<Worker>, asked: seq<CreateDetail>, failed: Option<string>)

  function Start(supply: Supply): State { State(supply, [], [], [], None) }

  /** findIndex(w => w.algorithmName === a) */
  function IndexOf<T(!new)>(s: seq<T>, name: T -> string, a: string): (r: Option<nat>)
    ensures r.Some? ==> r.value < |s| && name(s[r.value]) == a && Count(s, name, a) > 0
    ensures r.Some? ==> forall k :: 0 <= k < r.value ==> name(s[k]) != a
    ensures r.None? ==> Count(s, name, a) == 0
  {
    CountPositive(s, name, a);
    var r := Find(s, x => name(x) == a);
    assert r.Some? ==> s[r.value] in s;
    r
  }

  /** createContainerResource: a missing or zero cpu or memory takes the default. */
  function ContainerResource(t: Option<Template>): Amount {
    if t.None? then Amount(0.1, 0.0, 4.0)
    else Amount(if t.value.cpu == 0.0 then 0.1 else t.value.cpu, t.value.gpu,
                if t.value.mem == 0.0 then 4.0 else t.value.mem)
  }

  function NewJob(t: Template, r: Request): JobDetails {
    JobDetails(r.algorithmName, ContainerResource(Some(t)), t.nodeSelector, r.hotWorker)
  }

  function Step(m: State, r: Request, templates: seq<Template>): State {
    var a := r.algorithmName;
    var idle, paused := IndexOf(m.supply.idle, WorkerName, a), IndexOf(m.supply.paused, WorkerName, a);
    var pending, recent := IndexOf(m.supply.pending, JobName, a), IndexOf(m.supply.recent, CreatedName, a);
    var t := Lookup(templates, a);
    if m.failed.Some? then m
    else if idle.Some? then
      m.(supply := m.supply.(idle := RemoveAt(m.supply.idle, idle.value)),
         served := m.served + [m.supply.idle[idle.value]])
    else if paused.Some? then
      m.(supply := m.supply.(paused := RemoveAt(m.supply.paused, paused.value)),
         woken := m.woken + [m.supply.paused[paused.value]])
    else if pending.Some? then
      m.(supply := m.supply.(pending := RemoveAt(m.supply.pending, pending.value)))
    else if recent.Some? then
      m.(supply := m.supply.(recent := RemoveAt(m.supply.recent, recent.value)))
    else if t.None? then m.(failed := Some(a))
    else m.(asked := m.asked + [CreateDetail(1, NewJob(t.value, r))])
  }

  function Process(supply: Supply, requests: seq<Request>, templates: seq<Template>): State {
    if requests == [] then Start(supply)
    else Step(Process(supply, requests[..|requests| - 1], templates), requests[|requests| - 1], templates)
  }

  // ---------------------------------------------------------------- exact demand

  /** What each list holds for one algorithm. */
  datatype Tally = Tally(idle: nat, paused: nat, pending: nat, recent: nat, served: nat, woken: nat, asked: nat)

  function TallyOf(m: State, a: string): Tally {
    Tally(Count(m.supply.idle, WorkerName, a), Count(m.supply.paused, WorkerName, a),
          Count(m.supply.pending, JobName, a), Count(m.supply.recent, CreatedName, a),
          Count(m.served, WorkerName, a), Count(m.woken, WorkerName, a), Count(m.asked, DetailName, a))
  }

  function SupplyOf(s: Supply, a: string): nat {
    Count(s.idle, WorkerName, a) + Count(s.paused, WorkerName, a) +
    Count(s.pending, JobName, a) + Count(s.recent, CreatedName, a)
  }

  /** x within 0 and hi */
  function Clamp(x: int, hi: nat): nat { Max(0, Min(x, hi)) }

  /** The tally after a demand of d was matched: idle workers first, then paused workers, then pending
      jobs, then recently created jobs, and what is left is asked for. */
  function Matched(t: Tally, d: nat): Tally {
    var paused, pending, recent := d - t.idle, d - t.idle - t.paused, d - t.idle - t.paused - t.pending;
    Tally(t.idle - Clamp(d, t.idle), t.paused - Clamp(paused, t.paused),
          t.pending - Clamp(pending, t.pending), t.recent - Clamp(recent, t.recent),
          Clamp(d, t.idle), Clamp(paused, t.paused),
          Max(0, d - t.idle - t.paused - t.pending - t.recent))
  }

  /** One request takes from the first list that is not empty. */
  function OneMore(t: Tally): Tally {
    if t.idle > 0 then t.(idle := t.idle - 1, served := t.served + 1)
    else if t.paused > 0 then t.(paused := t.paused - 1, woken := t.woken + 1)
    else if t.pending > 0 then t.(pending := t.pending - 1)
    else if t.recent > 0 then t.(recent := t.recent - 1)
    else t.(asked := t.asked + 1)
  }

  lemma MatchedOneMore(t: Tally, d: nat)
    ensures OneMore(Matched(t, d)) == Matched(t, d + 1)
  {
  }

  lemma CountAppend<T(!new)>(s: seq<T>, x: T, name: T -> string, a: string)
    ensures Count(s + [x], name, a) == Count(s, name, a) + if name(x) == a then 1 else 0
  {
    CountConcat(s, [x], name, a);
    assert [x][1..] == [];
  }

  lemma StepTally(m: State, r: Request, templates: seq<Template>, a: string)
    requires m.failed.None? && Step(m, r, templates).failed.None?
    ensures TallyOf(Step(m, r, templates), a) ==
              if a == r.algorithmName then OneMore(TallyOf(m, a)) else TallyOf(m, a)
  {
    var s, b := m.supply, r.algorithmName;
    var idle, paused := IndexOf(s.idle, WorkerName, b), IndexOf(s.paused, WorkerName, b);
    var pending, recent := IndexOf(s.pending, JobName, b), IndexOf(s.recent, CreatedName, b);
    hide Count, IndexOf, RemoveAt, ContainerResource;
    if idle.Some? {
      CountRemoveAt(s.idle, idle.value, WorkerName, a);
      CountAppend(m.served, s.idle[idle.value], WorkerName, a);
    } else if paused.Some? {
      CountRemoveAt(s.paused, paused.value, WorkerName, a);
      CountAppend(m.woken, s.paused[paused.value], WorkerName, a);
    } else if pending.Some? {
      CountRemoveAt(s.pending, pending.value, JobName, a);
    } else if recent.Some? {
      CountRemoveAt(s.recent, recent.value, CreatedName, a);
    } else {
      CountAppend(m.asked, CreateDetail(1, NewJob(Lookup(templates, b).value, r)), DetailName, a);
    }
  }

  /** Exact demand: with d requests for an algorithm, max(0, d - idle - paused - pending - recent) jobs
      are asked for, clamp(d - idle, 0, paused) workers are woken, and every list loses exactly what was
      matched against it. */
  lemma {:induction false} ExactDemand(supply: Supply, requests: seq<Request>, templates: seq<Template>, a: string)
    requires Process(supply, requests, templates).failed.None?
    ensures TallyOf(Process(supply, requests, templates), a) ==
              Matched(TallyOf(Start(supply), a), Count(requests, RequestName, a))
  {
    hide Step, TallyOf, Matched, OneMore;
    if requests == [] {
      StartTally(supply, a);
    } else {
      var init, last := requests[..|requests| - 1], requests[|requests| - 1];
      var m := Process(supply, init, templates);
      FailureSticks(m, last, templates);
      ExactDemand(supply, init, templates, a);
      StepTally(m, last, templates, a);
      CountAppend(init, last, RequestName, a);
      assert requests == init + [last];
      MatchedOneMore(TallyOf(Start(supply), a), Count(init, RequestName, a));
    }
  }

  lemma StartTally(supply: Supply, a: string)
    ensures Matched(TallyOf(Start(supply), a), 0) == TallyOf(Start(supply), a)
  {
    hide Matched;
    MatchedNothing(TallyOf(Start(supply), a));
  }

  lemma MatchedNothing(t: Tally)
    requires t.served == t.woken == t.asked == 0
    ensures Matched(t, 0) == t
  {
  }

  lemma FailureSticks(m: State, r: Request, templates: seq<Template>)
    ensures m.failed.Some? ==> Step(m, r, templates) == m
  {
  }

  // ---------------------------------------------------------------- when the loop throws

  /** Jobs are asked for one at a time, with the resources and the selector of their template. */
  ghost predicate AskedFromTemplate(d: CreateDetail, templates: seq<Template>) {
    var t := Lookup(templates, DetailName(d));
    t.Some? && d.numberOfNewJobs == 1 && d.job.request == ContainerResource(t)
    && d.job.nodeSelector == t.value.nodeSelector
  }

  lemma {:induction false} AskedFromTemplates(supply: Supply, requests: seq<Request>, templates: seq<Template>)
    ensures forall d :: d in Process(supply, requests, templates).asked ==> AskedFromTemplate(d, templates)
  {
    if requests != [] {
      AskedFromTemplates(supply, requests[..|requests| - 1], templates);
      hide Process, IndexOf, ContainerResource;
    }
  }

  lemma LoopThrew(supply: Supply, requests: seq<Request>, templates: seq<Template>, r: Request)
    requires var m := Process(supply, requests, templates);
             m.failed.None? && Step(m, r, templates).failed == Some(r.algorithmName)
    ensures Lookup(templates, r.algorithmName).None?
    ensures Count(requests, RequestName, r.algorithmName) >= SupplyOf(supply, r.algorithmName)
  {
    ExactDemand(supply, requests, templates, r.algorithmName);
    hide Count, Process, RemoveAt;
  }

  lemma {:induction false} ThrewFor(supply: Supply, requests: seq<Request>, templates: seq<Template>)
    requires Process(supply, requests, templates).failed.Some?
    ensures var a := Process(supply, requests, templates).failed.value;
            Lookup(templates, a).None? && Count(requests, RequestName, a) > SupplyOf(supply, a)
  {
    if requests != [] {
      var init, last := requests[..|requests| - 1], requests[|requests| - 1];
      assert requests == init + [last];
      var m := Process(supply, init, templates);
      hide Count, SupplyOf;
      if m.failed.Some? {
        ThrewFor(supply, init, templates);
        CountAppend(init, last, RequestName, m.failed.value);
      } else {
        LoopThrew(supply, init, templates, last);
        CountAppend(init, last, RequestName, last.algorithmName);
      }
    }
  }

  /** The loop throws exactly when an algorithm without a template is asked for more often than the
      lists can serve. */
  lemma ThrowsExactly(supply: Supply, requests: seq<Request>, templates: seq<Template>)
    ensures Process(supply, requests, templates).failed.Some? <==>
              exists a :: Lookup(templates, a).None? && Count(requests, RequestName, a) > SupplyOf(supply, a)
  {
    var m := Process(supply, requests, templates);
    if m.failed.Some? {
      ThrewFor(supply, requests, templates);
    } else {
      AskedFromTemplates(supply, requests, templates);
      forall a | Lookup(templates, a).None? ensures Count(requests, RequestName, a) <= SupplyOf(supply, a) {
        ExactDemand(supply, requests, templates, a);
        CountPositive(m.asked, DetailName, a);
        hide Process, Count;
      }
    }
  }

  // ---------------------------------------------------------------- conservation

  /** Every worker is in its list still or was used once. */
  ghost predicate Conserved(supply: Supply, m: State) {
    && multiset(supply.idle) == multiset(m.supply.idle) + multiset(m.served)
    && multiset(supply.paused) == multiset(m.supply.paused) + multiset(m.woken)
    && multiset(m.supply.pending) <= multiset(supply.pending)
    && multiset(m.supply.recent) <= multiset(supply.recent)
  }

  lemma StepConserved(supply: Supply, m: State, r: Request, templates: seq<Template>)
    requires Conserved(supply, m)
    ensures Conserved(supply, Step(m, r, templates))
  {
    hide IndexOf, RemoveAt, ContainerResource, Lookup, Count;
  }

  lemma {:induction false} SupplyConserved(supply: Supply, requests: seq<Request>, templates: seq<Template>)
    ensures Conserved(supply, Process(supply, requests, templates))
  {
    if requests != [] {
      var init := requests[..|requests| - 1];
      SupplyConserved(supply, init, templates);
      StepConserved(supply, Process(supply, init, templates), requests[|requests| - 1], templates);
    }
  }

  // ---------------------------------------------------------------- _processAllRequests

  /** The four lists that _processAllRequests splices in place. */
  class Pools {
    var idleWorkers: seq<Worker>
    var pausedWorkers: seq<Worker>
    var pendingWorkers: seq<ClusterJob>
    var jobsCreated: seq<CreatedJob>

    constructor (idle: seq<Worker>, paused: seq<Worker>, pending: seq<ClusterJob>, recent: seq<CreatedJob>)
      ensures Contents() == Supply(idle, paused, pending, recent)
    {
      idleWorkers, pausedWorkers, pendingWorkers, jobsCreated := idle, paused, pending, recent;
    }

    function Contents(): Supply
      reads this
    {
      Supply(idleWorkers, pausedWorkers, pendingWorkers, jobsCreated)
    }

    /** One turn of the loop; required counts the jobs asked for per algorithm. */
    method ProcessRequest(r: Request, algorithmTemplates: seq<Template>, woken: seq<Worker>,
                          createDetails: seq<CreateDetail>, required: map<string, nat>, ghost served: seq<Worker>)
      returns (woken': seq<Worker>, createDetails': seq<CreateDetail>, required': map<string, nat>,
               thrown: Option<string>, ghost served': seq<Worker>)
      requires Tallies(required, createDetails)
      modifies this
      ensures Step(State(old(Contents()), served, woken, createDetails, None), r, algorithmTemplates) ==
                State(Contents(), served', woken', createDetails', thrown)
      ensures Tallies(required', createDetails')
    {
      woken', createDetails', required', thrown, served' := woken, createDetails, required, None, served;
      var algorithmName := r.algorithmName;
      hide Count;
      var idleWorkerIndex := IndexOf(idleWorkers, WorkerName, algorithmName);
      if idleWorkerIndex.Some? {
        served' := served + [idleWorkers[idleWorkerIndex.value]];
        idleWorkers := RemoveAt(idleWorkers, idleWorkerIndex.value);
        return;
      }
      var pausedWorkerIndex := IndexOf(pausedWorkers, WorkerName, algorithmName);
      if pausedWorkerIndex.Some? {
        woken' := woken + [pausedWorkers[pausedWorkerIndex.value]];
        pausedWorkers := RemoveAt(pausedWorkers, pausedWorkerIndex.value);
        return;
      }
      var pendingWorkerIndex := IndexOf(pendingWorkers, JobName, algorithmName);
      if pendingWorkerIndex.Some? {
        pendingWorkers := RemoveAt(pendingWorkers, pendingWorkerIndex.value);
        return;
      }
      var jobsCreatedIndex := IndexOf(jobsCreated, CreatedName, algorithmName);
      if jobsCreatedIndex.Some? {
        jobsCreated := RemoveAt(jobsCreated, jobsCreatedIndex.value);
        return;
      }
      var algorithmTemplate := Lookup(algorithmTemplates, algorithmName);
      if algorithmTemplate.None? {
        thrown := Some(algorithmName);
        return;
      }
      var detail := CreateDetail(1, NewJob(algorithmTemplate.value, r));
      createDetails' := createDetails + [detail];
      TalliesStep(required, createDetails, detail);
      required' := required[algorithmName := if algorithmName in required then required[algorithmName] + 1 else 1];
    }

    /** _processAllRequests */
    method ProcessAllRequests(normRequests: seq<Request>, algorithmTemplates: seq<Template>)
      returns (woken: seq<Worker>, createDetails: seq<CreateDetail>, required: map<string, nat>,
               thrown: Option<string>, ghost served: seq<Worker>)
      modifies this
      ensures Process(old(Contents()), normRequests, algorithmTemplates) ==
                State(Contents(), served, woken, createDetails, thrown)
      ensures Tallies(required, createDetails)
    {
      woken, createDetails, required, thrown, served := [], [], map[], None, [];
      ghost var start := Contents();
      hide Step, Tallies;
      TalliesStart();
      var i := 0;
      while i < |normRequests| && thrown.None?
        invariant i <= |normRequests|
        invariant Process(start, normRequests[..i], algorithmTemplates) ==
                    State(Contents(), served, woken, createDetails, thrown)
        invariant Tallies(required, createDetails)
      {
        assert normRequests[..i + 1][..i] == normRequests[..i];
        woken, createDetails, required, thrown, served :=
          ProcessRequest(normRequests[i], algorithmTemplates, woken, createDetails, required, served);
        i := i + 1;
      }
      RestIgnored(start, normRequests, algorithmTemplates, i);
    }
  }

  /** reconcileResult[a].required is the number of details for a. */
  ghost predicate Tallies(required: map<string, nat>, details: seq<CreateDetail>) {
    forall a :: (a in required <==> Count(details, DetailName, a) > 0)
             && (a in required ==> required[a] == Count(details, DetailName, a))
  }

  lemma TalliesStart()
    ensures Tallies(map[], [])
  {
  }

  lemma TalliesStep(required: map<string, nat>, details: seq<CreateDetail>, d: CreateDetail)
    requires Tallies(required, details)
    ensures var a := DetailName(d);
            Tallies(required[a := if a in required then required[a] + 1 else 1], details + [d])
  {
    forall a { CountAppend(details, d, DetailName, a); }
  }

  /** After a throw the rest of the requests is not looked at. */
  lemma {:induction false} RestIgnored(supply: Supply, requests: seq<Request>, templates: seq<Template>, i: nat)
    requires i <= |requests|
    requires i == |requests| || Process(supply, requests[..i], templates).failed.Some?
    ensures Process(supply, requests, templates) == Process(supply, requests[..i], templates)
  {
    if i == |requests| {
      assert requests[..i] == requests;
    } else {
      var init := requests[..|requests| - 1];
      assert init[..i] == requests[..i];
      RestIgnored(supply, init, templates, i);
      FailureSticks(Process(supply, init, templates), requests[|requests| - 1], templates);
    }
  }
}
