/** From queue requests to the jobs one tick asks for
    (task-executor, lib/reconcile/normalize.js and reconciler.js). */
module Demand {
  import opened Collections
  import opened Resources

  // ---------------------------------------------------------------- data model

  /** One entry of algorithmTemplates; an absent minHotWorkers, cpu, gpu or mem is 0. */
  datatype Template = Template(
    name: string, cpu: real, gpu: real, mem: real, minHotWorkers: int, nodeSelector: Option<Labels>, debug: bool)

  datatype Request = Request(algorithmName: string, hotWorker: bool)

  /** A Kubernetes job that has not succeeded. */
  datatype ClusterJob = ClusterJob(name: string, algorithmName: string, nodeName: Option<string>)

  datatype Worker = Worker(
    id: string, algorithmName: string, workerStatus: string, workerPaused: bool, hotWorker: bool,
    podName: Option<string>, job: Option<ClusterJob>)

  function RequestName(r: Request): string { r.algorithmName }
  function WorkerName(w: Worker): string { w.algorithmName }
  function JobName(j: ClusterJob): string { j.algorithmName }
  function TemplateName(t: Template): string { t.name }
  function CreatedName(c: CreatedJob): string { c.job.algorithmName }
  function DetailName(d: CreateDetail): string { d.job.algorithmName }

  /** The entries of an object have distinct keys. */
  ghost predicate ValidStore(templates: seq<Template>) { DistinctBy(templates, TemplateName) }

  /** algorithmTemplates[name] */
  function Lookup(templates: seq<Template>, name: string): (t: Option<Template>)
    ensures t.Some? ==> t.value in templates && t.value.name == name
    ensures t.None? ==> forall i :: 0 <= i < |templates| ==> templates[i].name != name
  {
    var at := Find(templates, (t: Template) => t.name == name);
    if at.None? then None else Some(templates[at.value])
  }

  // ---------------------------------------------------------------- hot requests

  function MinHot(templates: seq<Template>, name: string): int {
    var t := Lookup(templates, name);
    if t.None? then 0 else t.value.minHotWorkers
  }

  function OfAlgorithm(requests: seq<Request>, name: string): (r: seq<Request>)
    ensures forall x :: x in r <==> x in requests && x.algorithmName == name
  {
    Filter(requests, (r: Request) => r.algorithmName == name)
  }

  function HotStore(templates: seq<Template>): (r: seq<Template>)
    ensures forall t :: t in r <==> t in templates && t.minHotWorkers > 0
  {
    Filter(templates, (t: Template) => t.minHotWorkers > 0)
  }

  /** new Array(n).fill(r) */
  function Repeat(r: Request, n: nat): (s: seq<Request>)
    ensures |s| == n && forall x :: x in s ==> x == r
  {
    if n == 0 then [] else Repeat(r, n - 1) + [r]
  }

  /** Its hot workers first, then the requests beyond that number. */
  function HotRequestsOf(t: Template, requests: seq<Request>): seq<Request>
    requires t.minHotWorkers > 0
  {
    var group := OfAlgorithm(requests, t.name);
    Repeat(Request(t.name, true), t.minHotWorkers) +
    if |group| > t.minHotWorkers then group[..|group| - t.minHotWorkers] else []
  }

  function HotRequests(store: seq<Template>, requests: seq<Request>): seq<Request>
    requires forall t :: t in store ==> t.minHotWorkers > 0
  {
    if store == [] then []
    else HotRequests(store[..|store| - 1], requests) + HotRequestsOf(store[|store| - 1], requests)
  }

  predicate Listed(store: seq<Template>, name: string) {
    exists t :: t in store && t.name == name
  }

  function Unlisted(store: seq<Template>, requests: seq<Request>): (r: seq<Request>)
    ensures forall x :: x in r <==> x in requests && !Listed(store, x.algorithmName)
  {
    Filter(requests, (r: Request) => !Listed(store, r.algorithmName))
  }

  function TotalRequests(requests: seq<Request>, templates: seq<Template>): seq<Request> {
    var store := HotStore(templates);
    if store == [] then requests else HotRequests(store, requests) + Unlisted(store, requests)
  }

  lemma HotRequestsOfCount(t: Template, requests: seq<Request>, a: string)
    requires t.minHotWorkers > 0
    ensures Count(HotRequestsOf(t, requests), RequestName, a) ==
              if t.name == a then Max(Count(requests, RequestName, a), t.minHotWorkers) else 0
  {
    var group := OfAlgorithm(requests, t.name);
    var hot := Repeat(Request(t.name, true), t.minHotWorkers);
    var extra := if |group| > t.minHotWorkers then group[..|group| - t.minHotWorkers] else [];
    CountConcat(hot, extra, RequestName, a);
    GroupCount(requests, t.name);
    hide Count, OfAlgorithm, Repeat;
    OneName(hot, t.name, a);
    OneName(extra, t.name, a);
  }

  lemma OneName(requests: seq<Request>, name: string, a: string)
    requires forall r :: r in requests ==> r.algorithmName == name
    ensures Count(requests, RequestName, a) == if a == name then |requests| else 0
  {
    if a == name {
      CountSame(requests, RequestName, a);
    } else {
      CountNone(requests, RequestName, a);
    }
  }

  lemma GroupCount(requests: seq<Request>, name: string)
    ensures |OfAlgorithm(requests, name)| == Count(requests, RequestName, name)
  {
    CountFilter(requests, (r: Request) => r.algorithmName == name, RequestName, name);
    CountSame(OfAlgorithm(requests, name), RequestName, name);
  }

  lemma {:induction false} HotRequestsCount(store: seq<Template>, requests: seq<Request>, a: string)
    requires ValidStore(store) && forall t :: t in store ==> t.minHotWorkers > 0
    ensures !Listed(store, a) ==> Count(HotRequests(store, requests), RequestName, a) == 0
    ensures forall t :: t in store && t.name == a ==>
              Count(HotRequests(store, requests), RequestName, a) ==
                Max(Count(requests, RequestName, a), t.minHotWorkers)
  {
    if store != [] {
      var init, last := store[..|store| - 1], store[|store| - 1];
      assert store == init + [last];
      HotRequestsCount(init, requests, a);
      HotRequestsOfCount(last, requests, a);
      CountConcat(HotRequests(init, requests), HotRequestsOf(last, requests), RequestName, a);
      if last.name == a {
        assert !Listed(init, a);
      } else {
        assert Listed(store, a) ==> Listed(init, a);
      }
    }
  }

  /** The demand for an algorithm is its requests topped up to its hot workers. */
  lemma TotalRequestsExact(requests: seq<Request>, templates: seq<Template>, a: string)
    requires ValidStore(templates)
    ensures Count(TotalRequests(requests, templates), RequestName, a) ==
              Max(Count(requests, RequestName, a), MinHot(templates, a))
  {
    hide HotStore, MinHot, ValidStore, Count, HotRequests, Listed, Unlisted;
    var store := HotStore(templates);
    HotStoreListed(templates, a);
    if store == [] {
      assert !Listed(store, a) by { NothingListed(a); }
    } else {
      HotPartCount(templates, requests, a);
      CountConcat(HotRequests(store, requests), Unlisted(store, requests), RequestName, a);
      UnlistedCount(store, requests, a);
    }
  }

  lemma NothingListed(a: string)
    ensures !Listed([], a)
  {
  }

  lemma HotPartCount(templates: seq<Template>, requests: seq<Request>, a: string)
    requires ValidStore(templates)
    ensures Count(HotRequests(HotStore(templates), requests), RequestName, a) ==
              if Listed(HotStore(templates), a) then Max(Count(requests, RequestName, a), MinHot(templates, a)) else 0
  {
    HotStoreListed(templates, a);
    HotRequestsCount(HotStore(templates), requests, a);
    hide HotStore, MinHot, ValidStore, Count, HotRequests;
  }

  lemma UnlistedCount(store: seq<Template>, requests: seq<Request>, a: string)
    ensures Count(Unlisted(store, requests), RequestName, a) ==
              if Listed(store, a) then 0 else Count(requests, RequestName, a)
  {
    CountFilter(requests, (r: Request) => !Listed(store, r.algorithmName), RequestName, a);
    hide Listed;
  }

  lemma HotStoreListed(templates: seq<Template>, a: string)
    requires ValidStore(templates)
    ensures ValidStore(HotStore(templates))
    ensures Listed(HotStore(templates), a) <==> MinHot(templates, a) > 0
    ensures forall t :: t in HotStore(templates) && t.name == a ==> t.minHotWorkers == MinHot(templates, a)
  {
    var store := HotStore(templates);
    DistinctMultiset(templates);
    DistinctByMultiset(store);
    assert forall t, u :: t in templates && u in templates && t.name == u.name ==> t == u;
    var found := Lookup(templates, a);
    if found.Some? && found.value.minHotWorkers > 0 {
      assert found.value in store;
    }
  }

  /** normalizeHotRequests */
  method NormalizeHotRequests(normRequests: seq<Request>,
                              algorithmTemplates: seq<Template>) returns (requests: seq<Request>)
    ensures requests == TotalRequests(normRequests, algorithmTemplates)
  {
    hide OfAlgorithm, Repeat, Unlisted, HotStore;
    var algorithmStore := HotStore(algorithmTemplates);
    if algorithmStore == [] {
      return normRequests;
    }
    requests := [];
    for i := 0 to |algorithmStore|
      invariant requests == HotRequests(algorithmStore[..i], normRequests)
    {
      var v := algorithmStore[i];
      var hotWorkers := Repeat(Request(v.name, true), v.minHotWorkers);
      var groupNor := OfAlgorithm(normRequests, v.name);
      assert algorithmStore[..i + 1][..i] == algorithmStore[..i];
      if |groupNor| > v.minHotWorkers {
        requests := requests + (hotWorkers + groupNor[..|groupNor| - v.minHotWorkers]);
      } else {
        requests := requests + (hotWorkers + []);
      }
    }
    assert algorithmStore[..|algorithmStore|] == algorithmStore;
    requests := requests + Unlisted(algorithmStore, normRequests);
  }
}
