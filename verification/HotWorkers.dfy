/** Control of the number of hot workers (task-executor, lib/reconcile/normalize.js). */
module HotWorkers {
  import opened Collections
  import opened Demand

  // ---------------------------------------------------------------- lodash.groupby

  /** The algorithms of the workers, in the order of their first worker. */
  function Algorithms(workers: seq<Worker>): (names: seq<string>)
    ensures forall a :: a in names <==> exists w :: w in workers && w.algorithmName == a
    ensures Distinct(names)
  {
    if workers == [] then []
    else
      var names, a := Algorithms(workers[..|workers| - 1]), workers[|workers| - 1].algorithmName;
      assert workers == workers[..|workers| - 1] + [workers[|workers| - 1]];
      if a in names then names else names + [a]
  }

  function GroupOf(workers: seq<Worker>, a: string): (g: seq<Worker>)
    ensures forall w :: w in g <==> w in workers && w.algorithmName == a
    ensures multiset(g) <= multiset(workers)
  {
    Filter(workers, (w: Worker) => w.algorithmName == a)
  }

  function Hot(workers: seq<Worker>): (r: seq<Worker>)
    ensures forall w :: w in r <==> w in workers && w.hotWorker
    ensures multiset(r) <= multiset(workers)
  {
    Filter(workers, (w: Worker) => w.hotWorker)
  }

  function Cold(workers: seq<Worker>): (r: seq<Worker>)
    ensures forall w :: w in r <==> w in workers && !w.hotWorker
    ensures multiset(r) <= multiset(workers)
  {
    Filter(workers, (w: Worker) => !w.hotWorker)
  }

  /** slice(0, n) for n >= 0 */
  function Slice(s: seq<Worker>, n: nat): seq<Worker> {
    s[..Min(n, |s|)]
  }

  // ---------------------------------------------------------------- which workers change

  /** Up to minHotWorkers cold workers, whatever the number of hot ones that are missing. */
  function WarmUpOf(workers: seq<Worker>, templates: seq<Template>, a: string): seq<Worker> {
    var group, requestHot := GroupOf(workers, a), MinHot(templates, a);
    if |Hot(group)| < requestHot && |Cold(group)| > 0 then Slice(Cold(group), requestHot) else []
  }

  /** The hot workers beyond minHotWorkers. */
  function CoolDownOf(workers: seq<Worker>, templates: seq<Template>, a: string): seq<Worker> {
    var group := GroupOf(Hot(workers), a);
    var diff := |group| - MinHot(templates, a);
    if diff > 0 then Slice(group, diff) else []
  }

  function WarmUpFor(workers: seq<Worker>, templates: seq<Template>, names: seq<string>): seq<Worker> {
    if names == [] then []
    else WarmUpFor(workers, templates, names[..|names| - 1]) + WarmUpOf(workers, templates, names[|names| - 1])
  }

  function CoolDownFor(workers: seq<Worker>, templates: seq<Template>, names: seq<string>): seq<Worker> {
    if names == [] then []
    else CoolDownFor(workers, templates, names[..|names| - 1]) + CoolDownOf(workers, templates, names[|names| - 1])
  }

  function WarmUp(workers: seq<Worker>, templates: seq<Template>): seq<Worker> {
    WarmUpFor(workers, templates, Algorithms(workers))
  }

  function CoolDown(workers: seq<Worker>, templates: seq<Template>): seq<Worker> {
    CoolDownFor(workers, templates, Algorithms(Hot(workers)))
  }

  lemma WarmUpForStep(workers: seq<Worker>, templates: seq<Template>, names: seq<string>, i: nat)
    requires i < |names|
    ensures WarmUpFor(workers, templates, names[..i + 1]) ==
              WarmUpFor(workers, templates, names[..i]) + WarmUpOf(workers, templates, names[i])
  {
    hide WarmUpOf;
    assert names[..i + 1][..i] == names[..i];
  }

  lemma CoolDownForStep(workers: seq<Worker>, templates: seq<Template>, names: seq<string>, i: nat)
    requires i < |names|
    ensures CoolDownFor(workers, templates, names[..i + 1]) ==
              CoolDownFor(workers, templates, names[..i]) + CoolDownOf(workers, templates, names[i])
  {
    hide CoolDownOf;
    assert names[..i + 1][..i] == names[..i];
  }

  /** normalizeHotWorkers */
  method NormalizeHotWorkers(normWorkers: seq<Worker>,
                             algorithmTemplates: seq<Template>) returns (hotWorkers: seq<Worker>)
    ensures hotWorkers == WarmUp(normWorkers, algorithmTemplates)
  {
    hotWorkers := [];
    if normWorkers == [] {
      return;
    }
    var groups := Algorithms(normWorkers);
    hide GroupOf, Hot, Cold, Algorithms, WarmUpFor;
    for i := 0 to |groups|
      invariant hotWorkers == WarmUpFor(normWorkers, algorithmTemplates, groups[..i])
    {
      WarmUpForStep(normWorkers, algorithmTemplates, groups, i);
      var v := GroupOf(normWorkers, groups[i]);
      var requestHot := MinHot(algorithmTemplates, groups[i]);
      var currentHot, currentCold := |Hot(v)|, Cold(v);
      if currentHot < requestHot && |currentCold| > 0 {
        hotWorkers := hotWorkers + Slice(currentCold, requestHot);
      }
    }
    assert groups[..|groups|] == groups;
  }

  /** normalizeColdWorkers */
  method NormalizeColdWorkers(normWorkers: seq<Worker>,
                              algorithmTemplates: seq<Template>) returns (coldWorkers: seq<Worker>)
    ensures coldWorkers == CoolDown(normWorkers, algorithmTemplates)
  {
    coldWorkers := [];
    if normWorkers == [] {
      return;
    }
    var normHotWorkers := Hot(normWorkers);
    var groups := Algorithms(normHotWorkers);
    hide GroupOf, Hot, Cold, Algorithms, CoolDownFor;
    for i := 0 to |groups|
      invariant coldWorkers == CoolDownFor(normWorkers, algorithmTemplates, groups[..i])
    {
      CoolDownForStep(normWorkers, algorithmTemplates, groups, i);
      var v := GroupOf(normHotWorkers, groups[i]);
      var diff := |v| - MinHot(algorithmTemplates, groups[i]);
      if diff > 0 {
        coldWorkers := coldWorkers + Slice(v, diff);
      }
    }
    assert groups[..|groups|] == groups;
  }

  // ---------------------------------------------------------------- convergence

  function WorkerId(w: Worker): string { w.id }

  predicate HasId(workers: seq<Worker>, id: string) {
    exists w :: w in workers && w.id == id
  }

  /** The worker once it has carried out the commands of the tick. */
  function Obey(w: Worker, warm: seq<Worker>, cool: seq<Worker>): Worker {
    if HasId(warm, w.id) then w.(hotWorker := true)
    else if HasId(cool, w.id) then w.(hotWorker := false)
    else w
  }

  function ObeyAll(workers: seq<Worker>, warm: seq<Worker>, cool: seq<Worker>): (r: seq<Worker>)
    ensures |r| == |workers|
    ensures forall i :: 0 <= i < |r| ==> r[i] == Obey(workers[i], warm, cool)
  {
    if workers == [] then [] else [Obey(workers[0], warm, cool)] + ObeyAll(workers[1..], warm, cool)
  }

  /** The same workers after one tick of hot-worker control. */
  function Control(workers: seq<Worker>, templates: seq<Template>): (after: seq<Worker>)
    ensures |after| == |workers|
  {
    ObeyAll(workers, WarmUp(workers, templates), CoolDown(workers, templates))
  }

  function HotCount(workers: seq<Worker>, a: string): nat { |Hot(GroupOf(workers, a))| }

  function Population(workers: seq<Worker>, a: string): nat { |GroupOf(workers, a)| }

  function IdSet(workers: seq<Worker>): set<string> {
    set w | w in workers :: w.id
  }

  lemma IdSetSize(workers: seq<Worker>)
    requires DistinctBy(workers, WorkerId)
    ensures |IdSet(workers)| == |workers|
  {
    if workers != [] {
      var init, last := workers[..|workers| - 1], workers[|workers| - 1];
      IdSetSize(init);
      assert workers == init + [last];
      assert IdSet(workers) == IdSet(init) + {last.id};
      assert last.id !in IdSet(init);
    }
  }

  lemma SameId(workers: seq<Worker>, v: Worker, w: Worker)
    requires DistinctBy(workers, WorkerId) && v in workers && w in workers
    ensures v.id == w.id ==> v == w
  {
  }

  lemma SubsetIdsDistinct(sub: seq<Worker>, workers: seq<Worker>)
    requires DistinctBy(workers, WorkerId) && multiset(sub) <= multiset(workers)
    ensures DistinctBy(sub, WorkerId)
  {
    DistinctMultiset(workers);
    DistinctByMultiset(sub);
    forall i, j | 0 <= i < j < |sub| ensures sub[i].id != sub[j].id {
      assert sub[i] in multiset(sub) && sub[j] in multiset(sub);
      SameId(workers, sub[i], sub[j]);
    }
  }

  lemma SliceMultiset(s: seq<Worker>, n: nat)
    ensures multiset(Slice(s, n)) <= multiset(s)
    ensures forall w :: w in Slice(s, n) ==> w in s
  {
    assert s == Slice(s, n) + s[Min(n, |s|)..];
  }

  /** The ids of the workers of an algorithm, and of the hot ones among them. */
  ghost function Ids(workers: seq<Worker>, a: string): set<string> {
    set w | w in workers && w.algorithmName == a :: w.id
  }

  ghost function HotIds(workers: seq<Worker>, a: string): set<string> {
    set w | w in workers && w.algorithmName == a && w.hotWorker :: w.id
  }

  lemma SubsetSize(sub: seq<Worker>, workers: seq<Worker>)
    requires DistinctBy(workers, WorkerId) && multiset(sub) <= multiset(workers)
    ensures |sub| == |IdSet(sub)|
  {
    SubsetIdsDistinct(sub, workers);
    IdSetSize(sub);
  }

  lemma Sizes(workers: seq<Worker>, a: string)
    requires DistinctBy(workers, WorkerId)
    ensures Population(workers, a) == |Ids(workers, a)|
    ensures HotCount(workers, a) == |HotIds(workers, a)| == |GroupOf(Hot(workers), a)|
    ensures |Cold(GroupOf(workers, a))| == |Ids(workers, a) - HotIds(workers, a)|
  {
    hide GroupOf, Hot, Cold, DistinctBy;
    var group := GroupOf(workers, a);
    SubsetSize(group, workers);
    SubsetSize(Hot(group), workers);
    SubsetSize(Cold(group), workers);
    SubsetSize(GroupOf(Hot(workers), a), workers);
    assert IdSet(group) == Ids(workers, a);
    assert IdSet(Hot(group)) == HotIds(workers, a);
    assert IdSet(GroupOf(Hot(workers), a)) == HotIds(workers, a);
    ColdIds(workers, a);
  }

  lemma ColdIds(workers: seq<Worker>, a: string)
    requires DistinctBy(workers, WorkerId)
    ensures IdSet(Cold(GroupOf(workers, a))) == Ids(workers, a) - HotIds(workers, a)
  {
    hide GroupOf, Cold, DistinctBy;
    forall v, w | v in workers && w in workers ensures v.id == w.id ==> v == w { SameId(workers, v, w); }
  }

  lemma WarmUpOfMembers(workers: seq<Worker>, templates: seq<Template>, a: string)
    ensures forall w :: w in WarmUpOf(workers, templates, a) ==> w in workers && w.algorithmName == a && !w.hotWorker
    ensures multiset(WarmUpOf(workers, templates, a)) <= multiset(workers)
  {
    hide GroupOf, Hot, Cold;
    SliceMultiset(Cold(GroupOf(workers, a)), Max(0, MinHot(templates, a)));
  }

  lemma CoolDownOfMembers(workers: seq<Worker>, templates: seq<Template>, a: string)
    ensures forall w :: w in CoolDownOf(workers, templates, a) ==> w in workers && w.algorithmName == a && w.hotWorker
    ensures multiset(CoolDownOf(workers, templates, a)) <= multiset(workers)
  {
    hide GroupOf, Hot, Cold;
    var group := GroupOf(Hot(workers), a);
    SliceMultiset(group, Max(0, |group| - MinHot(templates, a)));
  }

  lemma {:induction false} WarmUpForMembers(workers: seq<Worker>, templates: seq<Template>, names: seq<string>,
                                            w: Worker)
    ensures w in WarmUpFor(workers, templates, names) <==>
              w.algorithmName in names && w in WarmUpOf(workers, templates, w.algorithmName)
  {
    hide WarmUpOf;
    if names != [] {
      var init, last := names[..|names| - 1], names[|names| - 1];
      assert names == init + [last];
      WarmUpForMembers(workers, templates, init, w);
      WarmUpOfMembers(workers, templates, last);
    }
  }

  lemma {:induction false} CoolDownForMembers(workers: seq<Worker>, templates: seq<Template>, names: seq<string>,
                                              w: Worker)
    ensures w in CoolDownFor(workers, templates, names) <==>
              w.algorithmName in names && w in CoolDownOf(workers, templates, w.algorithmName)
  {
    hide CoolDownOf;
    if names != [] {
      var init, last := names[..|names| - 1], names[|names| - 1];
      assert names == init + [last];
      CoolDownForMembers(workers, templates, init, w);
      CoolDownOfMembers(workers, templates, last);
    }
  }

  /** What one tick does to one worker. */
  lemma ObeyExact(workers: seq<Worker>, templates: seq<Template>, w: Worker)
    requires DistinctBy(workers, WorkerId) && w in workers
    ensures var after := Obey(w, WarmUp(workers, templates), CoolDown(workers, templates));
            after.hotWorker <==> w in WarmUpOf(workers, templates, w.algorithmName)
                                 || (w.hotWorker && w !in CoolDownOf(workers, templates, w.algorithmName))
  {
    hide DistinctBy, Algorithms, WarmUpOf, CoolDownOf, Hot;
    var warm, cool := WarmUp(workers, templates), CoolDown(workers, templates);
    WarmUpForMembers(workers, templates, Algorithms(workers), w);
    CoolDownForMembers(workers, templates, Algorithms(Hot(workers)), w);
    CoolDownOfMembers(workers, templates, w.algorithmName);
    forall v | v in warm ensures v.id == w.id ==> v == w {
      WarmUpForMembers(workers, templates, Algorithms(workers), v);
      WarmUpOfMembers(workers, templates, v.algorithmName);
      SameId(workers, v, w);
    }
    forall v | v in cool ensures v.id == w.id ==> v == w {
      CoolDownForMembers(workers, templates, Algorithms(Hot(workers)), v);
      CoolDownOfMembers(workers, templates, v.algorithmName);
      SameId(workers, v, w);
    }
    assert HasId(warm, w.id) <==> w in warm;
    assert HasId(cool, w.id) <==> w in cool;
  }

  lemma ControlAt(workers: seq<Worker>, templates: seq<Template>, i: nat)
    requires DistinctBy(workers, WorkerId) && i < |workers|
    ensures var w, after := workers[i], Control(workers, templates)[i];
            && after.id == w.id && after.algorithmName == w.algorithmName
            && (after.hotWorker <==> w in WarmUpOf(workers, templates, w.algorithmName)
                                     || (w.hotWorker && w !in CoolDownOf(workers, templates, w.algorithmName)))
            && (after.hotWorker == w.hotWorker ==> after == w)
  {
    hide WarmUpOf, CoolDownOf, WarmUp, CoolDown, HasId, DistinctBy;
    ObeyExact(workers, templates, workers[i]);
  }

  lemma ControlHotIds(workers: seq<Worker>, templates: seq<Template>, a: string)
    requires DistinctBy(workers, WorkerId)
    ensures var after := Control(workers, templates);
            && DistinctBy(after, WorkerId) && Ids(after, a) == Ids(workers, a)
            && HotIds(after, a) == HotIds(workers, a) + IdSet(WarmUpOf(workers, templates, a))
                                   - IdSet(CoolDownOf(workers, templates, a))
  {
    hide WarmUpOf, CoolDownOf, Obey;
    var after := Control(workers, templates);
    WarmUpOfMembers(workers, templates, a);
    CoolDownOfMembers(workers, templates, a);
    forall i | 0 <= i < |workers|
      ensures after[i].id == workers[i].id && after[i].algorithmName == workers[i].algorithmName
    {
      ControlAt(workers, templates, i);
    }
    forall i | 0 <= i < |workers| && workers[i].algorithmName == a
      ensures after[i].hotWorker <==> workers[i] in WarmUpOf(workers, templates, a)
                                      || (workers[i].hotWorker && workers[i] !in CoolDownOf(workers, templates, a))
    {
      ControlAt(workers, templates, i);
    }
    hide Control;
    SameIds(workers, after, a);
    hide Ids, HotIds, IdSet;
    forall id ensures id in HotIds(after, a) <==>
      id in HotIds(workers, a) + IdSet(WarmUpOf(workers, templates, a)) - IdSet(CoolDownOf(workers, templates, a))
    {
      HotIdExact(workers, after, WarmUpOf(workers, templates, a), CoolDownOf(workers, templates, a), a, id);
    }
  }

  lemma SameIds(workers: seq<Worker>, after: seq<Worker>, a: string)
    requires |after| == |workers|
    requires forall i :: 0 <= i < |workers| ==>
               after[i].id == workers[i].id && after[i].algorithmName == workers[i].algorithmName
    ensures Ids(after, a) == Ids(workers, a)
    ensures DistinctBy(workers, WorkerId) ==> DistinctBy(after, WorkerId)
  {
    assert forall i :: 0 <= i < |workers| ==> after[i] in after && workers[i] in workers;
  }

  lemma HotIdExact(workers: seq<Worker>, after: seq<Worker>, warm: seq<Worker>, cool: seq<Worker>, a: string,
                   id: string)
    requires DistinctBy(workers, WorkerId) && |after| == |workers|
    requires forall i :: 0 <= i < |workers| ==>
               after[i].id == workers[i].id && after[i].algorithmName == workers[i].algorithmName
    requires forall i :: 0 <= i < |workers| && workers[i].algorithmName == a ==>
               (after[i].hotWorker <==> workers[i] in warm || (workers[i].hotWorker && workers[i] !in cool))
    requires forall w :: w in warm ==> w in workers && w.algorithmName == a && !w.hotWorker
    requires forall w :: w in cool ==> w in workers && w.algorithmName == a && w.hotWorker
    ensures id in HotIds(after, a) <==> id in HotIds(workers, a) + IdSet(warm) - IdSet(cool)
  {
    if i :| 0 <= i < |workers| && workers[i].id == id {
      forall v | v in workers ensures v.id == id ==> v == workers[i] { SameId(workers, v, workers[i]); }
      assert forall v :: v in after && v.id == id ==> v == after[i];
      assert workers[i] in workers && after[i] in after;
    } else {
      assert forall v :: v in after ==> v.id != id;
    }
  }

  /** One tick: a warm-up adds up to minHotWorkers at once, a cool-down leaves exactly minHotWorkers. */
  lemma OneTick(workers: seq<Worker>, templates: seq<Template>, a: string)
    requires DistinctBy(workers, WorkerId)
    ensures var h, n, m := HotCount(workers, a), Population(workers, a), Max(0, MinHot(templates, a));
            HotCount(Control(workers, templates), a) == if h < m then Min(h + m, n) else m
    ensures Population(Control(workers, templates), a) == Population(workers, a)
    ensures HotCount(workers, a) <= Population(workers, a)
    ensures DistinctBy(Control(workers, templates), WorkerId)
  {
    hide Control, HotCount, Population, GroupOf, Cold, Hot, WarmUpOf, CoolDownOf, Ids, HotIds, IdSet, DistinctBy,
         MinHot;
    ControlHotIds(workers, templates, a);
    Sizes(workers, a);
    Sizes(Control(workers, templates), a);
    WarmAndCoolSizes(workers, templates, a);
    MovedSizes(workers, templates, a);
  }

  lemma MovedSizes(workers: seq<Worker>, templates: seq<Template>, a: string)
    requires DistinctBy(workers, WorkerId)
    ensures var all, hot := Ids(workers, a), HotIds(workers, a);
            var warm, cool := WarmUpOf(workers, templates, a), CoolDownOf(workers, templates, a);
            && |hot + IdSet(warm) - IdSet(cool)| == |hot| + |warm| - |cool|
            && |all - hot| == |all| - |hot|
  {
    var warm, cool := WarmUpOf(workers, templates, a), CoolDownOf(workers, templates, a);
    WarmUpOfMembers(workers, templates, a);
    CoolDownOfMembers(workers, templates, a);
    SubsetSize(warm, workers);
    SubsetSize(cool, workers);
    hide WarmUpOf, CoolDownOf;
    ColdFromHot(workers, warm, a);
    hide Ids, HotIds, IdSet, DistinctBy;
  }

  lemma ColdFromHot(workers: seq<Worker>, warm: seq<Worker>, a: string)
    requires DistinctBy(workers, WorkerId)
    requires forall w :: w in warm ==> w in workers && w.algorithmName == a && !w.hotWorker
    ensures IdSet(warm) <= Ids(workers, a) - HotIds(workers, a)
  {
    forall v, w | v in workers && w in workers ensures v.id == w.id ==> v == w { SameId(workers, v, w); }
  }

  lemma WarmAndCoolSizes(workers: seq<Worker>, templates: seq<Template>, a: string)
    requires DistinctBy(workers, WorkerId)
    ensures var h, n, m := HotCount(workers, a), Population(workers, a), Max(0, MinHot(templates, a));
            && |WarmUpOf(workers, templates, a)| == (if h < m then Min(m, |Cold(GroupOf(workers, a))|) else 0)
            && |CoolDownOf(workers, templates, a)| == Max(0, h - m)
  {
    hide GroupOf, Hot, Cold, MinHot, DistinctBy, Population;
    Sizes(workers, a);
    hide Ids, HotIds;
  }

  /** After two ticks on one population exactly min(minHotWorkers, workers) are hot. */
  lemma TwoTicksConverge(workers: seq<Worker>, templates: seq<Template>, a: string)
    requires DistinctBy(workers, WorkerId)
    ensures HotCount(Control(Control(workers, templates), templates), a) ==
              Min(Max(0, MinHot(templates, a)), Population(workers, a))
  {
    hide Control, HotCount, Population;
    OneTick(workers, templates, a);
    OneTick(Control(workers, templates), templates, a);
  }

  /** No tick warms up and cools down workers of one algorithm. */
  lemma NeverBoth(workers: seq<Worker>, templates: seq<Template>, v: Worker, w: Worker)
    requires DistinctBy(workers, WorkerId)
    ensures v in WarmUp(workers, templates) && w in CoolDown(workers, templates) ==> v.algorithmName != w.algorithmName
  {
    hide WarmUpOf, CoolDownOf, DistinctBy, WarmUpFor, CoolDownFor;
    WarmUpForMembers(workers, templates, Algorithms(workers), v);
    CoolDownForMembers(workers, templates, Algorithms(Hot(workers)), w);
    WarmAndCoolSizes(workers, templates, v.algorithmName);
  }

  /** The converged population is a fixpoint, and the only one: the commands change nothing exactly
      when every algorithm has its number of hot workers. */
  lemma FixpointExactly(workers: seq<Worker>, templates: seq<Template>)
    requires DistinctBy(workers, WorkerId)
    ensures Control(workers, templates) == workers <==>
              forall a :: HotCount(workers, a) == Min(Max(0, MinHot(templates, a)), Population(workers, a))
  {
    hide HotCount, Population, Control, DistinctBy;
    if forall a :: HotCount(workers, a) == Min(Max(0, MinHot(templates, a)), Population(workers, a)) {
      var after := Control(workers, templates);
      forall i | 0 <= i < |workers| ensures after[i] == workers[i] {
        var a := workers[i].algorithmName;
        ControlAt(workers, templates, i);
        OneTick(workers, templates, a);
        WarmAndCoolSizes(workers, templates, a);
        NobodyMoves(workers, templates, a);
      }
    } else {
      var a :| HotCount(workers, a) != Min(Max(0, MinHot(templates, a)), Population(workers, a));
      OneTick(workers, templates, a);
    }
  }

  lemma NobodyMoves(workers: seq<Worker>, templates: seq<Template>, a: string)
    requires DistinctBy(workers, WorkerId)
    ensures HotCount(workers, a) == Min(Max(0, MinHot(templates, a)), Population(workers, a)) ==>
              WarmUpOf(workers, templates, a) == CoolDownOf(workers, templates, a) == []
  {
    WarmAndCoolSizes(workers, templates, a);
    Sizes(workers, a);
    var all, hot := Ids(workers, a), HotIds(workers, a);
    hide HotCount, Population, GroupOf, Cold, Ids, HotIds, DistinctBy, WarmUpOf, CoolDownOf;
  }
}
