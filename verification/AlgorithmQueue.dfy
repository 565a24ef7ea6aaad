/** The double-buffered queue of algorithm tasks (algorithm-queue, lib/queue.js). Every method is split
    at its awaits; the steps of different calls interleave in any order. */
module AlgorithmQueue {
  import opened Collections
  import opened Sorting
  import opened BatchPlace

  /** An entry of removeJobs; a missing or empty task id is None and stands for all tasks of the job. */
  datatype Removal = Removal(jobId: string, taskId: Option<string>)

  /** Where the scoring cycle stands: between two cycles, after the enrichment, inside the await of
      updateScore with the tasks it captured, or inside the await that stores the queue. */
  datatype Phase = Idle | Enriched | Scoring(captured: seq<Task>) | Storing

  /** adds holds the batches of the calls of add that wait for their scores. */
  datatype State = State(
    queue: seq<Task>, inserts: seq<Task>, removals: seq<Removal>, phase: Phase, adds: seq<seq<Task>>)

  datatype Event =
    | AddCall(tasks: seq<Task>)
    | AddDone(i: nat, scores: seq<real>)
    | TryPop
    | RemoveJobs(jobs: seq<Removal>)
    | CycleStart
    | ScoreStart
    | ScoreDone(newScores: seq<real>)
    | CycleEnd

  // ---------------------------------------------------------------- the operations

  function TaskScore(t: Task): real { t.score }

  function Scored(tasks: seq<Task>, scores: seq<real>): (r: seq<Task>)
    requires |scores| == |tasks|
    ensures |r| == |tasks| && forall i :: 0 <= i < |r| ==> r[i] == tasks[i].(score := scores[i])
  {
    if tasks == [] then []
    else Scored(tasks[..|tasks| - 1], scores[..|tasks| - 1]) + [tasks[|tasks| - 1].(score := scores[|tasks| - 1])]
  }

  predicate Matches(t: Task, r: Removal) {
    t.jobId == r.jobId && (r.taskId.None? || t.taskId == r.taskId.value)
  }

  function Dropping(queue: seq<Task>, r: Removal): seq<Task> {
    Filter(queue, (t: Task) => !Matches(t, r))
  }

  /** _removeJobs: one removal after the other. */
  function DroppingAll(queue: seq<Task>, removals: seq<Removal>): seq<Task> {
    if removals == [] then queue
    else Dropping(DroppingAll(queue, removals[..|removals| - 1]), removals[|removals| - 1])
  }

  function AsRemovals(tasks: seq<Task>): (r: seq<Removal>)
    ensures |r| == |tasks|
  {
    if tasks == [] then []
    else AsRemovals(tasks[..|tasks| - 1]) + [Removal(tasks[|tasks| - 1].jobId, Some(tasks[|tasks| - 1].taskId))]
  }

  /** _insert */
  function Inserted(queue: seq<Task>, tasks: seq<Task>): seq<Task> {
    if tasks == [] then queue else OrderByDesc(queue + tasks, TaskScore)
  }

  /** _mergeTemp and _orderQueue on the re-scored queue */
  function Merged(rescored: seq<Task>, inserts: seq<Task>, removals: seq<Removal>): seq<Task> {
    OrderByDesc(DroppingAll(Inserted(rescored, inserts), removals), TaskScore)
  }

  predicate Enabled(s: State, e: Event) {
    match e
    case AddDone(i, scores) => i < |s.adds| && |scores| == |s.adds[i]|
    case CycleStart => s.phase.Idle?
    case ScoreStart => s.phase.Enriched?
    case ScoreDone(scores) => s.phase.Scoring? && |scores| == |s.phase.captured|
    case CycleEnd => s.phase.Storing?
    case _ => true
  }

  function Step(s: State, e: Event): State
    requires Enabled(s, e)
  {
    match e
    case AddCall(tasks) =>
      s.(queue := DroppingAll(s.queue, AsRemovals(tasks)), adds := s.adds + [tasks])
    case AddDone(i, scores) =>
      var calculated := Scored(s.adds[i], scores);
      var t := s.(adds := s.adds[..i] + s.adds[i + 1..]);
      if s.phase.Idle? then t.(queue := Inserted(s.queue, calculated))
      else t.(inserts := s.inserts + calculated)
    case TryPop => s.(queue := if s.queue == [] then [] else s.queue[1..])
    case RemoveJobs(jobs) =>
      if s.phase.Idle? then s.(queue := DroppingAll(s.queue, jobs)) else s.(removals := s.removals + jobs)
    case CycleStart => s.(queue := EnrichedQueue(s.queue), phase := Enriched)
    case ScoreStart => s.(phase := Scoring(s.queue))
    case ScoreDone(scores) =>
      s.(queue := Merged(Scored(s.phase.captured, scores), s.inserts, s.removals),
         inserts := [], removals := [], phase := Storing)
    case CycleEnd => s.(phase := Idle)
  }

  // ---------------------------------------------------------------- order

  /** The queue is in descending order of its stored scores. */
  ghost predicate Ordered(queue: seq<Task>) { Descending(queue, TaskScore) }

  lemma {:induction false} FilterOrdered(queue: seq<Task>, p: Task -> bool)
    requires Ordered(queue)
    ensures Ordered(Filter(queue, p))
  {
    if queue != [] {
      FilterOrdered(queue[1..], p);
      var rest := Filter(queue[1..], p);
      forall t | t in rest ensures TaskScore(queue[0]) >= TaskScore(t) { assert t in queue[1..]; }
    }
  }

  lemma {:induction false} DroppingOrdered(queue: seq<Task>, removals: seq<Removal>)
    requires Ordered(queue)
    ensures Ordered(DroppingAll(queue, removals))
  {
    if removals != [] {
      var last := removals[|removals| - 1];
      DroppingOrdered(queue, removals[..|removals| - 1]);
      FilterOrdered(DroppingAll(queue, removals[..|removals| - 1]), (t: Task) => !Matches(t, last));
    }
  }

  /** On every schedule, the queue is in descending order of score after every step, so tryPop takes a
      task of the highest stored score. */
  lemma StepOrdered(s: State, e: Event)
    requires Enabled(s, e) && Ordered(s.queue)
    ensures Ordered(Step(s, e).queue)
    ensures e.TryPop? && s.queue != [] ==> forall t :: t in s.queue ==> t.score <= s.queue[0].score
  {
    match e {
      case AddCall(tasks) => DroppingOrdered(s.queue, AsRemovals(tasks));
      case RemoveJobs(jobs) => DroppingOrdered(s.queue, jobs);
      case CycleStart => hide EnrichedBy;
      case TryPop =>
        forall t | t in s.queue && s.queue != [] ensures t.score <= s.queue[0].score {
          var i :| 0 <= i < |s.queue| && s.queue[i] == t;
          assert i > 0 ==> TaskScore(s.queue[0]) >= TaskScore(s.queue[i]);
        }
      case _ =>
    }
  }

  // ---------------------------------------------------------------- what a merge yields

  predicate Removed(t: Task, removals: seq<Removal>) {
    exists i :: 0 <= i < |removals| && Matches(t, removals[i])
  }

  function Kept(queue: seq<Task>, removals: seq<Removal>): seq<Task> {
    Filter(queue, (t: Task) => !Removed(t, removals))
  }

  /** Removals one by one drop exactly the tasks that match one of them. */
  lemma {:induction false} DroppingIsKept(queue: seq<Task>, removals: seq<Removal>)
    ensures DroppingAll(queue, removals) == Kept(queue, removals)
  {
    hide Filter, Removed, Matches;
    if removals == [] {
      NothingRemoved(queue);
    } else {
      var init, last := removals[..|removals| - 1], removals[|removals| - 1];
      DroppingIsKept(queue, init);
      forall t { RemovedByLast(t, removals); }
      FilterFilter(queue, (t: Task) => !Removed(t, init), (t: Task) => !Matches(t, last),
                   (t: Task) => !Removed(t, removals));
    }
  }

  lemma NothingRemoved(queue: seq<Task>)
    ensures Kept(queue, []) == queue
  {
    FilterAll(queue, (t: Task) => !Removed(t, []));
  }

  lemma RemovedByLast(t: Task, removals: seq<Removal>)
    requires removals != []
    ensures Removed(t, removals) <==> Removed(t, removals[..|removals| - 1]) || Matches(t, removals[|removals| - 1])
  {
    hide Matches;
    var init := removals[..|removals| - 1];
    if i :| 0 <= i < |init| && Matches(t, init[i]) {
      assert Matches(t, removals[i]);
    }
    if i :| 0 <= i < |removals| && Matches(t, removals[i]) {
      assert i < |init| ==> Matches(t, init[i]);
    }
  }

  lemma {:induction false} WithKeyFilter(s: seq<Task>, p: Task -> bool, k: real)
    ensures WithKey(Filter(s, p), TaskScore, k) == Filter(WithKey(s, TaskScore, k), p)
  {
    if s != [] {
      var x, rest := s[0], s[1..];
      WithKeyFilter(rest, p, k);
      FilterHead(s, p);
      KeyHead(s, k);
      if TaskScore(x) == k {
        FilterHead([x] + WithKey(rest, TaskScore, k), p);
      }
      if p(x) {
        KeyHead([x] + Filter(rest, p), k);
      }
      hide Filter, WithKey;
    }
  }

  lemma KeyHead(s: seq<Task>, k: real)
    requires s != []
    ensures WithKey(s, TaskScore, k) ==
              if TaskScore(s[0]) == k then [s[0]] + WithKey(s[1..], TaskScore, k) else WithKey(s[1..], TaskScore, k)
  {
    assert [] + WithKey(s[1..], TaskScore, k) == WithKey(s[1..], TaskScore, k);
  }

  /** Sorting and dropping commute, because the sort is stable. */
  lemma SortThenFilter(s: seq<Task>, p: Task -> bool)
    ensures OrderByDesc(Filter(s, p), TaskScore) == Filter(OrderByDesc(s, TaskScore), p)
  {
    var a, b := OrderByDesc(Filter(s, p), TaskScore), Filter(OrderByDesc(s, TaskScore), p);
    FilterOrdered(OrderByDesc(s, TaskScore), p);
    forall k ensures WithKey(a, TaskScore, k) == WithKey(b, TaskScore, k) {
      OrderByDescStable(Filter(s, p), TaskScore, k);
      OrderByDescStable(s, TaskScore, k);
      WithKeyFilter(s, p, k);
      WithKeyFilter(OrderByDesc(s, TaskScore), p, k);
    }
    StableOrderUnique(a, b, TaskScore);
  }

  /** A merge yields the stable descending sort of the re-scored queue followed by the buffered inserts,
      without every task that matches a buffered removal. */
  lemma MergeExact(rescored: seq<Task>, inserts: seq<Task>, removals: seq<Removal>)
    ensures Merged(rescored, inserts, removals) == Kept(OrderByDesc(rescored + inserts, TaskScore), removals)
  {
    var p := (t: Task) => !Removed(t, removals);
    DroppingIsKept(Inserted(rescored, inserts), removals);
    if inserts == [] {
      assert rescored + inserts == rescored;
      SortThenFilter(rescored, p);
    } else {
      var sorted := OrderByDesc(rescored + inserts, TaskScore);
      FilterOrdered(sorted, p);
      SortedIsFixed(Filter(sorted, p), TaskScore);
    }
  }

  /** Some removal has the job of the task, and either no task id or that of the task. */
  ghost predicate Hit(t: Task, removals: seq<Removal>) {
    exists r :: r in removals && r.jobId == t.jobId && (r.taskId.None? || r.taskId.value == t.taskId)
  }

  lemma HitExactly(t: Task, removals: seq<Removal>)
    ensures Hit(t, removals) <==> Removed(t, removals)
  {
    if i :| 0 <= i < |removals| && Matches(t, removals[i]) {
      assert removals[i] in removals;
    }
  }

  lemma KeptExactly(queue: seq<Task>, removals: seq<Removal>)
    ensures Kept(queue, removals) == Filter(queue, (t: Task) => !Hit(t, removals))
    ensures forall t :: t in Kept(queue, removals) <==> t in queue && !Hit(t, removals)
  {
    forall t ensures Hit(t, removals) <==> Removed(t, removals) { HitExactly(t, removals); }
    hide Removed, Filter, Hit;
    FilterSame(queue, (t: Task) => !Removed(t, removals), (t: Task) => !Hit(t, removals));
  }

  /** removeJobs takes out exactly the tasks that some removal names, by their job or by job and task. */
  lemma RemovedExactly(queue: seq<Task>, removals: seq<Removal>)
    ensures DroppingAll(queue, removals) == Filter(queue, (t: Task) => !Hit(t, removals))
    ensures forall t :: t in DroppingAll(queue, removals) <==>
              t in queue &&
              !exists r :: r in removals && r.jobId == t.jobId && (r.taskId.None? || r.taskId.value == t.taskId)
  {
    hide DroppingAll, Kept, Filter;
    DroppingIsKept(queue, removals);
    KeptExactly(queue, removals);
  }

  lemma {:induction false} AsRemovalsAt(tasks: seq<Task>, i: nat)
    requires i < |tasks|
    ensures AsRemovals(tasks)[i] == Removal(tasks[i].jobId, Some(tasks[i].taskId))
  {
    if i < |tasks| - 1 {
      AsRemovalsAt(tasks[..|tasks| - 1], i);
    }
  }

  lemma DuplicateHit(t: Task, tasks: seq<Task>)
    ensures Hit(t, AsRemovals(tasks)) <==> exists u :: u in tasks && u.jobId == t.jobId && u.taskId == t.taskId
  {
    forall i | 0 <= i < |tasks|
      ensures AsRemovals(tasks)[i] == Removal(tasks[i].jobId, Some(tasks[i].taskId))
    {
      AsRemovalsAt(tasks, i);
    }
    hide AsRemovals;
    if u :| u in tasks && u.jobId == t.jobId && u.taskId == t.taskId {
      var i :| 0 <= i < |tasks| && tasks[i] == u;
      assert AsRemovals(tasks)[i] in AsRemovals(tasks);
    }
    if Hit(t, AsRemovals(tasks)) {
      var r :| r in AsRemovals(tasks) && r.jobId == t.jobId && (r.taskId.None? || r.taskId.value == t.taskId);
      var i :| 0 <= i < |tasks| && AsRemovals(tasks)[i] == r;
      assert tasks[i] in tasks;
    }
  }

  /** add takes out exactly the queued tasks with the job and the task id of an added one. */
  lemma DuplicatesExactly(queue: seq<Task>, tasks: seq<Task>)
    ensures forall t :: t in DroppingAll(queue, AsRemovals(tasks)) <==>
              t in queue && !exists u :: u in tasks && u.jobId == t.jobId && u.taskId == t.taskId
  {
    RemovedExactly(queue, AsRemovals(tasks));
    forall t ensures Hit(t, AsRemovals(tasks)) <==>
      exists u :: u in tasks && u.jobId == t.jobId && u.taskId == t.taskId {
      DuplicateHit(t, tasks);
    }
    hide DroppingAll, AsRemovals;
  }

  /** A merge holds, in a stable descending order, exactly the re-scored and the buffered tasks that no buffered
      removal names. */
  lemma MergedExactly(rescored: seq<Task>, inserts: seq<Task>, removals: seq<Removal>)
    ensures Merged(rescored, inserts, removals) ==
              Filter(OrderByDesc(rescored + inserts, TaskScore), (t: Task) => !Hit(t, removals))
    ensures forall t :: t in Merged(rescored, inserts, removals) <==>
              (t in rescored || t in inserts) &&
              !exists r :: r in removals && r.jobId == t.jobId && (r.taskId.None? || r.taskId.value == t.taskId)
  {
    hide Merged, Kept, Filter, OrderByDesc;
    MergeExact(rescored, inserts, removals);
    KeptExactly(OrderByDesc(rescored + inserts, TaskScore), removals);
    forall t ensures t in OrderByDesc(rescored + inserts, TaskScore) <==> t in rescored || t in inserts {
      SortedMembers(rescored + inserts, t);
    }
  }

  // ---------------------------------------------------------------- conservation

  /** A task without its score and enrichment, which the cycles rewrite. */
  function Core(t: Task): Task { t.(score := 0.0, enrichment := Fresh) }

  function Cores(s: seq<Task>): multiset<Task> {
    if s == [] then multiset{} else Cores(s[..|s| - 1]) + multiset{Core(s[|s| - 1])}
  }

  function AllCores(batches: seq<seq<Task>>): multiset<Task> {
    if batches == [] then multiset{} else AllCores(batches[..|batches| - 1]) + Cores(batches[|batches| - 1])
  }

  lemma {:induction false} CoresConcat(a: seq<Task>, b: seq<Task>)
    ensures Cores(a + b) == Cores(a) + Cores(b)
    decreases |b|
  {
    if b == [] {
      assert a + b == a;
    } else {
      assert (a + b)[..|a + b| - 1] == a + b[..|b| - 1];
      CoresConcat(a, b[..|b| - 1]);
    }
  }

  lemma {:induction false} AllCoresConcat(a: seq<seq<Task>>, b: seq<seq<Task>>)
    ensures AllCores(a + b) == AllCores(a) + AllCores(b)
    decreases |b|
  {
    if b == [] {
      assert a + b == a;
    } else {
      assert (a + b)[..|a + b| - 1] == a + b[..|b| - 1];
      AllCoresConcat(a, b[..|b| - 1]);
    }
  }

  lemma CoresOne(t: Task)
    ensures Cores([t]) == multiset{Core(t)}
  {
    assert [t][..0] == [];
  }

  /** Lists that differ in scores and enrichment only have the same cores. */
  lemma {:induction false} SameCores(a: seq<Task>, b: seq<Task>)
    requires |a| == |b| && forall i :: 0 <= i < |a| ==> Core(a[i]) == Core(b[i])
    ensures Cores(a) == Cores(b)
  {
    if a != [] {
      SameCores(a[..|a| - 1], b[..|b| - 1]);
    }
  }

  lemma ConsCores(x: Task, s: seq<Task>)
    ensures Cores([x] + s) == Cores(s) + multiset{Core(x)}
  {
    CoresConcat([x], s);
    CoresOne(x);
    hide Cores;
  }

  lemma HeadCores(s: seq<Task>)
    requires s != []
    ensures Cores(s) == Cores(s[1..]) + multiset{Core(s[0])}
  {
    hide Cores;
    ConsCores(s[0], s[1..]);
    assert s == [s[0]] + s[1..];
  }

  lemma {:induction false} InsertCores(x: Task, s: seq<Task>)
    requires Ordered(s)
    ensures Cores(Insert(x, s, TaskScore)) == Cores(s) + multiset{Core(x)}
  {
    hide Cores;
    if s == [] || TaskScore(s[0]) <= TaskScore(x) {
      ConsCores(x, s);
    } else {
      InsertCores(x, s[1..]);
      ConsCores(s[0], Insert(x, s[1..], TaskScore));
      HeadCores(s);
      hide Insert;
    }
  }

  lemma {:induction false} SortCores(s: seq<Task>)
    ensures Cores(OrderByDesc(s, TaskScore)) == Cores(s)
  {
    if s != [] {
      SortCores(s[1..]);
      HeadCores(s);
      hide Cores, Insert;
      InsertCores(s[0], OrderByDesc(s[1..], TaskScore));
    }
  }

  /** What a list of removals takes out. */
  function Dropped(queue: seq<Task>, removals: seq<Removal>): seq<Task> {
    Filter(queue, (t: Task) => Removed(t, removals))
  }

  lemma {:induction false} FilterCores(s: seq<Task>, p: Task -> bool, q: Task -> bool)
    requires forall t :: q(t) <==> !p(t)
    ensures Cores(s) == Cores(Filter(s, p)) + Cores(Filter(s, q))
  {
    if s != [] {
      FilterCores(s[1..], p, q);
      HeadCores(s);
      FilterHeadCores(s, p);
      FilterHeadCores(s, q);
      hide Cores, Filter;
    }
  }

  lemma FilterHeadCores(s: seq<Task>, p: Task -> bool)
    requires s != []
    ensures Cores(Filter(s, p)) == (if p(s[0]) then multiset{Core(s[0])} else multiset{}) + Cores(Filter(s[1..], p))
  {
    if p(s[0]) {
      CoresConcat([s[0]], Filter(s[1..], p));
      CoresOne(s[0]);
    } else {
      assert [] + Filter(s[1..], p) == Filter(s[1..], p);
    }
    hide Cores;
  }

  lemma DroppingCores(queue: seq<Task>, removals: seq<Removal>)
    ensures Cores(queue) == Cores(DroppingAll(queue, removals)) + Cores(Dropped(queue, removals))
  {
    DroppingIsKept(queue, removals);
    FilterCores(queue, (t: Task) => !Removed(t, removals), (t: Task) => Removed(t, removals));
  }

  lemma InsertedCores(queue: seq<Task>, tasks: seq<Task>)
    ensures Cores(Inserted(queue, tasks)) == Cores(queue) + Cores(tasks)
  {
    CoresConcat(queue, tasks);
    SortCores(queue + tasks);
    hide OrderByDesc;
  }

  lemma MergedCores(rescored: seq<Task>, inserts: seq<Task>, removals: seq<Removal>)
    ensures Cores(rescored) + Cores(inserts) ==
              Cores(Merged(rescored, inserts, removals)) + Cores(Dropped(Inserted(rescored, inserts), removals))
  {
    var all := Inserted(rescored, inserts);
    InsertedCores(rescored, inserts);
    DroppingCores(all, removals);
    SortCores(DroppingAll(all, removals));
    hide OrderByDesc, DroppingAll, Dropped, Inserted, Cores;
  }

  /** The state with the history of the tasks: everything added, popped and removed so far, and the
      tasks that came back because the captured queue overwrote their pop or removal. */
  datatype World = World(
    state: State, added: multiset<Task>, popped: multiset<Task>, removed: multiset<Task>, resurrected: multiset<Task>)

  function Advance(w: World, e: Event): World
    requires Enabled(w.state, e)
  {
    var s, next := w.state, Step(w.state, e);
    match e
    case AddCall(tasks) =>
      w.(state := next, added := w.added + Cores(tasks),
         removed := w.removed + Cores(Dropped(s.queue, AsRemovals(tasks))))
    case TryPop =>
      w.(state := next, popped := w.popped + if s.queue == [] then multiset{} else multiset{Core(s.queue[0])})
    case RemoveJobs(jobs) =>
      w.(state := next, removed := if s.phase.Idle? then w.removed + Cores(Dropped(s.queue, jobs)) else w.removed)
    case ScoreDone(scores) =>
      w.(state := next,
         removed := w.removed + Cores(Dropped(Inserted(Scored(s.phase.captured, scores), s.inserts), s.removals)),
         resurrected := w.resurrected + (Cores(s.phase.captured) - Cores(s.queue)))
    case _ => w.(state := next)
  }

  /** Every task is accounted for: what was added or came back is queued, buffered, waiting for its
      score, popped or removed; inside the await the live queue is part of what was captured. */
  ghost predicate Accounted(w: World) {
    && w.added + w.resurrected ==
         Cores(w.state.queue) + Cores(w.state.inserts) + AllCores(w.state.adds) + w.popped + w.removed
    && (w.state.phase.Scoring? ==> Cores(w.state.queue) <= Cores(w.state.phase.captured))
  }

  lemma AddCallAccounted(w: World, tasks: seq<Task>)
    requires Accounted(w)
    ensures Accounted(Advance(w, AddCall(tasks)))
  {
    hide Cores, DroppingAll, Dropped, AsRemovals, AllCores;
    DroppingCores(w.state.queue, AsRemovals(tasks));
    AllCoresConcat(w.state.adds, [tasks]);
    AllCoresOne(tasks);
    var next := Advance(w, AddCall(tasks));
    assert next.added + next.resurrected == w.added + w.resurrected + Cores(tasks);
    assert Cores(next.state.queue) <= Cores(w.state.queue);
  }

  lemma AllCoresOne(batch: seq<Task>)
    ensures AllCores([batch]) == Cores(batch)
  {
    assert [batch][..0] == [];
    hide Cores;
  }

  lemma AllCoresSplit(batches: seq<seq<Task>>, i: nat)
    requires i < |batches|
    ensures AllCores(batches) == AllCores(batches[..i] + batches[i + 1..]) + Cores(batches[i])
  {
    hide Cores, AllCores;
    SplitAt(batches, i);
    AllCoresConcat(batches[..i], [batches[i]] + batches[i + 1..]);
    AllCoresConcat([batches[i]], batches[i + 1..]);
    AllCoresConcat(batches[..i], batches[i + 1..]);
    AllCoresOne(batches[i]);
  }

  lemma AddDoneAccounted(w: World, i: nat, scores: seq<real>)
    requires Accounted(w) && Enabled(w.state, AddDone(i, scores))
    ensures Accounted(Advance(w, AddDone(i, scores)))
  {
    hide Cores, Scored, Inserted, AllCores;
    var calculated := Scored(w.state.adds[i], scores);
    AllCoresSplit(w.state.adds, i);
    SameCores(w.state.adds[i], calculated);
    InsertedCores(w.state.queue, calculated);
    CoresConcat(w.state.inserts, calculated);
  }

  lemma TryPopAccounted(w: World)
    requires Accounted(w)
    ensures Accounted(Advance(w, TryPop))
  {
    hide Cores, AllCores;
    if w.state.queue != [] {
      HeadCores(w.state.queue);
      var next := Advance(w, TryPop);
      assert Cores(next.state.queue) <= Cores(w.state.queue);
      assert Cores(w.state.queue) + w.popped == Cores(next.state.queue) + next.popped;
    }
  }

  lemma RemoveAccounted(w: World, jobs: seq<Removal>)
    requires Accounted(w)
    ensures Accounted(Advance(w, RemoveJobs(jobs)))
  {
    hide Cores, AllCores, DroppingAll, Dropped;
    DroppingCores(w.state.queue, jobs);
  }

  lemma CycleAccounted(w: World, e: Event)
    requires Accounted(w) && Enabled(w.state, e) && (e.CycleStart? || e.ScoreStart? || e.CycleEnd?)
    ensures Accounted(Advance(w, e))
  {
    hide Cores, AllCores;
    SameCores(w.state.queue, EnrichedQueue(w.state.queue));
  }

  lemma ScoreDoneAccounted(w: World, scores: seq<real>)
    requires Accounted(w) && Enabled(w.state, ScoreDone(scores))
    ensures Accounted(Advance(w, ScoreDone(scores)))
  {
    hide Cores, AllCores, Merged, Dropped, Inserted, Scored;
    var s := w.state;
    var rescored := Scored(s.phase.captured, scores);
    SameCores(s.phase.captured, rescored);
    MergedCores(rescored, s.inserts, s.removals);
    CoresNone();
    var next := Advance(w, ScoreDone(scores));
    var back := Cores(s.phase.captured) - Cores(s.queue);
    assert Cores(s.queue) + back == Cores(s.phase.captured);
    var merged, dropped := Cores(next.state.queue), Cores(Dropped(Inserted(rescored, s.inserts), s.removals));
    assert next.added + next.resurrected == w.added + w.resurrected + back
      == Cores(s.phase.captured) + Cores(s.inserts) + AllCores(s.adds) + w.popped + w.removed
      == merged + dropped + AllCores(s.adds) + w.popped + w.removed;
  }

  lemma CoresNone()
    ensures Cores([]) == multiset{}
  {
  }

  /** Double-buffer accounting, on every schedule: each step keeps the books. */
  lemma StepAccounted(w: World, e: Event)
    requires Accounted(w) && Enabled(w.state, e)
    ensures Accounted(Advance(w, e))
  {
    hide Accounted, Advance;
    match e {
      case AddCall(tasks) => AddCallAccounted(w, tasks);
      case AddDone(i, scores) => AddDoneAccounted(w, i, scores);
      case TryPop => TryPopAccounted(w);
      case RemoveJobs(jobs) => RemoveAccounted(w, jobs);
      case ScoreDone(scores) => ScoreDoneAccounted(w, scores);
      case _ => CycleAccounted(w, e);
    }
  }

  // ---------------------------------------------------------------- whole schedules

  /** The history after a schedule; a step that cannot happen yet is not taken. */
  function History(w: World, events: seq<Event>): World {
    if events == [] then w
    else
      var before, e := History(w, events[..|events| - 1]), events[|events| - 1];
      if Enabled(before.state, e) then Advance(before, e) else before
  }

  lemma AdvanceSteps(w: World, e: Event)
    requires Enabled(w.state, e)
    ensures Advance(w, e).state == Step(w.state, e)
  {
  }

  function Start(): World { World(State([], [], [], Idle, []), multiset{}, multiset{}, multiset{}, multiset{}) }

  /** On every schedule the books are kept and the queue is ordered. */
  lemma {:induction false} AlwaysAccounted(w: World, events: seq<Event>)
    requires Accounted(w) && Ordered(w.state.queue)
    ensures Accounted(History(w, events)) && Ordered(History(w, events).state.queue)
  {
    hide Accounted, Advance, Step;
    if events != [] {
      var before, e := History(w, events[..|events| - 1]), events[|events| - 1];
      AlwaysAccounted(w, events[..|events| - 1]);
      if Enabled(before.state, e) {
        StepAccounted(before, e);
        StepOrdered(before.state, e);
        AdvanceSteps(before, e);
      }
    }
  }

  /** A pop of a task, or a re-add of a queued one, inside the await of updateScore: neither is buffered. */
  predicate Overwritten(s: State, e: Event) {
    s.phase.Scoring? &&
    match e
    case TryPop => s.queue != []
    case AddCall(tasks) => DroppingAll(s.queue, AsRemovals(tasks)) != s.queue
    case _ => false
  }

  ghost predicate NothingOverwritten(w: World, events: seq<Event>) {
    forall k :: 0 <= k < |events| ==> !Overwritten(History(w, events[..k]).state, events[k])
  }

  lemma {:induction false} CoresSize(s: seq<Task>)
    ensures |Cores(s)| == |s|
  {
    if s != [] {
      CoresSize(s[..|s| - 1]);
    }
  }

  /** The write-back of a cycle loses nothing and doubles nothing exactly when nothing left the live
      queue inside the await; otherwise every task that left is queued again. */
  lemma WriteBackExactly(w: World, scores: seq<real>)
    requires Accounted(w) && Enabled(w.state, ScoreDone(scores))
    ensures var next := Advance(w, ScoreDone(scores));
            && |next.resurrected| == |w.resurrected| + (|w.state.phase.captured| - |w.state.queue|)
            && (next.resurrected == w.resurrected <==> |w.state.queue| == |w.state.phase.captured|)
  {
    hide Cores, AllCores, Merged, Dropped, Inserted, Scored, Step;
    CoresSize(w.state.queue);
    CoresSize(w.state.phase.captured);
    DifferenceSize(Cores(w.state.phase.captured), Cores(w.state.queue), w.resurrected);
  }

  lemma DifferenceSize(a: multiset<Task>, b: multiset<Task>, c: multiset<Task>)
    requires b <= a
    ensures |c + (a - b)| == |c| + (|a| - |b|)
    ensures c + (a - b) == c <==> |a| == |b|
  {
    assert (a - b) + b == a;
    if |a| == |b| {
      assert |a - b| == 0;
      assert a - b == multiset{};
    }
  }

  /** Inside the await a step shrinks the live queue exactly when it is such a pop or re-add. */
  lemma ShrinksExactly(s: State, e: Event)
    requires Enabled(s, e) && s.phase.Scoring? && !e.ScoreDone?
    ensures Step(s, e).phase == s.phase && |Step(s, e).queue| <= |s.queue|
    ensures |Step(s, e).queue| < |s.queue| <==> Overwritten(s, e)
    ensures !Overwritten(s, e) ==> Step(s, e).queue == s.queue
  {
    if e.AddCall? {
      DroppingShrinks(s.queue, AsRemovals(e.tasks));
    }
    hide DroppingAll, Scored, Inserted, AsRemovals;
  }

  lemma {:induction false} DroppingShrinks(queue: seq<Task>, removals: seq<Removal>)
    ensures |DroppingAll(queue, removals)| <= |queue|
    ensures |DroppingAll(queue, removals)| == |queue| <==> DroppingAll(queue, removals) == queue
  {
    DroppingIsKept(queue, removals);
    FilterShrinks(queue, (t: Task) => !Removed(t, removals));
  }

  lemma {:induction false} FilterShrinks(s: seq<Task>, p: Task -> bool)
    ensures |Filter(s, p)| == |s| <==> Filter(s, p) == s
  {
    if s != [] {
      hide Filter;
      FilterShrinks(s[1..], p);
      FilterHead(s, p);
      if p(s[0]) && |Filter(s, p)| == |s| {
        assert Filter(s[1..], p) == s[1..];
        assert [s[0]] + s[1..] == s;
      }
    }
  }

  /** The steps that can happen inside the await of updateScore. */
  ghost predicate InsideAwait(w: World, events: seq<Event>) {
    forall k :: 0 <= k < |events| ==> Enabled(History(w, events[..k]).state, events[k]) && !events[k].ScoreDone?
  }

  lemma {:induction false} AwaitShrinksExactly(w: World, events: seq<Event>)
    requires w.state.phase.Scoring? && InsideAwait(w, events)
    ensures var after := History(w, events);
            && after.state.phase == w.state.phase && |after.state.queue| <= |w.state.queue|
            && after.resurrected == w.resurrected
            && (|after.state.queue| == |w.state.queue| <==> NothingOverwritten(w, events))
  {
    hide Overwritten, Step, Advance, NothingOverwritten, InsideAwait;
    if events == [] {
      NoEvents(w);
    } else {
      var init, e := events[..|events| - 1], events[|events| - 1];
      LastEvent(w, events);
      AwaitShrinksExactly(w, init);
      var before := History(w, init);
      ShrinksExactly(before.state, e);
      AdvanceSteps(before, e);
      NothingResurrected(before, e);
    }
  }

  lemma NoEvents(w: World)
    ensures NothingOverwritten(w, []) && InsideAwait(w, [])
  {
  }

  lemma NothingResurrected(w: World, e: Event)
    requires Enabled(w.state, e) && !e.ScoreDone?
    ensures Advance(w, e).resurrected == w.resurrected
  {
    hide Step, Cores;
  }

  /** Schedules by their last event. */
  lemma LastEvent(w: World, events: seq<Event>)
    requires events != []
    ensures var init, e := events[..|events| - 1], events[|events| - 1];
            && (InsideAwait(w, events) <==>
                  InsideAwait(w, init) && Enabled(History(w, init).state, e) && !e.ScoreDone?)
            && (NothingOverwritten(w, events) <==>
                NothingOverwritten(w, init) && !Overwritten(History(w, init).state, e))
  {
    hide Overwritten, Enabled, History;
    var init := events[..|events| - 1];
    forall k | 0 <= k < |events| ensures k < |init| ==> init[..k] == events[..k] && init[k] == events[k] {}
    assert events[..|init|] == init;
  }

  /** One whole await: from the moment the queue was captured to the write-back, tasks come back exactly
      when a pop of a task or a re-add of a queued task happened in between. */
  lemma AwaitConservesExactly(w: World, events: seq<Event>, scores: seq<real>)
    requires Accounted(w) && Ordered(w.state.queue)
    requires w.state.phase == Scoring(w.state.queue) && InsideAwait(w, events)
    requires |scores| == |w.state.queue|
    ensures Enabled(History(w, events).state, ScoreDone(scores))
    ensures Advance(History(w, events), ScoreDone(scores)).resurrected == w.resurrected <==>
              NothingOverwritten(w, events)
  {
    hide Advance, History, NothingOverwritten, InsideAwait, Accounted, Ordered;
    AwaitShrinksExactly(w, events);
    AlwaysAccounted(w, events);
    ScoresFit(History(w, events).state, w.state.queue, scores);
    hide Enabled;
    WriteBackExactly(History(w, events), scores);
  }

  /** No task came back so far; inside the await, none left the live queue either. */
  ghost predicate Untouched(w: World) {
    w.resurrected == multiset{} && (w.state.phase.Scoring? ==> |w.state.queue| == |w.state.phase.captured|)
  }

  /** Inside the await the live queue is no larger than the captured one. */
  ghost predicate Captured(s: State) { s.phase.Scoring? ==> |s.queue| <= |s.phase.captured| }

  lemma StepUntouched(w: World, e: Event)
    requires Accounted(w) && Captured(w.state) && Enabled(w.state, e)
    ensures Captured(Step(w.state, e))
    ensures Untouched(Advance(w, e)) <==> Untouched(w) && !Overwritten(w.state, e)
  {
    hide Accounted, Cores, DroppingAll, Merged, Dropped, Inserted, Scored, EnrichedQueue, AsRemovals;
    if w.state.phase.Scoring? {
      if e.ScoreDone? {
        WriteBackExactly(w, e.newScores);
      } else {
        AdvanceSteps(w, e);
        NothingResurrected(w, e);
        ShrinksExactly(w.state, e);
        hide Advance, Step, Overwritten;
      }
    }
  }

  /** Conservation, on every schedule: no task comes back if and only if no pop of a task and no re-add of a
      queued task happens inside an await of updateScore. A pop or re-add in an await that is still open counts
      by what is missing from the live queue. */
  lemma {:induction false} UntouchedExactly(events: seq<Event>)
    ensures var w := History(Start(), events);
            && Captured(w.state) && (Untouched(w) <==> NothingOverwritten(Start(), events))
  {
    if events != [] {
      var init, e := events[..|events| - 1], events[|events| - 1];
      UntouchedExactly(init);
      StartAccounted();
      AlwaysAccounted(Start(), init);
      LastEvent(Start(), events);
      var before := History(Start(), init);
      if Enabled(before.state, e) {
        StepUntouched(before, e);
        AdvanceSteps(before, e);
      }
      hide Advance, Overwritten, Untouched, Accounted, Captured, NothingOverwritten, InsideAwait;
    }
  }

  lemma StartAccounted()
    ensures Accounted(Start()) && Ordered(Start().state.queue)
  {
  }

  /** Outside the await, the tasks added are exactly those queued, buffered, waiting for their score, popped or
      removed, if and only if no such pop or re-add has happened. */
  lemma TasksConserved(events: seq<Event>)
    ensures var w := History(Start(), events);
            !w.state.phase.Scoring? ==>
              (w.added == Cores(w.state.queue) + Cores(w.state.inserts) + AllCores(w.state.adds) + w.popped + w.removed
               <==> NothingOverwritten(Start(), events))
  {
    StartAccounted();
    AlwaysAccounted(Start(), events);
    UntouchedExactly(events);
    var w := History(Start(), events);
    hide History, Cores, AllCores, NothingOverwritten;
    var books := Cores(w.state.queue) + Cores(w.state.inserts) + AllCores(w.state.adds) + w.popped + w.removed;
    SumUnchanged(w.added, w.resurrected, books);
  }

  lemma SumUnchanged(a: multiset<Task>, b: multiset<Task>, c: multiset<Task>)
    requires a + b == c
    ensures a == c <==> b == multiset{}
  {
    assert |c| == |a| + |b|;
  }

  /** A history in which t is the only task ever added. */
  ghost function OnlyTask(t: Task, s: State, popped: multiset<Task>, resurrected: multiset<Task>): World {
    World(s, multiset{Core(t)}, popped, multiset{}, resurrected)
  }

  lemma SortedOne(t: Task)
    ensures OrderByDesc([t], TaskScore) == [t]
  {
    assert [t][1..] == [];
  }

  lemma AddOne(t: Task)
    ensures Enabled(Start().state, AddCall([t]))
    ensures Advance(Start(), AddCall([t])) == OnlyTask(t, State([], [], [], Idle, [[t]]), multiset{}, multiset{})
  {
    DroppingNothing(AsRemovals([t]));
    CoresOne(t);
    CoresNone();
    hide AsRemovals, DroppingAll;
  }

  lemma ScoreOne(t: Task, score: real)
    ensures var w, scored := OnlyTask(t, State([], [], [], Idle, [[t]]), multiset{}, multiset{}), t.(score := score);
      && Enabled(w.state, AddDone(0, [score]))
      && Advance(w, AddDone(0, [score])) == OnlyTask(t, State([scored], [], [], Idle, []), multiset{}, multiset{})
  {
    SortedOne(t.(score := score));
    assert [] + [t.(score := score)] == [t.(score := score)];
    assert Scored([t], [score]) == [t.(score := score)];
  }

  lemma CaptureOne(t: Task, scored: Task) returns (c: Task)
    ensures Core(c) == Core(scored)
    ensures var w := OnlyTask(t, State([scored], [], [], Idle, []), multiset{}, multiset{});
            var v := OnlyTask(t, State([c], [], [], Enriched, []), multiset{}, multiset{});
      && Enabled(w.state, CycleStart) && Advance(w, CycleStart) == v
      && Enabled(v.state, ScoreStart)
      && Advance(v, ScoreStart) == OnlyTask(t, State([c], [], [], Scoring([c]), []), multiset{}, multiset{})
  {
    c := EnrichedQueue([scored])[0];
    assert EnrichedQueue([scored]) == [c];
    hide EnrichedQueue;
  }

  lemma PopOne(t: Task, c: Task, phase: Phase)
    requires Core(c) == Core(t)
    ensures var w := OnlyTask(t, State([c], [], [], phase, []), multiset{}, multiset{});
      && Enabled(w.state, TryPop)
      && Advance(w, TryPop) == OnlyTask(t, State([], [], [], phase, []), multiset{Core(t)}, multiset{})
  {
    assert [c][1..] == [];
  }

  lemma WriteBackOne(t: Task, c: Task, score: real)
    requires Core(c) == Core(t)
    ensures var w := OnlyTask(t, State([], [], [], Scoring([c]), []), multiset{Core(t)}, multiset{});
      && Enabled(w.state, ScoreDone([score]))
      && Advance(w, ScoreDone([score])) ==
           OnlyTask(t, State([c.(score := score)], [], [], Storing, []), multiset{Core(t)}, multiset{Core(t)})
  {
    var d := c.(score := score);
    SortedOne(d);
    CoresOne(c);
    CoresNone();
    assert Scored([c], [score]) == [d];
    hide Scored, OrderByDesc, Cores;
    assert Inserted([d], []) == [d];
    assert Dropped([d], []) == [];
  }

  /** A task that is added, captured by a cycle, popped inside the await of updateScore and written back. */
  function PoppedInAwait(t: Task, score: real, newScore: real): seq<Event> {
    [AddCall([t]), AddDone(0, [score]), CycleStart, ScoreStart, TryPop, ScoreDone([newScore])]
  }

  lemma HistoryStep(w: World, events: seq<Event>, n: nat)
    requires n < |events| && Enabled(History(w, events[..n]).state, events[n])
    ensures History(w, events[..n + 1]) == Advance(History(w, events[..n]), events[n])
  {
    hide Advance, Enabled;
    assert events[..n + 1][..n] == events[..n];
  }

  lemma SameCore(t: Task, score: real)
    ensures Core(t.(score := score)) == Core(t)
  {
  }

  /** Up to the capture. */
  lemma OneIsCaptured(t: Task, score: real, newScore: real) returns (c: Task)
    ensures Core(c) == Core(t)
    ensures History(Start(), PoppedInAwait(t, score, newScore)[..4]) ==
              OnlyTask(t, State([c], [], [], Scoring([c]), []), multiset{}, multiset{})
  {
    hide Advance, Step, Enabled, Cores, Core, OnlyTask;
    var events, w := PoppedInAwait(t, score, newScore), Start();
    SameCore(t, score);
    AddOne(t);
    ScoreOne(t, score);
    c := CaptureOne(t, t.(score := score));
    assert History(w, events[..0]) == w;
    HistoryStep(w, events, 0);
    HistoryStep(w, events, 1);
    HistoryStep(w, events, 2);
    HistoryStep(w, events, 3);
  }

  /** A lost pop: the popped task is queued again. */
  lemma PoppedComesBack(t: Task, score: real, newScore: real)
    ensures var w := History(Start(), PoppedInAwait(t, score, newScore));
      && w.added == multiset{Core(t)} && w.popped == multiset{Core(t)}
      && Cores(w.state.queue) == multiset{Core(t)} && w.resurrected == multiset{Core(t)}
  {
    hide Advance, Step, Enabled, Cores, Core, History;
    var events, w := PoppedInAwait(t, score, newScore), Start();
    var c := OneIsCaptured(t, score, newScore);
    PopOne(t, c, Scoring([c]));
    HistoryStep(w, events, 4);
    WriteBackOne(t, c, newScore);
    HistoryStep(w, events, 5);
    assert events[..6] == events;
    CoresOne(c.(score := newScore));
    SameCore(c, newScore);
  }

  lemma ScoresFit(s: State, captured: seq<Task>, scores: seq<real>)
    requires s.phase == Scoring(captured) && |scores| == |captured|
    ensures Enabled(s, ScoreDone(scores))
  {
  }

  // ---------------------------------------------------------------- what the buffers do

  /** A batch that got its scores is sorted into the queue between two cycles, and buffered during one. */
  lemma AddDoneExactly(s: State, i: nat, scores: seq<real>, scored: seq<Task>)
    requires Enabled(s, AddDone(i, scores)) && Ordered(s.queue)
    requires |scored| == |scores| && forall k :: 0 <= k < |scored| ==> scored[k] == s.adds[i][k].(score := scores[k])
    ensures var next := Step(s, AddDone(i, scores));
      && (s.phase.Idle? ==> next.queue == OrderByDesc(s.queue + scored, TaskScore) && next.inserts == s.inserts)
      && (!s.phase.Idle? ==> next.queue == s.queue && next.inserts == s.inserts + scored)
      && next.removals == s.removals && next.phase == s.phase && next.adds == s.adds[..i] + s.adds[i + 1..]
  {
    assert scored == Scored(s.adds[i], scores);
    hide Scored, OrderByDesc;
    if scored == [] {
      assert s.queue + scored == s.queue;
      SortedIsFixed(s.queue, TaskScore);
    }
  }

  /** removeJobs takes its tasks out at once between two cycles, and is buffered during one. */
  lemma RemoveJobsExactly(s: State, jobs: seq<Removal>, t: Task)
    ensures var next := Step(s, RemoveJobs(jobs));
      && (s.phase.Idle? ==> (t in next.queue <==> t in s.queue && !Hit(t, jobs)) && next.removals == s.removals)
      && (!s.phase.Idle? ==> next.queue == s.queue && next.removals == s.removals + jobs)
      && next.inserts == s.inserts && next.phase == s.phase && next.adds == s.adds
  {
    RemovedExactly(s.queue, jobs);
    hide DroppingAll, Filter;
  }

  /** The start of a cycle gives every queued task, in its position, the size of its batch as its length and moves its
      place by the change; a task without a place starts at its own index. Nothing else changes. */
  lemma CycleStartExactly(s: State, i: nat)
    requires Enabled(s, CycleStart) && i < |s.queue|
    ensures |Step(s, CycleStart).queue| == |s.queue|
    ensures var next := Step(s, CycleStart);
            var t, after := s.queue[i], next.queue[i];
            var size := CountIf(s.queue, (u: Task) => u.jobId == t.jobId && u.nodeName == t.nodeName);
      && after == t.(enrichment := after.enrichment) && after.enrichment.Batch?
      && (if t.enrichment.Batch? && t.enrichment.currentBatchPlace != 0 then
            && after.enrichment.currentBatchLength == size
            && after.enrichment.currentBatchPlace - t.enrichment.currentBatchPlace ==
                 size - t.enrichment.currentBatchLength
          else
            && after.enrichment.currentBatchLength == t.initialBatchLength
            && after.enrichment.currentBatchPlace == t.batchIndex)
      && !next.phase.Idle? && next.inserts == s.inserts && next.removals == s.removals && next.adds == s.adds
  {
    EnrichedExactly(s.queue, i);
    hide EnrichedQueue, CountIf;
  }

  ghost predicate IsScored(rescored: seq<Task>, captured: seq<Task>, scores: seq<real>) {
    |rescored| == |captured| == |scores| &&
    forall k :: 0 <= k < |rescored| ==> rescored[k] == captured[k].(score := scores[k])
  }

  /** The write-back: the captured tasks with their new scores and the buffered tasks, without those that a buffered
      removal names, replace the live queue; the buffers are empty then. */
  lemma ScoreDoneExactly(s: State, scores: seq<real>, rescored: seq<Task>, t: Task)
    requires Enabled(s, ScoreDone(scores)) && IsScored(rescored, s.phase.captured, scores)
    ensures var next := Step(s, ScoreDone(scores));
      && (t in next.queue <==> (t in rescored || t in s.inserts) && !Hit(t, s.removals))
      && next.inserts == [] && next.removals == [] && next.adds == s.adds
  {
    hide Step, Merged, Scored, Filter, OrderByDesc;
    assert rescored == Scored(s.phase.captured, scores);
    ScoreDoneStep(s, scores);
    MergedExactly(rescored, s.inserts, s.removals);
  }

  lemma ScoreDoneStep(s: State, scores: seq<real>)
    requires Enabled(s, ScoreDone(scores))
    ensures var next := Step(s, ScoreDone(scores));
      && next.queue == Merged(Scored(s.phase.captured, scores), s.inserts, s.removals)
      && next.inserts == [] && next.removals == [] && next.adds == s.adds
  {
    hide Merged, Scored;
  }

  ghost predicate NoWriteBack(events: seq<Event>) { forall k :: 0 <= k < |events| ==> !events[k].ScoreDone? }

  lemma {:induction false} BuffersGrow(w: World, events: seq<Event>)
    requires NoWriteBack(events)
    ensures var after := History(w, events).state;
            w.state.inserts <= after.inserts && w.state.removals <= after.removals
  {
    hide DroppingAll, Scored, Inserted, AsRemovals, EnrichedQueue, Enabled;
    if events != [] {
      var init, e := events[..|events| - 1], events[|events| - 1];
      BuffersGrow(w, init);
      var before := History(w, init);
      if Enabled(before.state, e) {
        AdvanceSteps(before, e);
        StepGrows(before.state, e);
      }
      hide Advance;
    }
  }

  lemma StepGrows(s: State, e: Event)
    requires Enabled(s, e) && !e.ScoreDone?
    ensures s.inserts <= Step(s, e).inserts && s.removals <= Step(s, e).removals
  {
    hide DroppingAll, Scored, Inserted, AsRemovals, EnrichedQueue;
  }

  /** Nothing buffered is lost or late: at the next write-back, however many steps later, no queued task is named by
      a removal that was buffered, and a buffered task is queued unless a removal buffered until then names it. */
  lemma NextWriteBackApplies(w: World, events: seq<Event>, scores: seq<real>, t: Task)
    requires NoWriteBack(events) && Enabled(History(w, events).state, ScoreDone(scores))
    ensures var before := History(w, events).state;
            var queue := Step(before, ScoreDone(scores)).queue;
      && (Hit(t, w.state.removals) ==> t !in queue)
      && (t in w.state.inserts ==> (t in queue <==> !Hit(t, before.removals)))
  {
    hide History, Step, Hit, Enabled;
    BuffersGrow(w, events);
    WriteBackApplies(History(w, events).state, w.state.inserts, w.state.removals, scores, t);
  }

  lemma WriteBackApplies(s: State, inserts: seq<Task>, removals: seq<Removal>, scores: seq<real>, t: Task)
    requires inserts <= s.inserts && removals <= s.removals && Enabled(s, ScoreDone(scores))
    ensures var queue := Step(s, ScoreDone(scores)).queue;
      && (Hit(t, removals) ==> t !in queue)
      && (t in inserts ==> (t in queue <==> !Hit(t, s.removals)))
  {
    hide Step, Hit, Scored;
    ScoreDoneExactly(s, scores, Scored(s.phase.captured, scores), t);
    PrefixMembers(inserts, s.inserts, t);
    HitGrows(removals, s.removals, t);
  }

  lemma PrefixMembers(a: seq<Task>, b: seq<Task>, t: Task)
    requires a <= b
    ensures t in a ==> t in b
  {
  }

  lemma HitGrows(a: seq<Removal>, b: seq<Removal>, t: Task)
    requires a <= b
    ensures Hit(t, a) ==> Hit(t, b)
  {
    if r :| r in a && r.jobId == t.jobId && (r.taskId.None? || r.taskId.value == t.taskId) {
      assert r in b;
    }
  }

  // ---------------------------------------------------------------- places within batches

  ghost predicate AllTelescoped(tasks: seq<Task>) {
    forall i :: 0 <= i < |tasks| ==> Telescoped(tasks[i])
  }

  ghost predicate StateTelescoped(s: State) {
    && AllTelescoped(s.queue) && AllTelescoped(s.inserts)
    && (forall i :: 0 <= i < |s.adds| ==> AllTelescoped(s.adds[i]))
    && (s.phase.Scoring? ==> AllTelescoped(s.phase.captured))
  }

  lemma TelescopedSubset(a: seq<Task>, b: seq<Task>)
    requires AllTelescoped(b) && forall t :: t in a ==> t in b
    ensures AllTelescoped(a)
  {
    forall i | 0 <= i < |a| ensures Telescoped(a[i]) {
      assert a[i] in b;
    }
  }

  lemma SortedMembers(s: seq<Task>, t: Task)
    ensures t in OrderByDesc(s, TaskScore) <==> t in s
  {
    assert t in multiset(OrderByDesc(s, TaskScore)) <==> t in multiset(s);
  }

  lemma {:induction false} SortedTelescoped(s: seq<Task>)
    requires AllTelescoped(s)
    ensures AllTelescoped(OrderByDesc(s, TaskScore))
  {
    forall t ensures t in OrderByDesc(s, TaskScore) <==> t in s { SortedMembers(s, t); }
    hide OrderByDesc;
    TelescopedSubset(OrderByDesc(s, TaskScore), s);
  }

  lemma DroppedTelescoped(queue: seq<Task>, removals: seq<Removal>)
    requires AllTelescoped(queue)
    ensures AllTelescoped(DroppingAll(queue, removals))
  {
    DroppingIsKept(queue, removals);
    hide Removed;
    TelescopedSubset(DroppingAll(queue, removals), queue);
  }

  lemma InsertedTelescoped(queue: seq<Task>, tasks: seq<Task>)
    requires AllTelescoped(queue) && AllTelescoped(tasks)
    ensures AllTelescoped(Inserted(queue, tasks))
  {
    SortedTelescoped(queue + tasks);
    hide OrderByDesc;
  }

  /** Arriving tasks are in batches of at least one; those that come from the persistent storage are enriched
      already and keep their place. */
  ghost predicate ArrivalsTelescoped(e: Event) {
    e.AddCall? ==> AllTelescoped(e.tasks)
  }

  /** Through every step, every task anywhere keeps the telescoping invariant. */
  lemma StepTelescopes(s: State, e: Event)
    requires StateTelescoped(s) && Enabled(s, e) && ArrivalsTelescoped(e)
    ensures StateTelescoped(Step(s, e))
  {
    hide DroppingAll, Inserted, OrderByDesc, AsRemovals;
    match e {
      case AddCall(tasks) =>
        DroppedTelescoped(s.queue, AsRemovals(tasks));
      case AddDone(i, scores) =>
        assert AllTelescoped(s.adds[i]);
        InsertedTelescoped(s.queue, Scored(s.adds[i], scores));
      case RemoveJobs(jobs) => DroppedTelescoped(s.queue, jobs);
      case CycleStart =>
        forall i | 0 <= i < |s.queue| ensures Telescoped(EnrichedQueue(s.queue)[i]) { QueueTelescopes(s.queue, i); }
        hide EnrichedQueue;
      case ScoreDone(scores) =>
        var rescored := Scored(s.phase.captured, scores);
        InsertedTelescoped(rescored, s.inserts);
        DroppedTelescoped(Inserted(rescored, s.inserts), s.removals);
        SortedTelescoped(DroppingAll(Inserted(rescored, s.inserts), s.removals));
      case _ =>
    }
  }

  lemma {:induction false} AlwaysTelescoped(events: seq<Event>)
    requires forall k :: 0 <= k < |events| ==> ArrivalsTelescoped(events[k])
    ensures StateTelescoped(History(Start(), events).state)
  {
    hide StateTelescoped, Advance, Step, ArrivalsTelescoped;
    if events == [] {
      StartTelescoped();
    } else {
      var init, e := events[..|events| - 1], events[|events| - 1];
      AlwaysTelescoped(init);
      var before := History(Start(), init);
      if Enabled(before.state, e) {
        StepTelescopes(before.state, e);
        AdvanceSteps(before, e);
      }
    }
  }

  lemma StartTelescoped()
    ensures StateTelescoped(Start().state)
  {
  }

  /** On every schedule whose arrivals are telescoped, the place score of every enriched task in the queue is
      weight * |initial length + 1 - index| / current length, and the divisor is not 0. */
  lemma PlaceScoresExact(events: seq<Event>, weight: real, i: nat)
    requires forall k :: 0 <= k < |events| ==> ArrivalsTelescoped(events[k])
    requires i < |History(Start(), events).state.queue| && History(Start(), events).state.queue[i].enrichment.Batch?
    ensures var t := History(Start(), events).state.queue[i];
            t.enrichment.currentBatchLength != 0 &&
            PlaceScore(weight, t) ==
              weight * (Abs(t.initialBatchLength + 1 - t.batchIndex) as real / t.enrichment.currentBatchLength as real)
  {
    hide History, PlaceScore, Telescoped;
    AlwaysTelescoped(events);
    PlaceScoreExact(weight, History(Start(), events).state.queue[i]);
  }

  // ---------------------------------------------------------------- class Queue

  class Queue {
    var queue: seq<Task>
    var tempInsertTasksQueue: seq<Task>
    var tempRemoveJobIDsQueue: seq<Removal>
    var isScoreDuringUpdate: bool
    // what the suspended calls hold: the cycle and the calls of add
    var phase: Phase
    var suspendedAdds: seq<seq<Task>>

    ghost predicate Valid()
      reads this
    {
      isScoreDuringUpdate <==> !phase.Idle?
    }

    function Contents(): State
      reads this
    {
      State(queue, tempInsertTasksQueue, tempRemoveJobIDsQueue, phase, suspendedAdds)
    }

    constructor ()
      ensures Valid() && Contents() == Start().state
    {
      queue, tempInsertTasksQueue, tempRemoveJobIDsQueue := [], [], [];
      isScoreDuringUpdate, phase, suspendedAdds := false, Idle, [];
    }

    /** _removeDuplicates */
    method RemoveDuplicates(tasks: seq<Task>)
      modifies `queue
      ensures queue == DroppingAll(old(queue), AsRemovals(tasks))
    {
      if |queue| > 0 {
        for i := 0 to |tasks|
          invariant queue == DroppingAll(old(queue), AsRemovals(tasks[..i]))
        {
          AsRemovalsStep(tasks, i);
          queue := Dropping(queue, Removal(tasks[i].jobId, Some(tasks[i].taskId)));
        }
        assert tasks[..|tasks|] == tasks;
      } else {
        DroppingNothing(AsRemovals(tasks));
      }
    }

    /** add, up to its await */
    method AddCall(tasks: seq<Task>)
      requires Valid()
      modifies this
      ensures Valid() && Contents() == Step(old(Contents()), Event.AddCall(tasks))
    {
      RemoveDuplicates(tasks);
      suspendedAdds := suspendedAdds + [tasks];
    }

    /** add, from its await on */
    method AddDone(i: nat, scores: seq<real>)
      requires Valid() && Enabled(Contents(), Event.AddDone(i, scores))
      modifies this
      ensures Valid() && Contents() == Step(old(Contents()), Event.AddDone(i, scores))
    {
      var calculatedTasks := Scored(suspendedAdds[i], scores);
      suspendedAdds := suspendedAdds[..i] + suspendedAdds[i + 1..];
      if isScoreDuringUpdate {
        tempInsertTasksQueue := tempInsertTasksQueue + calculatedTasks;
        return;
      }
      InsertTasks(calculatedTasks);
    }

    /** tryPop */
    method TryPop() returns (task: Option<Task>)
      requires Valid()
      modifies this
      ensures Valid() && Contents() == Step(old(Contents()), Event.TryPop)
      ensures task == if old(queue) == [] then None else Some(old(queue)[0])
    {
      if |queue| == 0 {
        return None;
      }
      task := Some(queue[0]);
      queue := queue[1..];
    }

    /** removeJobs */
    method RemoveJobs(jobs: seq<Removal>)
      requires Valid()
      modifies this
      ensures Valid() && Contents() == Step(old(Contents()), Event.RemoveJobs(jobs))
    {
      if isScoreDuringUpdate {
        tempRemoveJobIDsQueue := tempRemoveJobIDsQueue + jobs;
        return;
      }
      DropJobs(jobs);
    }

    /** _insert */
    method InsertTasks(taskArr: seq<Task>)
      modifies `queue
      ensures queue == Inserted(old(queue), taskArr)
    {
      if |taskArr| == 0 {
        return;
      }
      queue := OrderByDesc(queue + taskArr, TaskScore);
    }

    /** _removeJobs */
    method DropJobs(jobs: seq<Removal>)
      modifies `queue
      ensures queue == DroppingAll(old(queue), jobs)
    {
      if |jobs| == 0 {
        return;
      }
      for i := 0 to |jobs|
        invariant queue == DroppingAll(old(queue), jobs[..i])
      {
        assert jobs[..i + 1][..i] == jobs[..i];
        queue := Dropping(queue, jobs[i]);
      }
      assert jobs[..|jobs|] == jobs;
    }

    /** The cycle, up to the await of the enrichment. */
    method CycleStart()
      requires Valid() && phase.Idle?
      modifies this
      ensures Valid() && Contents() == Step(old(Contents()), Event.CycleStart)
    {
      isScoreDuringUpdate, phase := true, Enriched;
      queue := BatchPlace.BatchPlace(queue);
    }

    /** updateScore, up to its await: the calls on the captured tasks are started. */
    method ScoreStart()
      requires Valid() && phase.Enriched?
      modifies this
      ensures Valid() && Contents() == Step(old(Contents()), Event.ScoreStart)
    {
      phase := Scoring(queue);
    }

    /** updateScore, from its await on, _mergeTemp and _orderQueue, up to the await of the store. */
    method ScoreDone(scores: seq<real>)
      requires Valid() && Enabled(Contents(), Event.ScoreDone(scores))
      modifies this
      ensures Valid() && Contents() == Step(old(Contents()), Event.ScoreDone(scores))
    {
      hide Scored, Inserted, DroppingAll, OrderByDesc;
      queue := Scored(phase.captured, scores);
      phase := Storing;
      InsertTasks(tempInsertTasksQueue);
      DropJobs(tempRemoveJobIDsQueue);
      tempInsertTasksQueue, tempRemoveJobIDsQueue := [], [];
      queue := OrderByDesc(queue, TaskScore);
    }

    /** The rest of the cycle. */
    method CycleEnd()
      requires Valid() && phase.Storing?
      modifies this
      ensures Valid() && Contents() == Step(old(Contents()), Event.CycleEnd)
    {
      isScoreDuringUpdate, phase := false, Idle;
    }
  }

  lemma AsRemovalsStep(tasks: seq<Task>, i: nat)
    requires i < |tasks|
    ensures var r := AsRemovals(tasks[..i + 1]);
            && r != [] && r[..|r| - 1] == AsRemovals(tasks[..i])
            && r[|r| - 1] == Removal(tasks[i].jobId, Some(tasks[i].taskId))
  {
    assert tasks[..i + 1][..i] == tasks[..i];
  }

  lemma DroppingNothing(removals: seq<Removal>)
    ensures DroppingAll([], removals) == []
  {
  }
}
