/** The queue of pipeline jobs that wait for a driver (pipeline-driver-queue, lib/queue.js,
    lib/heuristic-runner.js and lib/heuristic). Times are in milliseconds. */
module DriverQueue {
  import opened Collections
  import opened Sorting

  datatype Job = Job(jobId: string, priority: int, entranceTime: int, score: real)

  const MAX_PRIORITY := 5
  const MAX_TIME := 3600000

  // ---------------------------------------------------------------- heuristics

  /** Priority 1 scores highest. */
  function PriorityScore(weight: real, job: Job): real {
    weight * Abs(MAX_PRIORITY + 1 - job.priority) as real / MAX_PRIORITY as real
  }

  /** The age of the job; an age score of 0 is replaced by 0.0001. */
  function EntranceScore(weight: real, now: int, job: Job): real {
    var age := weight * (now - job.entranceTime) as real / MAX_TIME as real;
    if age == 0.0 then 0.0001 else age
  }

  datatype Heuristic = Priority(weight: real) | EntranceTime(weight: real)

  function HeuristicScore(h: Heuristic, now: int, job: Job): real {
    match h
    case Priority(w) => PriorityScore(w, job)
    case EntranceTime(w) => EntranceScore(w, now, job)
  }

  function SumScores(heuristics: seq<Heuristic>, now: int, job: Job): real {
    if heuristics == [] then 0.0
    else SumScores(heuristics[..|heuristics| - 1], now, job) + HeuristicScore(heuristics[|heuristics| - 1], now, job)
  }

  class HeuristicRunner {
    var heuristicMap: seq<Heuristic>

    constructor ()
      ensures heuristicMap == []
    {
      heuristicMap := [];
    }

    /** addHeuristicToQueue: a heuristic without a weight is left out. */
    method AddHeuristicToQueue(h: Heuristic)
      modifies this
      ensures heuristicMap == if h.weight != 0.0 then old(heuristicMap) + [h] else old(heuristicMap)
    {
      if h.weight != 0.0 {
        heuristicMap := heuristicMap + [h];
      }
    }

    /** run: the sum of all heuristics becomes the score. */
    method Run(job: Job, now: int) returns (scored: Job)
      ensures scored == job.(score := SumScores(heuristicMap, now, job))
    {
      var result := 0.0;
      for i := 0 to |heuristicMap|
        invariant result == SumScores(heuristicMap[..i], now, job)
      {
        assert heuristicMap[..i + 1][..i] == heuristicMap[..i];
        result := result + HeuristicScore(heuristicMap[i], now, job);
      }
      assert heuristicMap[..|heuristicMap|] == heuristicMap;
      scored := job.(score := result);
    }
  }

  // ---------------------------------------------------------------- the queue as a function

  function JobScore(job: Job): real { job.score }

  function Rescored(queue: seq<Job>, heuristics: seq<Heuristic>, now: int): (r: seq<Job>)
    ensures |r| == |queue|
    ensures forall i :: 0 <= i < |r| ==> r[i] == queue[i].(score := SumScores(heuristics, now, queue[i]))
  {
    if queue == [] then []
    else Rescored(queue[..|queue| - 1], heuristics, now) +
         [queue[|queue| - 1].(score := SumScores(heuristics, now, queue[|queue| - 1]))]
  }

  function Without(queue: seq<Job>, jobId: string): (r: seq<Job>)
    ensures forall j :: j in r <==> j in queue && j.jobId != jobId
  {
    Filter(queue, (j: Job) => j.jobId != jobId)
  }

  function WithId(queue: seq<Job>, jobId: string): (r: seq<Job>)
    ensures forall j :: j in r <==> j in queue && j.jobId == jobId
  {
    Filter(queue, (j: Job) => j.jobId == jobId)
  }

  datatype Event = Enqueue(job: Job, now: int) | Dequeue | Remove(jobId: string)

  function Apply(queue: seq<Job>, e: Event, heuristics: seq<Heuristic>): seq<Job> {
    match e
    case Enqueue(job, now) => OrderByDesc(Rescored(queue + [job], heuristics, now), JobScore)
    case Dequeue => if queue == [] then [] else queue[1..]
    case Remove(id) => Without(queue, id)
  }

  function RunAll(queue: seq<Job>, events: seq<Event>, heuristics: seq<Heuristic>): seq<Job> {
    if events == [] then queue
    else Apply(RunAll(queue, events[..|events| - 1], heuristics), events[|events| - 1], heuristics)
  }

  class Queue {
    var queue: seq<Job>
    var scoreHeuristic: HeuristicRunner

    constructor (runner: HeuristicRunner)
      ensures queue == [] && scoreHeuristic == runner
    {
      queue, scoreHeuristic := [], runner;
    }

    /** enqueue: all jobs are scored again, with one reading of the clock, and sorted. */
    method Enqueue(job: Job, now: int)
      modifies this
      ensures queue == Apply(old(queue), Event.Enqueue(job, now), old(scoreHeuristic.heuristicMap))
      ensures scoreHeuristic == old(scoreHeuristic)
    {
      queue := queue + [job];
      var scored := [];
      ghost var heuristics := scoreHeuristic.heuristicMap;
      for i := 0 to |queue|
        invariant queue == old(queue) + [job] && scoreHeuristic == old(scoreHeuristic)
        invariant scored == Rescored(queue[..i], heuristics, now)
      {
        var j := scoreHeuristic.Run(queue[i], now);
        assert queue[..i + 1][..i] == queue[..i];
        scored := scored + [j];
      }
      assert queue[..|queue|] == queue;
      queue := OrderByDesc(scored, JobScore);
    }

    /** peek */
    method Peek() returns (job: Option<Job>)
      ensures job == if queue == [] then None else Some(queue[0])
    {
      if |queue| == 0 {
        return None;
      }
      job := Some(queue[0]);
    }

    /** dequeue */
    method Dequeue() returns (job: Option<Job>)
      modifies this
      ensures job == if old(queue) == [] then None else Some(old(queue)[0])
      ensures queue == Apply(old(queue), Event.Dequeue, scoreHeuristic.heuristicMap)
      ensures scoreHeuristic == old(scoreHeuristic)
    {
      if |queue| == 0 {
        return None;
      }
      job := Some(queue[0]);
      queue := queue[1..];
    }

    /** remove: all jobs of that id leave the queue and are returned. */
    method Remove(jobId: string) returns (jobs: seq<Job>)
      modifies this
      ensures jobs == WithId(old(queue), jobId)
      ensures queue == Apply(old(queue), Event.Remove(jobId), scoreHeuristic.heuristicMap)
      ensures scoreHeuristic == old(scoreHeuristic)
    {
      jobs := WithId(queue, jobId);
      queue := Without(queue, jobId);
    }
  }

  // ---------------------------------------------------------------- no starvation

  /** The heuristics in the order the service registers them, with their configured weights. */
  function Configured(entranceWeight: real, priorityWeight: real): seq<Heuristic> {
    [EntranceTime(entranceWeight), Priority(priorityWeight)]
  }

  /** A lag that outweighs the widest priority gap and the fallback for age 0. */
  predicate Covers(lag: int, entranceWeight: real, priorityWeight: real) {
    entranceWeight > 0.0 && priorityWeight >= 0.0
    && entranceWeight * lag as real >= MAX_TIME as real * (priorityWeight * 0.8 + 0.0001)
  }

  /** The configured weights are 0.5 and 0.5, so 2,880,720 ms (about 48 minutes) are enough. */
  const LAG := 2880720

  lemma LagCovers()
    ensures Covers(LAG, 0.5, 0.5) && !Covers(LAG - 1, 0.5, 0.5)
  {
  }

  predicate ValidPriority(job: Job) { 1 <= job.priority <= 5 }

  lemma TotalScore(entranceWeight: real, priorityWeight: real, now: int, job: Job)
    ensures SumScores(Configured(entranceWeight, priorityWeight), now, job) ==
              EntranceScore(entranceWeight, now, job) + PriorityScore(priorityWeight, job)
  {
    var hs := Configured(entranceWeight, priorityWeight);
    var one := hs[..|hs| - 1];
    assert one == [EntranceTime(entranceWeight)] && one[..|one| - 1] == [];
    assert SumScores(one, now, job) == EntranceScore(entranceWeight, now, job);
  }

  lemma PriorityRange(weight: real, job: Job)
    requires weight >= 0.0 && ValidPriority(job)
    ensures weight * 0.2 <= PriorityScore(weight, job) <= weight
  {
    var p := (MAX_PRIORITY + 1 - job.priority) as real;
    assert 1.0 <= p <= 5.0;
    assert PriorityScore(weight, job) == weight * p / 5.0;
    assert weight * p >= weight * 1.0 && weight * p <= weight * 5.0;
  }

  lemma EntranceGap(weight: real, now: int, older: Job, newer: Job, lag: int)
    requires weight > 0.0 && newer.entranceTime > older.entranceTime + lag
    ensures EntranceScore(weight, now, older) - EntranceScore(weight, now, newer) >
              weight * lag as real / MAX_TIME as real - 0.0001
  {
    var a, b := (now - older.entranceTime) as real, (now - newer.entranceTime) as real;
    assert a - b > lag as real;
    assert weight * (a - b) > weight * lag as real;
    assert weight * a - weight * b == weight * (a - b);
  }

  /** On any reading of the clock, a job outscores every job that entered more than the lag after it,
      whatever the priorities. */
  lemma OlderOutscores(entranceWeight: real, priorityWeight: real, lag: int, now: int, older: Job, newer: Job)
    requires Covers(lag, entranceWeight, priorityWeight)
    requires ValidPriority(older) && ValidPriority(newer)
    requires newer.entranceTime > older.entranceTime + lag
    ensures var hs := Configured(entranceWeight, priorityWeight);
            SumScores(hs, now, older) > SumScores(hs, now, newer)
  {
    TotalScore(entranceWeight, priorityWeight, now, older);
    TotalScore(entranceWeight, priorityWeight, now, newer);
    PriorityRange(priorityWeight, older);
    PriorityRange(priorityWeight, newer);
    EntranceGap(entranceWeight, now, older, newer, lag);
    hide SumScores, EntranceScore, PriorityScore;
    assert entranceWeight * lag as real / MAX_TIME as real >= priorityWeight * 0.8 + 0.0001;
  }

  /** Nobody stands behind a job that entered more than the lag after it. */
  ghost predicate Fair(queue: seq<Job>, lag: int) {
    && (forall i :: 0 <= i < |queue| ==> ValidPriority(queue[i]))
    && (forall i, j :: 0 <= i < j < |queue| ==> queue[i].entranceTime <= queue[j].entranceTime + lag)
  }

  lemma EnqueueFair(queue: seq<Job>, job: Job, now: int, lag: int, entranceWeight: real, priorityWeight: real)
    requires Covers(lag, entranceWeight, priorityWeight)
    requires Fair(queue, lag) && ValidPriority(job)
    ensures Fair(Apply(queue, Enqueue(job, now), Configured(entranceWeight, priorityWeight)), lag)
  {
    hide Rescored, SumScores, Configured, Covers, OrderByDesc, Descending;
    var hs := Configured(entranceWeight, priorityWeight);
    ScoredByNow(queue + [job], hs, now);
    SortedFair(Rescored(queue + [job], hs, now), now, lag, entranceWeight, priorityWeight);
  }

  lemma SortedFair(scored: seq<Job>, now: int, lag: int, entranceWeight: real, priorityWeight: real)
    requires Covers(lag, entranceWeight, priorityWeight)
    requires forall x :: x in scored ==>
               ValidPriority(x) && x.score == SumScores(Configured(entranceWeight, priorityWeight), now, x)
    ensures Fair(OrderByDesc(scored, JobScore), lag)
  {
    hide OrderByDesc, SumScores, Configured, Covers, Descending;
    var sorted := OrderByDesc(scored, JobScore);
    forall i | 0 <= i < |sorted| ensures sorted[i] in scored {
      assert sorted[i] in multiset(sorted);
      assert sorted[i] in multiset(scored);
    }
    forall i, j | 0 <= i < j < |sorted| ensures sorted[i].entranceTime <= sorted[j].entranceTime + lag {
      DescendingAt(sorted, i, j);
      if sorted[i].entranceTime > sorted[j].entranceTime + lag {
        OlderOutscores(entranceWeight, priorityWeight, lag, now, sorted[j], sorted[i]);
      }
    }
  }

  lemma DescendingAt(queue: seq<Job>, i: nat, j: nat)
    requires Descending(queue, JobScore) && i < j < |queue|
    ensures queue[i].score >= queue[j].score
  {
    assert JobScore(queue[i]) >= JobScore(queue[j]);
  }

  lemma ScoredByNow(queue: seq<Job>, hs: seq<Heuristic>, now: int)
    requires forall i :: 0 <= i < |queue| ==> ValidPriority(queue[i])
    ensures forall x :: x in Rescored(queue, hs, now) ==> ValidPriority(x) && x.score == SumScores(hs, now, x)
  {
    hide Rescored, SumScores;
    var scored := Rescored(queue, hs, now);
    forall i | 0 <= i < |scored| ensures ValidPriority(scored[i]) && scored[i].score == SumScores(hs, now, scored[i]) {
      ScoreIgnored(hs, now, queue[i], scored[i].score);
    }
  }

  /** Heuristics do not look at an earlier score. */
  lemma ScoreIgnored(hs: seq<Heuristic>, now: int, job: Job, score: real)
    ensures SumScores(hs, now, job.(score := score)) == SumScores(hs, now, job)
  {
    if hs != [] {
      ScoreIgnored(hs[..|hs| - 1], now, job, score);
    }
  }

  lemma WithoutFair(queue: seq<Job>, jobId: string, lag: int)
    requires Fair(queue, lag)
    ensures Fair(Without(queue, jobId), lag)
  {
    if queue != [] {
      WithoutFair(queue[1..], jobId, lag);
      var rest := Without(queue[1..], jobId);
      assert Without(queue, jobId) == (if queue[0].jobId != jobId then [queue[0]] else []) + rest;
      forall j | j in rest ensures queue[0].entranceTime <= j.entranceTime + lag {
        assert j in queue[1..];
      }
    }
  }

  ghost predicate ValidEvents(events: seq<Event>) {
    forall e :: e in events && e.Enqueue? ==> ValidPriority(e.job)
  }

  /** No starvation, first half: on every run of enqueue, dequeue and remove a waiting job is ahead of
      every job that entered more than the lag after it. */
  lemma {:induction false} RunFair(queue: seq<Job>, events: seq<Event>, lag: int, entranceWeight: real,
                                   priorityWeight: real)
    requires Covers(lag, entranceWeight, priorityWeight)
    requires Fair(queue, lag) && ValidEvents(events)
    ensures Fair(RunAll(queue, events, Configured(entranceWeight, priorityWeight)), lag)
  {
    if events != [] {
      var init, e := events[..|events| - 1], events[|events| - 1];
      assert e in events;
      RunFair(queue, init, lag, entranceWeight, priorityWeight);
      var before := RunAll(queue, init, Configured(entranceWeight, priorityWeight));
      hide SumScores, Covers, Configured;
      match e
      case Enqueue(job, now) => EnqueueFair(before, job, now, lag, entranceWeight, priorityWeight);
      case Dequeue =>
      case Remove(id) => WithoutFair(before, id, lag);
    }
  }

  /** With the configured weights, from an empty queue. */
  lemma NoStarvation(events: seq<Event>)
    requires ValidEvents(events)
    ensures var queue := RunAll([], events, Configured(0.5, 0.5));
            forall i, j :: 0 <= i < j < |queue| ==> queue[i].entranceTime <= queue[j].entranceTime + 2880720
  {
    hide RunAll, Configured, ValidEvents;
    RunFair([], events, LAG, 0.5, 0.5);
  }

  // ---------------------------------------------------------------- priorities

  /** The score by its parts: the age in hours, or 0.0001 when that part is 0, and the distance of the priority from
      6 in fifths, each times its weight. */
  lemma ScoreExactly(entranceWeight: real, priorityWeight: real, now: int, job: Job)
    requires ValidPriority(job)
    ensures var age := entranceWeight * (now - job.entranceTime) as real / 3600000.0;
            SumScores(Configured(entranceWeight, priorityWeight), now, job) ==
              (if age == 0.0 then 0.0001 else age) + priorityWeight * (6 - job.priority) as real / 5.0
  {
    TotalScore(entranceWeight, priorityWeight, now, job);
    hide SumScores, Configured;
  }

  /** Of two jobs with one entrance time the one with the smaller priority number, which is the higher priority,
      stands first. */
  ghost predicate ByPriority(queue: seq<Job>) {
    && (forall i :: 0 <= i < |queue| ==> ValidPriority(queue[i]))
    && (forall i, j :: 0 <= i < j < |queue| && queue[i].entranceTime == queue[j].entranceTime ==>
          queue[i].priority <= queue[j].priority)
  }

  lemma PriorityOutscores(entranceWeight: real, priorityWeight: real, now: int, a: Job, b: Job)
    requires ValidPriority(a) && ValidPriority(b) && priorityWeight > 0.0
    requires a.entranceTime == b.entranceTime && a.priority > b.priority
    ensures var hs := Configured(entranceWeight, priorityWeight);
            SumScores(hs, now, a) < SumScores(hs, now, b)
  {
    ScoreExactly(entranceWeight, priorityWeight, now, a);
    ScoreExactly(entranceWeight, priorityWeight, now, b);
    hide SumScores, Configured;
    var x, y := (6 - a.priority) as real, (6 - b.priority) as real;
    assert priorityWeight * (y - x) > 0.0;
    assert priorityWeight * (y - x) == priorityWeight * y - priorityWeight * x;
  }

  lemma EnqueueByPriority(queue: seq<Job>, job: Job, now: int, entranceWeight: real, priorityWeight: real)
    requires priorityWeight > 0.0 && ValidPriority(job)
    requires forall i :: 0 <= i < |queue| ==> ValidPriority(queue[i])
    ensures ByPriority(Apply(queue, Enqueue(job, now), Configured(entranceWeight, priorityWeight)))
  {
    hide OrderByDesc, Rescored, SumScores, Configured, Descending;
    var hs := Configured(entranceWeight, priorityWeight);
    var scored := Rescored(queue + [job], hs, now);
    var sorted := OrderByDesc(scored, JobScore);
    ScoredByNow(queue + [job], hs, now);
    forall i | 0 <= i < |sorted| ensures sorted[i] in scored {
      assert sorted[i] in multiset(sorted);
      assert sorted[i] in multiset(scored);
    }
    forall i, j | 0 <= i < j < |sorted| && sorted[i].entranceTime == sorted[j].entranceTime
      ensures sorted[i].priority <= sorted[j].priority
    {
      DescendingAt(sorted, i, j);
      if sorted[i].priority > sorted[j].priority {
        PriorityOutscores(entranceWeight, priorityWeight, now, sorted[i], sorted[j]);
      }
    }
  }

  lemma WithoutByPriority(queue: seq<Job>, jobId: string)
    requires ByPriority(queue)
    ensures ByPriority(Without(queue, jobId))
  {
    if queue == [] {
      FilterEmpty((j: Job) => j.jobId != jobId);
    } else {
      WithoutByPriority(queue[1..], jobId);
      FilterHead(queue, (j: Job) => j.jobId != jobId);
      hide Filter;
      HeadByPriority(queue, Without(queue[1..], jobId));
    }
  }

  lemma HeadByPriority(queue: seq<Job>, rest: seq<Job>)
    requires queue != [] && ByPriority(queue) && ByPriority(rest) && forall j :: j in rest ==> j in queue[1..]
    ensures ByPriority([queue[0]] + rest)
  {
    forall k | 0 <= k < |rest| && rest[k].entranceTime == queue[0].entranceTime
      ensures queue[0].priority <= rest[k].priority
    {
      assert rest[k] in queue[1..];
    }
  }

  /** On every run, with any weights of which that of the priority is positive. */
  lemma {:induction false} RunByPriority(queue: seq<Job>, events: seq<Event>, entranceWeight: real,
                                         priorityWeight: real)
    requires priorityWeight > 0.0 && ByPriority(queue) && ValidEvents(events)
    ensures ByPriority(RunAll(queue, events, Configured(entranceWeight, priorityWeight)))
  {
    if events != [] {
      var init, e := events[..|events| - 1], events[|events| - 1];
      assert e in events;
      RunByPriority(queue, init, entranceWeight, priorityWeight);
      var before := RunAll(queue, init, Configured(entranceWeight, priorityWeight));
      hide SumScores, Configured, OrderByDesc, Rescored;
      match e
      case Enqueue(job, now) => EnqueueByPriority(before, job, now, entranceWeight, priorityWeight);
      case Dequeue =>
      case Remove(id) => WithoutByPriority(before, id);
    }
  }

  // ---------------------------------------------------------------- how long a job can wait

  /** How many jobs entered by time t. */
  function Early(queue: seq<Job>, t: int): nat {
    if queue == [] then 0 else Early(queue[1..], t) + if queue[0].entranceTime <= t then 1 else 0
  }

  lemma EarlyConcat(a: seq<Job>, b: seq<Job>, t: int)
    ensures Early(a + b, t) == Early(a, t) + Early(b, t)
  {
    if a == [] {
      assert a + b == b;
    } else {
      assert (a + b)[1..] == a[1..] + b;
      EarlyConcat(a[1..], b, t);
    }
  }

  lemma EarlyInsert(x: Job, s: seq<Job>, t: int)
    requires Descending(s, JobScore)
    ensures Early(Insert(x, s, JobScore), t) == Early(s, t) + if x.entranceTime <= t then 1 else 0
  {
    if s == [] || JobScore(s[0]) <= JobScore(x) {
      assert ([x] + s)[1..] == s;
    } else {
      EarlyInsert(x, s[1..], t);
      assert ([s[0]] + Insert(x, s[1..], JobScore))[1..] == Insert(x, s[1..], JobScore);
    }
  }

  lemma EarlySorted(s: seq<Job>, t: int)
    ensures Early(OrderByDesc(s, JobScore), t) == Early(s, t)
  {
    if s != [] {
      EarlySorted(s[1..], t);
      EarlyInsert(s[0], OrderByDesc(s[1..], JobScore), t);
    }
  }

  lemma EarlyRescored(queue: seq<Job>, hs: seq<Heuristic>, now: int, t: int)
    ensures Early(Rescored(queue, hs, now), t) == Early(queue, t)
  {
    if queue != [] {
      EarlyRescored(queue[1..], hs, now, t);
      assert Rescored(queue, hs, now)[1..] == Rescored(queue[1..], hs, now);
    }
  }

  lemma EarlyWithout(queue: seq<Job>, jobId: string, t: int)
    ensures Early(Without(queue, jobId), t) <= Early(queue, t)
  {
    if queue != [] {
      EarlyWithout(queue[1..], jobId, t);
      EarlyConcat(if queue[0].jobId != jobId then [queue[0]] else [], Without(queue[1..], jobId), t);
      assert Without(queue, jobId) == (if queue[0].jobId != jobId then [queue[0]] else []) + Without(queue[1..], jobId);
    }
  }

  predicate Waits(queue: seq<Job>, x: Job) {
    exists j :: j in queue && j.jobId == x.jobId && j.entranceTime == x.entranceTime
  }

  /** The jobs that enter the queue during the events and entered the system by time t. */
  function EarlyArrivals(events: seq<Event>, t: int): nat {
    if events == [] then 0
    else
      var e := events[|events| - 1];
      EarlyArrivals(events[..|events| - 1], t) + if e.Enqueue? && e.job.entranceTime <= t then 1 else 0
  }

  /** The jobs popped during the events. */
  function Popped(queue: seq<Job>, events: seq<Event>, hs: seq<Heuristic>): seq<Job> {
    if events == [] then []
    else
      var init, e := events[..|events| - 1], events[|events| - 1];
      var before := RunAll(queue, init, hs);
      Popped(queue, init, hs) + if e.Dequeue? && before != [] then [before[0]] else []
  }

  /** What one event does to the number of early jobs while x waits on. */
  lemma EarlyStep(queue: seq<Job>, e: Event, x: Job, lag: int, hs: seq<Heuristic>)
    requires Fair(queue, lag) && Waits(Apply(queue, e, hs), x)
    ensures var t, after := x.entranceTime + lag, Apply(queue, e, hs);
            Early(after, t) + (if e.Dequeue? && queue != [] then 1 else 0) <=
              Early(queue, t) + if e.Enqueue? && e.job.entranceTime <= t then 1 else 0
    ensures e.Dequeue? && queue != [] ==> queue[0].entranceTime <= x.entranceTime + lag
  {
    hide OrderByDesc, Rescored, Without, Early, Fair, Waits;
    match e {
      case Enqueue(job, now) => EarlyEnqueue(queue, job, now, x.entranceTime + lag, hs);
      case Dequeue =>
        if queue != [] {
          HeadIsEarly(queue, x, lag);
        }
      case Remove(id) => EarlyWithout(queue, id, x.entranceTime + lag);
    }
  }

  lemma EarlyEnqueue(queue: seq<Job>, job: Job, now: int, t: int, hs: seq<Heuristic>)
    ensures Early(Apply(queue, Enqueue(job, now), hs), t) == Early(queue, t) + if job.entranceTime <= t then 1 else 0
  {
    hide OrderByDesc, Rescored;
    EarlySorted(Rescored(queue + [job], hs, now), t);
    EarlyRescored(queue + [job], hs, now, t);
    EarlyConcat(queue, [job], t);
    assert [job][1..] == [];
  }

  lemma HeadIsEarly(queue: seq<Job>, x: Job, lag: int)
    requires Fair(queue, lag) && queue != [] && Waits(queue[1..], x)
    ensures queue[0].entranceTime <= x.entranceTime + lag
    ensures Early(queue, x.entranceTime + lag) == Early(queue[1..], x.entranceTime + lag) + 1
  {
    var j :| 0 <= j < |queue[1..]| && queue[1..][j].entranceTime == x.entranceTime;
    assert queue[j + 1] == queue[1..][j];
  }

  /** No starvation, second half: every job popped while x waits entered at most the lag after x, and
      there are fewer pops than jobs that were waiting or arrived with such an entrance time. */
  lemma {:induction false} WaitIsBounded(queue: seq<Job>, events: seq<Event>, x: Job, lag: int, entranceWeight: real,
                                         priorityWeight: real)
    requires Covers(lag, entranceWeight, priorityWeight)
    requires Fair(queue, lag) && ValidEvents(events)
    requires forall k :: 0 <= k <= |events| ==>
               Waits(RunAll(queue, events[..k], Configured(entranceWeight, priorityWeight)), x)
    ensures var hs, t := Configured(entranceWeight, priorityWeight), x.entranceTime + lag;
            && (forall p :: p in Popped(queue, events, hs) ==> p.entranceTime <= t)
            && |Popped(queue, events, hs)| + Early(RunAll(queue, events, hs), t) <=
                 Early(queue, t) + EarlyArrivals(events, t)
            && Early(RunAll(queue, events, hs), t) > 0
  {
    var hs, t := Configured(entranceWeight, priorityWeight), x.entranceTime + lag;
    hide Covers, Configured, Waits, Apply, Early, Fair;
    assert events[..|events|] == events;
    if events != [] {
      var init, e := events[..|events| - 1], events[|events| - 1];
      forall k | 0 <= k <= |init| ensures Waits(RunAll(queue, init[..k], hs), x) {
        assert init[..k] == events[..k];
      }
      WaitIsBounded(queue, init, x, lag, entranceWeight, priorityWeight);
      RunFair(queue, init, lag, entranceWeight, priorityWeight);
      EarlyStep(RunAll(queue, init, hs), e, x, lag, hs);
    }
    LagIsPositive(lag, entranceWeight, priorityWeight);
    WaiterIsEarly(RunAll(queue, events, hs), x, t);
  }

  lemma LagIsPositive(lag: int, entranceWeight: real, priorityWeight: real)
    requires Covers(lag, entranceWeight, priorityWeight)
    ensures lag > 0
  {
    assert lag <= 0 ==> entranceWeight * lag as real <= 0.0;
  }

  lemma WaiterIsEarly(queue: seq<Job>, x: Job, t: int)
    requires Waits(queue, x) && x.entranceTime <= t
    ensures Early(queue, t) > 0
  {
    if queue[0].jobId != x.jobId || queue[0].entranceTime != x.entranceTime {
      assert queue == [queue[0]] + queue[1..];
      WaiterIsEarly(queue[1..], x, t);
    }
  }

  /** The configured lag is tight: a job of priority 1 that enters one millisecond earlier than the lag
      allows still overtakes a job of priority 5. */
  lemma LagIsTight(older: Job, newer: Job)
    requires older.priority == 5 && newer.priority == 1 && newer.entranceTime == older.entranceTime + LAG - 1
    ensures var queue := Apply([older], Enqueue(newer, newer.entranceTime), Configured(0.5, 0.5));
            |queue| == 2 && queue[0].(score := newer.score) == newer && queue[1].(score := older.score) == older
  {
    var hs, now := Configured(0.5, 0.5), newer.entranceTime;
    TotalScore(0.5, 0.5, now, older);
    TotalScore(0.5, 0.5, now, newer);
    assert [older] + [newer] == [older, newer];
    var scored := Rescored([older, newer], hs, now);
    hide SumScores, Rescored, Configured;
    assert scored[1].score > scored[0].score;
    TwoSorted(scored);
  }

  lemma TwoSorted(s: seq<Job>)
    requires |s| == 2 && s[1].score > s[0].score
    ensures OrderByDesc(s, JobScore) == [s[1], s[0]]
  {
    assert s[1..][1..] == [];
    assert OrderByDesc(s[1..][1..], JobScore) == [];
    assert OrderByDesc(s[1..], JobScore) == Insert(s[1], [], JobScore) == [s[1]];
    assert Insert(s[0], [], JobScore) == [s[0]];
    assert [s[1]][1..] == [];
  }
}
