/** The place of a task within its batch (algorithm-queue, lib/enrichments/batch-place.js,
    lib/querier.js and lib/heuristic/current-batch-place.js). */
module BatchPlace {
  import opened Collections

  /** calculated.enrichment.batchIndex: an empty object at first. */
  datatype Enrichment = Fresh | Batch(previousBatchLength: int, currentBatchLength: int, currentBatchPlace: int)

  datatype Task = Task(
    jobId: string, taskId: string, nodeName: string, batchIndex: int, initialBatchLength: int,
    score: real, enrichment: Enrichment)

  // ---------------------------------------------------------------- counts per job and node

  function InBatch(t: Task, jobId: string, nodeName: string): bool { t.jobId == jobId && t.nodeName == nodeName }

  /** How many tasks of the queue belong to the node of the job. */
  function BatchCount(queue: seq<Task>, jobId: string, nodeName: string): nat {
    if queue == [] then 0
    else BatchCount(queue[..|queue| - 1], jobId, nodeName) +
         if InBatch(queue[|queue| - 1], jobId, nodeName) then 1 else 0
  }

  lemma BatchCountPositive(queue: seq<Task>, i: nat)
    requires i < |queue|
    ensures BatchCount(queue, queue[i].jobId, queue[i].nodeName) >= 1
  {
    if i < |queue| - 1 {
      BatchCountPositive(queue[..|queue| - 1], i);
      hide InBatch;
    }
  }

  type JobTable = map<string, map<string, nat>>

  ghost predicate TableExact(table: JobTable, queue: seq<Task>) {
    forall jobId, nodeName ::
      && (jobId in table && nodeName in table[jobId] <==> BatchCount(queue, jobId, nodeName) > 0)
      && (jobId in table && nodeName in table[jobId] ==> table[jobId][nodeName] == BatchCount(queue, jobId, nodeName))
  }

  /** getListOfJobsIDs: the table counts the tasks of every job and node. */
  method GetListOfJobsIDs(queue: seq<Task>) returns (reduced: JobTable)
    ensures TableExact(reduced, queue)
  {
    reduced := map[];
    for i := 0 to |queue|
      invariant TableExact(reduced, queue[..i])
    {
      var curr := queue[i];
      assert queue[..i + 1][..i] == queue[..i];
      if curr.jobId !in reduced {
        reduced := reduced[curr.jobId := map[curr.nodeName := 1]];
      } else {
        var inner := reduced[curr.jobId];
        var length := if curr.nodeName in inner then inner[curr.nodeName] + 1 else 1;
        reduced := reduced[curr.jobId := inner[curr.nodeName := length]];
      }
    }
    assert queue[..|queue|] == queue;
  }

  // ---------------------------------------------------------------- one enrichment cycle

  /** A place that is absent or 0 starts again from the task's own index and length; otherwise the
      place moves by the change of the length. */
  function EnrichedBy(t: Task, length: int): Task {
    var b := if t.enrichment.Batch? && t.enrichment.currentBatchPlace != 0
             then t.enrichment.(previousBatchLength := t.enrichment.currentBatchLength, currentBatchLength := length)
             else Batch(t.initialBatchLength, t.initialBatchLength, t.batchIndex);
    t.(enrichment := b.(currentBatchPlace := b.currentBatchPlace - (b.previousBatchLength - b.currentBatchLength)))
  }

  function EnrichedIn(t: Task, queue: seq<Task>): Task {
    EnrichedBy(t, BatchCount(queue, t.jobId, t.nodeName))
  }

  function EnrichedPrefix(queue: seq<Task>, n: nat): (r: seq<Task>)
    requires n <= |queue|
    ensures |r| == n && forall i :: 0 <= i < n ==> r[i] == EnrichedIn(queue[i], queue)
  {
    if n == 0 then [] else EnrichedPrefix(queue, n - 1) + [EnrichedIn(queue[n - 1], queue)]
  }

  /** All lengths are counted before the first task changes. */
  function EnrichedQueue(queue: seq<Task>): (r: seq<Task>)
    ensures |r| == |queue| && forall i :: 0 <= i < |r| ==> r[i] == EnrichedIn(queue[i], queue)
  {
    EnrichedPrefix(queue, |queue|)
  }

  /** BatchPlace: the tasks are overwritten one by one. */
  method BatchPlace(queue: seq<Task>) returns (enriched: seq<Task>)
    ensures enriched == EnrichedQueue(queue)
  {
    var uniqueJobs := GetListOfJobsIDs(queue);
    enriched := [];
    for i := 0 to |queue|
      invariant enriched == EnrichedPrefix(queue, i)
    {
      var task := queue[i];
      BatchCountPositive(queue, i);
      hide BatchCount;
      if task.enrichment.Batch? && task.enrichment.currentBatchPlace != 0 {
        var previous := task.enrichment.currentBatchLength;
        task := task.(enrichment := task.enrichment.(
          previousBatchLength := previous, currentBatchLength := uniqueJobs[task.jobId][task.nodeName]));
      } else {
        task := task.(enrichment := Batch(task.initialBatchLength, task.initialBatchLength, task.batchIndex));
      }
      var b := task.enrichment;
      task := task.(enrichment := b.(
        currentBatchPlace := b.currentBatchPlace - (b.previousBatchLength - b.currentBatchLength)));
      enriched := enriched + [task];
    }
  }

  // ---------------------------------------------------------------- the telescoping invariant

  /** An enriched task keeps place - length = index - initial length, and a length of at least 1. */
  ghost predicate Telescoped(t: Task) {
    && t.initialBatchLength >= 1
    && (t.enrichment.Batch? ==>
          && t.enrichment.currentBatchLength >= 1
          && t.enrichment.currentBatchPlace - t.enrichment.currentBatchLength == t.batchIndex - t.initialBatchLength)
  }

  lemma EnrichedTelescopes(t: Task, length: int)
    requires Telescoped(t) && length >= 1
    ensures Telescoped(EnrichedBy(t, length))
  {
  }

  lemma QueueTelescopes(queue: seq<Task>, i: nat)
    requires i < |queue| && Telescoped(queue[i])
    ensures Telescoped(EnrichedQueue(queue)[i])
  {
    BatchCountPositive(queue, i);
    EnrichedTelescopes(queue[i], BatchCount(queue, queue[i].jobId, queue[i].nodeName));
    hide BatchCount;
  }

  lemma {:induction false} BatchCountExactly(queue: seq<Task>, jobId: string, nodeName: string)
    ensures BatchCount(queue, jobId, nodeName) ==
              CountIf(queue, (t: Task) => t.jobId == jobId && t.nodeName == nodeName)
  {
    if queue != [] {
      var init, last := queue[..|queue| - 1], queue[|queue| - 1];
      BatchCountExactly(init, jobId, nodeName);
      CountIfAppend(init, last, (t: Task) => t.jobId == jobId && t.nodeName == nodeName);
      assert queue == init + [last];
    }
  }

  /** An enriched task takes the size of its batch, the queued tasks of its job and node, as its length, and its
      place moves by the change of the length; without a place, or at place 0, it starts at its own index with its
      initial length. Nothing else of it changes. */
  lemma EnrichedExactly(queue: seq<Task>, i: nat)
    requires i < |queue|
    ensures var t, after := queue[i], EnrichedQueue(queue)[i];
            var size := CountIf(queue, (u: Task) => u.jobId == t.jobId && u.nodeName == t.nodeName);
      && after == t.(enrichment := after.enrichment) && after.enrichment.Batch?
      && (if t.enrichment.Batch? && t.enrichment.currentBatchPlace != 0 then
            && after.enrichment.currentBatchLength == size
            && after.enrichment.previousBatchLength == t.enrichment.currentBatchLength
            && after.enrichment.currentBatchPlace - t.enrichment.currentBatchPlace ==
                 size - t.enrichment.currentBatchLength
          else
            && after.enrichment.currentBatchLength == t.initialBatchLength == after.enrichment.previousBatchLength
            && after.enrichment.currentBatchPlace == t.batchIndex)
  {
    BatchCountExactly(queue, queue[i].jobId, queue[i].nodeName);
    hide BatchCount, CountIf;
  }

  /** currentBatchPlace heuristic; it divides by the current length. */
  function PlaceScore(weight: real, t: Task): real
    requires t.enrichment.Batch? ==> t.enrichment.currentBatchLength != 0
  {
    match t.enrichment
    case Fresh => 0.0
    case Batch(_, length, place) => weight * (Abs(place - (length + 1)) as real / length as real)
  }

  /** The place score does not depend on the history of the place, only on the task's own index and initial length
      and on the current length. */
  lemma PlaceScoreExact(weight: real, t: Task)
    requires Telescoped(t) && t.enrichment.Batch?
    ensures t.enrichment.currentBatchLength != 0
    ensures PlaceScore(weight, t) ==
              weight * (Abs(t.initialBatchLength + 1 - t.batchIndex) as real / t.enrichment.currentBatchLength as real)
  {
    assert t.enrichment.currentBatchPlace - (t.enrichment.currentBatchLength + 1) ==
        -(t.initialBatchLength + 1 - t.batchIndex);
  }
}
