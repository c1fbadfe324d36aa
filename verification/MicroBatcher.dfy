/**
 `MicroBatcher` as a step relation: any number of submitting threads, any number
 of closing threads and the one worker, interleaved arbitrarily. A step is one
 access to what the threads share: the queue, the closed flag, a job's fields.
 */
module MicroBatcher {
  import opened Optional

  type JobId = nat

  /** A queue entry: a job, or the shutdown sentinel. */
  datatype Entry = Submitted(job: JobId) | Shutdown

  /** How a call of `run_batch` ends. */
  datatype RunOutcome<R> = Returned(results: seq<R>) | Raised(error: string)

  /** What a job is resolved with: its `result`, or its `error`. */
  datatype Resolution<R> = Value(value: R) | Relayed(error: string) | WrongLength(got: nat, want: nat)

  datatype Caller<R> = Admitted | Blocked | Answered(resolution: Resolution<R>)

  datatype Worker<R> =
    | Waiting                                                        // in the first `get` of `_collect`
    | Collecting(batch: seq<JobId>)                                  // in the loop of `_collect`
    | Requeueing(batch: seq<JobId>)                                  // took the sentinel, has to put it back
    | Collected(batch: seq<JobId>)                                   // `_collect` has returned
    | Running(batch: seq<JobId>)                                     // in `run_batch`
    | Settling(batch: seq<JobId>, outcome: RunOutcome<R>, next: nat) // setting the jobs' fields one by one
    | Exited

  datatype State<R> = State(
    queue: seq<Entry>,
    closed: bool,
    closersPassed: nat,           // closers that saw the flag clear and have not set it yet
    closersFlagged: nat,          // closers that set the flag and have not put their sentinel yet
    worker: Worker<R>,
    callers: map<JobId, Caller<R>>,
    resolved: map<JobId, Resolution<R>>,
    batchSizes: seq<nat>,
    // history, for stating what happened
    enqueued: seq<JobId>,
    taken: seq<JobId>,
    dispatched: seq<seq<JobId>>,
    outcomes: seq<RunOutcome<R>>,
    sentinelsPut: nat,
    mark: Option<nat>)            // how many jobs had been enqueued when the first sentinel was put

  datatype Step<R> =
    | SubmitCheck(job: JobId)
    | SubmitPut(job: JobId)
    | SubmitReturn(job: JobId)
    | CloseCheck
    | CloseSet
    | ClosePut
    | TakeFirst
    | TakeMore
    | StopCollecting
    | Requeue
    | Record
    | RunBatch(outcome: RunOutcome<R>)
    | SettleOne
    | SettleDone

  function Init<R>(): State<R> {
    State([], false, 0, 0, Waiting, map[], map[], [], [], [], [], [], 0, None)
  }

  /** What `_dispatch` gives the job at `position` of a batch of `size` jobs. */
  function Settle<R>(outcome: RunOutcome<R>, size: nat, position: nat): Resolution<R>
    requires position < size
  {
    match outcome
    case Raised(error) => Relayed(error)
    case Returned(results) => if |results| != size then WrongLength(|results|, size) else Value(results[position])
  }

  predicate Enabled<R>(batchMax: nat, s: State<R>, step: Step<R>) {
    match step
    case SubmitCheck(job) => !s.closed && job !in s.callers
    case SubmitPut(job) => job in s.callers && s.callers[job].Admitted?
    case SubmitReturn(job) => job in s.callers && s.callers[job].Blocked? && job in s.resolved
    case CloseCheck => !s.closed
    case CloseSet => s.closersPassed > 0
    case ClosePut => s.closersFlagged > 0
    case TakeFirst => s.worker.Waiting? && s.queue != []
    case TakeMore => s.worker.Collecting? && |s.worker.batch| < batchMax && s.queue != []
    case StopCollecting => s.worker.Collecting?
    case Requeue => s.worker.Requeueing?
    case Record => s.worker.Collected?
    case RunBatch(_) => s.worker.Running?
    case SettleOne => s.worker.Settling? && s.worker.next < |s.worker.batch|
    case SettleDone => s.worker.Settling? && s.worker.next == |s.worker.batch|
  }

  function Apply<R>(batchMax: nat, s: State<R>, step: Step<R>): State<R>
    requires Enabled(batchMax, s, step)
  {
    match step
    case SubmitCheck(job) => s.(callers := s.callers[job := Admitted])
    case SubmitPut(job) =>
      s.(callers := s.callers[job := Blocked], queue := s.queue + [Submitted(job)], enqueued := s.enqueued + [job])
    case SubmitReturn(job) => s.(callers := s.callers[job := Answered(s.resolved[job])])
    case CloseCheck => s.(closersPassed := s.closersPassed + 1)
    case CloseSet => s.(closed := true, closersPassed := s.closersPassed - 1, closersFlagged := s.closersFlagged + 1)
    case ClosePut =>
      s.(closersFlagged := s.closersFlagged - 1, queue := s.queue + [Shutdown], sentinelsPut := s.sentinelsPut + 1,
         mark := if s.mark.None? then Some(|s.enqueued|) else s.mark)
    case TakeFirst =>
      (match s.queue[0]
       case Shutdown => s.(queue := s.queue[1..], worker := Exited)
       case Submitted(job) => s.(queue := s.queue[1..], worker := Collecting([job]), taken := s.taken + [job]))
    case TakeMore =>
      (match s.queue[0]
       case Shutdown => s.(queue := s.queue[1..], worker := Requeueing(s.worker.batch))
       case Submitted(job) =>
         s.(queue := s.queue[1..], worker := Collecting(s.worker.batch + [job]), taken := s.taken + [job]))
    case StopCollecting => s.(worker := Collected(s.worker.batch))
    case Requeue => s.(queue := s.queue + [Shutdown], worker := Collected(s.worker.batch))
    case Record =>
      s.(worker := Running(s.worker.batch), batchSizes := s.batchSizes + [|s.worker.batch|],
         dispatched := s.dispatched + [s.worker.batch])
    case RunBatch(outcome) => s.(worker := Settling(s.worker.batch, outcome, 0), outcomes := s.outcomes + [outcome])
    case SettleOne =>
      var Settling(batch, outcome, next) := s.worker;
      s.(resolved := s.resolved[batch[next] := Settle(outcome, |batch|, next)],
         worker := Settling(batch, outcome, next + 1))
    case SettleDone => s.(worker := Waiting)
  }

  /** An interleaving: every step is enabled when its turn comes. */
  predicate Executable<R>(batchMax: nat, s: State<R>, steps: seq<Step<R>>)
    decreases |steps|
  {
    steps == [] || (Enabled(batchMax, s, steps[0]) && Executable(batchMax, Apply(batchMax, s, steps[0]), steps[1..]))
  }

  function Execute<R>(batchMax: nat, s: State<R>, steps: seq<Step<R>>): State<R>
    requires Executable(batchMax, s, steps)
    decreases |steps|
  {
    if steps == [] then s else Execute(batchMax, Apply(batchMax, s, steps[0]), steps[1..])
  }

  // ----- reading the queue -----

  function JobsOf(queue: seq<Entry>): seq<JobId> {
    if queue == [] then []
    else (if queue[0].Submitted? then [queue[0].job] else []) + JobsOf(queue[1..])
  }

  function Sentinels(queue: seq<Entry>): nat {
    if queue == [] then 0 else (if queue[0].Shutdown? then 1 else 0) + Sentinels(queue[1..])
  }

  lemma {:induction false} QueueAppend(queue: seq<Entry>, e: Entry)
    ensures JobsOf(queue + [e]) == JobsOf(queue) + if e.Submitted? then [e.job] else []
    ensures Sentinels(queue + [e]) == Sentinels(queue) + if e.Shutdown? then 1 else 0
  {
    if queue == [] {
      assert queue + [e] == [e];
      assert [e][1..] == [];
    } else {
      assert (queue + [e])[1..] == queue[1..] + [e];
      QueueAppend(queue[1..], e);
    }
  }

  /** The worker's jobs that are not yet recorded as a batch. */
  function InHand<R>(w: Worker<R>): seq<JobId> {
    if w.Collecting? || w.Requeueing? || w.Collected? then w.batch else []
  }

  function Flatten(batches: seq<seq<JobId>>): seq<JobId> {
    if batches == [] then [] else Flatten(batches[..|batches| - 1]) + batches[|batches| - 1]
  }

  lemma FlattenAppend(batches: seq<seq<JobId>>, batch: seq<JobId>)
    ensures Flatten(batches + [batch]) == Flatten(batches) + batch
  {
    assert (batches + [batch])[..|batches|] == batches;
  }

  // ----- what every step keeps -----

  ghost predicate NoDuplicates(s: seq<JobId>) {
    forall i, j :: 0 <= i < j < |s| ==> s[i] != s[j]
  }

  /** First in, first out: batches in dispatch order, then the jobs in hand, then the queue, are the enqueue order. */
  ghost predicate Fifo<R>(s: State<R>) {
    && Flatten(s.dispatched) + InHand(s.worker) == s.taken
    && s.taken + JobsOf(s.queue) == s.enqueued
  }

  ghost predicate CallersOk<R>(s: State<R>) {
    && NoDuplicates(s.enqueued)
    && (forall job :: job in s.enqueued <==> job in s.callers && !s.callers[job].Admitted?)
    && (forall job :: job in s.callers && s.callers[job].Answered? ==>
          job in s.resolved && s.callers[job].resolution == s.resolved[job])
  }

  ghost predicate SizeOk(batchMax: nat, batch: seq<JobId>) { 1 <= |batch| <= batchMax }

  ghost predicate BatchesOk<R>(batchMax: nat, s: State<R>) {
    && |s.batchSizes| == |s.dispatched|
    && (forall b :: 0 <= b < |s.dispatched| ==> SizeOk(batchMax, s.dispatched[b]) && s.batchSizes[b] == |s.dispatched[b]|)
    && (!s.worker.Waiting? && !s.worker.Exited? ==> SizeOk(batchMax, s.worker.batch))
  }

  /** The resolutions of a batch. */
  function Settled<R>(outcome: RunOutcome<R>, size: nat): (r: seq<Resolution<R>>)
    ensures |r| == size && forall p :: 0 <= p < size ==> r[p] == Settle(outcome, size, p)
  {
    seq(size, p requires 0 <= p < size => Settle(outcome, size, p))
  }

  /** The resolutions of the batches that have been run, in dispatch order. */
  function Expected<R>(batches: seq<seq<JobId>>, outcomes: seq<RunOutcome<R>>): (r: seq<Resolution<R>>)
    requires |batches| == |outcomes|
    ensures |r| == |Flatten(batches)|
  {
    if batches == [] then []
    else
      var n := |batches| - 1;
      Expected(batches[..n], outcomes[..n]) + Settled(outcomes[n], |batches[n]|)
  }

  /** How many jobs have been resolved: all of the run batches but for what is left of the current one. */
  function DoneCount<R>(s: State<R>): int
    requires |s.outcomes| <= |s.dispatched|
  {
    |Flatten(s.dispatched[..|s.outcomes|])| - if s.worker.Settling? then |s.worker.batch| - s.worker.next else 0
  }

  /** The jobs resolved are a prefix of those taken, each with what its batch's outcome gives its position. */
  ghost predicate ResolvedOk<R>(s: State<R>) {
    && |s.dispatched| == |s.outcomes| + (if s.worker.Running? then 1 else 0)
    && (s.worker.Running? ==> s.dispatched[|s.outcomes|] == s.worker.batch)
    && (s.worker.Settling? ==>
          && s.outcomes != [] && s.worker.next <= |s.worker.batch|
          && s.dispatched[|s.outcomes| - 1] == s.worker.batch && s.outcomes[|s.outcomes| - 1] == s.worker.outcome)
    && Flatten(s.dispatched[..|s.outcomes|]) <= s.taken
    && var done := DoneCount(s);
    && 0 <= done <= |s.taken| && done <= |Expected(s.dispatched[..|s.outcomes|], s.outcomes)|
    && (forall job :: job in s.resolved <==> job in s.taken[..done])
    && (forall i :: 0 <= i < done ==>
          s.taken[i] in s.resolved
          && s.resolved[s.taken[i]] == Expected(s.dispatched[..|s.outcomes|], s.outcomes)[i])
  }

  /** Sentinels are never lost: each one put is in the queue, being put back, or has stopped the worker. */
  ghost predicate SentinelsOk<R>(s: State<R>) {
    && Sentinels(s.queue) + (if s.worker.Requeueing? then 1 else 0) + (if s.worker.Exited? then 1 else 0) == s.sentinelsPut
    && (s.mark.Some? <==> s.sentinelsPut > 0)
    && (s.closersFlagged > 0 || s.sentinelsPut > 0 ==> s.closed)
  }

  /** The jobs ahead of queue position `p`, counted from the first one ever enqueued. */
  function Ahead<R>(s: State<R>, p: nat): nat
    requires p <= |s.queue|
  {
    |s.taken| + |JobsOf(s.queue[..p])|
  }

  /** No sentinel is ahead of a job that was enqueued before the first sentinel. */
  ghost predicate MarkOk<R>(s: State<R>) {
    s.mark.Some? ==>
      && s.mark.value <= |s.enqueued|
      && (forall p :: 0 <= p < |s.queue| && s.queue[p].Shutdown? ==> s.mark.value <= Ahead(s, p))
      && (s.worker.Exited? ==> s.mark.value <= |s.taken|)
  }

  ghost predicate Inv<R>(batchMax: nat, s: State<R>) {
    && Fifo(s) && CallersOk(s) && BatchesOk(batchMax, s) && ResolvedOk(s) && SentinelsOk(s) && MarkOk(s)
  }
}
