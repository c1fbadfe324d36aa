/** Which submissions are answered: exactly those enqueued while no sentinel is queued and the worker runs. */
module MicroBatcherAnswers {
  import opened MicroBatcher
  import opened MicroBatcherSafety

  // ----- a job that no sentinel is ahead of -----

  /** No sentinel is ahead of the first `bound` jobs ever enqueued, nor has the worker exited before them. */
  ghost predicate Clear<R>(s: State<R>, bound: nat) {
    && bound <= |s.enqueued|
    && (forall p :: 0 <= p < |s.queue| && s.queue[p].Shutdown? ==> bound <= Ahead(s, p))
    && (s.worker.Exited? ==> bound <= |s.taken|)
  }

  lemma ClearKept<R>(batchMax: nat, s: State<R>, step: Step<R>, bound: nat)
    requires Fifo(s) && Clear(s, bound) && Enabled(batchMax, s, step)
    ensures Clear(Apply(batchMax, s, step), bound)
  {
    hide JobsOf, Flatten;
    var s' := Apply(batchMax, s, step);
    match step
    case SubmitPut(job) => MarkKeptByPut(s, Submitted(job), bound);
    case ClosePut => MarkKeptByPut(s, Shutdown, bound);
    case Requeue => MarkKeptByPut(s, Shutdown, bound);
    case TakeFirst => MarkKeptByTake(s, s', bound);
    case TakeMore => MarkKeptByTake(s, s', bound);
    case _ =>
      assert s'.queue == s.queue && s'.taken == s.taken && s'.enqueued == s.enqueued;
      assert forall p :: 0 <= p < |s.queue| ==> Ahead(s', p) == Ahead(s, p);
  }

  /** The enqueue order only grows at its end. */
  lemma {:induction false} EnqueuedGrows<R>(batchMax: nat, s: State<R>, steps: seq<Step<R>>)
    requires Executable(batchMax, s, steps)
    ensures s.enqueued <= Execute(batchMax, s, steps).enqueued
    decreases |steps|
  {
    if steps != [] { EnqueuedGrows(batchMax, Apply(batchMax, s, steps[0]), steps[1..]); }
  }

  lemma {:induction false} ClearOverRun<R>(batchMax: nat, s: State<R>, steps: seq<Step<R>>, bound: nat)
    requires batchMax >= 1 && Inv(batchMax, s) && Clear(s, bound) && Executable(batchMax, s, steps)
    ensures Clear(Execute(batchMax, s, steps), bound)
    decreases |steps|
  {
    hide Apply, Clear, CallersOk, BatchesOk, ResolvedOk, SentinelsOk, MarkOk, Fifo;
    if steps != [] {
      ClearKept(batchMax, s, steps[0], bound);
      StepKeepsInv(batchMax, s, steps[0]);
      ClearOverRun(batchMax, Apply(batchMax, s, steps[0]), steps[1..], bound);
    }
  }

  /** A clear job is resolved by the time the worker exits, however the threads go on. */
  lemma ClearJobIsAnswered<R>(batchMax: nat, s: State<R>, steps: seq<Step<R>>, i: nat)
    requires batchMax >= 1 && Inv(batchMax, s) && Executable(batchMax, s, steps)
    requires i < |s.enqueued| && Clear(s, i + 1) && Execute(batchMax, s, steps).worker.Exited?
    ensures s.enqueued[i] in Execute(batchMax, s, steps).resolved
  {
    hide Inv, Execute, Executable;
    RunKeepsInv(batchMax, s, steps);
    EnqueuedGrows(batchMax, s, steps);
    ClearOverRun(batchMax, s, steps, i + 1);
    ExitedResolvesTaken(batchMax, Execute(batchMax, s, steps), i);
  }

  // ----- a job behind a sentinel -----

  /** Some sentinel is ahead of job number `i`. */
  ghost predicate SentinelAhead<R>(s: State<R>, i: nat) {
    exists p :: 0 <= p < |s.queue| && s.queue[p].Shutdown? && Ahead(s, p) <= i
  }

  /** The worker's next step when it stops collecting after the first job of every batch. */
  function DrainStep<R>(s: State<R>): Step<R> {
    match s.worker
    case Waiting => TakeFirst
    case Collecting(_) => StopCollecting
    case Requeueing(_) => Requeue
    case Collected(_) => Record
    case Running(_) => RunBatch(Raised(""))
    case Settling(batch, _, next) => if next < |batch| then SettleOne else SettleDone
    case Exited => TakeFirst
  }

  lemma DrainIsEnabled<R>(batchMax: nat, s: State<R>, i: nat)
    requires Inv(batchMax, s) && !s.worker.Exited? && SentinelAhead(s, i)
    ensures Enabled(batchMax, s, DrainStep(s))
  {
    hide Fifo, CallersOk, BatchesOk, SentinelsOk, MarkOk, Ahead, Flatten, Expected;
  }

  lemma TakeKeepsSentinelAhead<R>(batchMax: nat, s: State<R>, i: nat)
    requires s.worker.Waiting? && SentinelAhead(s, i) && Enabled(batchMax, s, TakeFirst)
    ensures var s' := Apply(batchMax, s, TakeFirst);
      s'.enqueued == s.enqueued && if s'.worker.Exited? then |s'.taken| <= i else SentinelAhead(s', i)
  {
    hide JobsOf;
    var p :| 0 <= p < |s.queue| && s.queue[p].Shutdown? && Ahead(s, p) <= i;
    var s' := Apply(batchMax, s, TakeFirst);
    if !s.queue[0].Shutdown? {
      assert s'.queue[p - 1] == s.queue[p];
      QueueTail(s.queue[..p]);
      assert s.queue[..p][1..] == s'.queue[..p - 1];
      assert Ahead(s', p - 1) == Ahead(s, p);
    }
  }

  /** Draining either takes the sentinel, with job `i` still behind it, or leaves a sentinel ahead of job `i`. */
  lemma DrainKeepsSentinelAhead<R>(batchMax: nat, s: State<R>, i: nat)
    requires !s.worker.Exited? && SentinelAhead(s, i) && Enabled(batchMax, s, DrainStep(s))
    ensures var s' := Apply(batchMax, s, DrainStep(s));
      s'.enqueued == s.enqueued && if s'.worker.Exited? then |s'.taken| <= i else SentinelAhead(s', i)
  {
    hide JobsOf, Settle;
    if s.worker.Waiting? {
      TakeKeepsSentinelAhead(batchMax, s, i);
    } else {
      var p :| 0 <= p < |s.queue| && s.queue[p].Shutdown? && Ahead(s, p) <= i;
      var s' := Apply(batchMax, s, DrainStep(s));
      assert s'.taken == s.taken && s'.queue[p] == s.queue[p] && s'.queue[..p] == s.queue[..p];
      assert Ahead(s', p) == Ahead(s, p);
    }
  }

  /** A continuation in which the worker takes that sentinel before job `i`. */
  lemma {:induction false} Drain<R>(batchMax: nat, s: State<R>, i: nat) returns (steps: seq<Step<R>>)
    requires batchMax >= 1 && Inv(batchMax, s) && !s.worker.Exited? && SentinelAhead(s, i)
    ensures Executable(batchMax, s, steps)
    ensures var e := Execute(batchMax, s, steps);
      e.worker.Exited? && e.enqueued == s.enqueued && |e.taken| <= i
    decreases WorkLeft(s)
  {
    hide Inv, Apply, SentinelAhead;
    var step := DrainStep(s);
    DrainIsEnabled(batchMax, s, i);
    DrainKeepsSentinelAhead(batchMax, s, i);
    var s' := Apply(batchMax, s, step);
    StepKeepsInv(batchMax, s, step);
    if s'.worker.Exited? {
      steps := [step];
      assert [step][1..] == [];
    } else {
      WorkNonNegative(batchMax, s);
      WorkerStepReducesWork(batchMax, s, step);
      var rest := Drain(batchMax, s', i);
      steps := [step] + rest;
      assert steps[1..] == rest;
    }
  }

  lemma WorkNonNegative<R>(batchMax: nat, s: State<R>)
    requires Inv(batchMax, s)
    ensures WorkLeft(s) >= 0
  {
    hide Fifo, CallersOk, MarkOk, BatchesOk, SentinelsOk, Flatten, Expected, JobsOf;
  }

  // ----- the exact condition -----

  lemma {:induction false} SentinelPosition(queue: seq<Entry>) returns (p: nat)
    requires Sentinels(queue) > 0
    ensures p < |queue| && queue[p].Shutdown?
  {
    if queue[0].Shutdown? {
      p := 0;
    } else {
      p := SentinelPosition(queue[1..]);
      p := p + 1;
    }
  }

  lemma {:induction false} JobsOfPrefix(queue: seq<Entry>, p: nat)
    requires p <= |queue|
    ensures |JobsOf(queue[..p])| <= |JobsOf(queue)|
  {
    if p > 0 {
      JobsOfPrefix(queue[1..], p - 1);
      assert queue[..p][1..] == queue[1..][..p - 1];
    }
  }

  /** Every continuation in which the worker exits has resolved the job. */
  ghost predicate AlwaysAnswered<R(!new)>(batchMax: nat, s: State<R>, job: JobId) {
    forall steps: seq<Step<R>> :: Executable(batchMax, s, steps) && Execute(batchMax, s, steps).worker.Exited? ==>
      job in Execute(batchMax, s, steps).resolved
  }

  lemma PutIsClear<R>(batchMax: nat, s: State<R>, job: JobId)
    requires Inv(batchMax, s) && Enabled(batchMax, s, SubmitPut(job))
    requires !s.worker.Exited? && Sentinels(s.queue) == 0
    ensures Clear(Apply(batchMax, s, SubmitPut(job)), |s.enqueued| + 1)
  {
    hide JobsOf, Sentinels, Ahead;
    NoSentinels(s.queue);
  }

  lemma PutBehindSentinel<R>(batchMax: nat, s: State<R>, job: JobId)
    requires Inv(batchMax, s) && Enabled(batchMax, s, SubmitPut(job)) && Sentinels(s.queue) > 0
    ensures SentinelAhead(Apply(batchMax, s, SubmitPut(job)), |s.enqueued|)
  {
    hide JobsOf, CallersOk, BatchesOk, ResolvedOk, SentinelsOk, MarkOk;
    var p := SentinelPosition(s.queue);
    JobsOfPrefix(s.queue, p);
    var s' := Apply(batchMax, s, SubmitPut(job));
    assert s'.queue[p] == s.queue[p] && s'.queue[..p] == s.queue[..p];
    assert Ahead(s', p) <= |s.enqueued|;
  }

  lemma ExecuteNothing<R>(batchMax: nat, s: State<R>)
    ensures Executable(batchMax, s, []) && Execute(batchMax, s, []) == s
  {
  }

  /**
   Which submissions are answered, exactly. From any state of the protocol, the job
   being put is resolved in every continuation in which the worker exits, if and only
   if at the put the worker has not exited and no sentinel is in the queue.
   */
  lemma AnsweredIff<R(!new)>(batchMax: nat, s: State<R>, job: JobId)
    requires batchMax >= 1 && Inv(batchMax, s) && Enabled(batchMax, s, SubmitPut(job))
    ensures AlwaysAnswered(batchMax, Apply(batchMax, s, SubmitPut(job)), job)
      <==> !s.worker.Exited? && Sentinels(s.queue) == 0
  {
    hide Inv, Execute, Executable, Clear, SentinelAhead, Sentinels;
    var s' := Apply(batchMax, s, SubmitPut(job));
    var i := |s.enqueued|;
    assert s'.enqueued[i] == job;
    StepKeepsInv(batchMax, s, SubmitPut(job));
    if s.worker.Exited? {
      TakenAtMost(batchMax, s);
      ExecuteNothing(batchMax, s');
      ExitedResolvesTaken(batchMax, s', i);
    } else if Sentinels(s.queue) > 0 {
      PutBehindSentinel(batchMax, s, job);
      var steps := Drain(batchMax, s', i);
      RunKeepsInv(batchMax, s', steps);
      ExitedResolvesTaken(batchMax, Execute(batchMax, s', steps), i);
    } else {
      PutIsClear(batchMax, s, job);
      forall steps: seq<Step<R>> | Executable(batchMax, s', steps) && Execute(batchMax, s', steps).worker.Exited?
        ensures job in Execute(batchMax, s', steps).resolved
      {
        ClearJobIsAnswered(batchMax, s', steps, i);
      }
    }
  }

  lemma TakenAtMost<R>(batchMax: nat, s: State<R>)
    requires Inv(batchMax, s)
    ensures |s.taken| <= |s.enqueued|
  {
    hide CallersOk, BatchesOk, ResolvedOk, SentinelsOk, MarkOk, Flatten;
  }

  /** In particular a job put after the exit is resolved in no continuation at all. */
  lemma PutAfterExitIsStranded<R>(batchMax: nat, s: State<R>, job: JobId, later: seq<Step<R>>)
    requires batchMax >= 1 && Inv(batchMax, s) && Enabled(batchMax, s, SubmitPut(job)) && s.worker.Exited?
    requires Executable(batchMax, Apply(batchMax, s, SubmitPut(job)), later)
    ensures job !in Execute(batchMax, Apply(batchMax, s, SubmitPut(job)), later).resolved
  {
    hide Inv, Execute, Executable;
    var s' := Apply(batchMax, s, SubmitPut(job));
    StepKeepsInv(batchMax, s, SubmitPut(job));
    TakenAtMost(batchMax, s);
    assert s'.enqueued[|s.enqueued|] == job;
    ExitedResolvesTaken(batchMax, s', |s.enqueued|);
    NothingResolvedAfterExit(batchMax, s', later);
  }
}
