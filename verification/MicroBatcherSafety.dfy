/** What holds of the batcher after every interleaving, and how it shuts down. */
module MicroBatcherSafety {
  import opened MicroBatcher

  // ----- every step keeps the invariant -----

  lemma InitInv<R>(batchMax: nat)
    ensures Inv<R>(batchMax, Init())
  {
  }

  lemma QueueTail(queue: seq<Entry>)
    requires queue != []
    ensures JobsOf(queue) == (if queue[0].Submitted? then [queue[0].job] else []) + JobsOf(queue[1..])
  {
  }

  lemma Reassociate(a: seq<JobId>, b: seq<JobId>, c: seq<JobId>)
    ensures (a + b) + c == a + (b + c)
    ensures a + [] == a && [] + a == a
  {
  }

  lemma FifoKept<R>(batchMax: nat, s: State<R>, step: Step<R>)
    requires Fifo(s) && Enabled(batchMax, s, step)
    ensures Fifo(Apply(batchMax, s, step))
  {
    hide JobsOf, Flatten;
    match step
    case SubmitPut(job) =>
      QueueAppend(s.queue, Submitted(job));
      Reassociate(s.taken, JobsOf(s.queue), [job]);
    case ClosePut =>
      QueueAppend(s.queue, Shutdown);
      Reassociate(JobsOf(s.queue), [], []);
    case Requeue =>
      QueueAppend(s.queue, Shutdown);
      Reassociate(JobsOf(s.queue), [], []);
    case TakeFirst =>
      QueueTail(s.queue);
      Reassociate(JobsOf(s.queue[1..]), [], []);
      if s.queue[0].Submitted? {
        Reassociate(s.taken, [s.queue[0].job], JobsOf(s.queue[1..]));
        Reassociate(Flatten(s.dispatched), [], [s.queue[0].job]);
      }
    case TakeMore =>
      QueueTail(s.queue);
      Reassociate(JobsOf(s.queue[1..]), [], []);
      if s.queue[0].Submitted? {
        Reassociate(s.taken, [s.queue[0].job], JobsOf(s.queue[1..]));
        Reassociate(Flatten(s.dispatched), s.worker.batch, [s.queue[0].job]);
      }
    case Record =>
      FlattenAppend(s.dispatched, s.worker.batch);
      Reassociate(Flatten(s.dispatched) + s.worker.batch, [], []);
    case _ =>
  }

  lemma SentinelsKept<R>(batchMax: nat, s: State<R>, step: Step<R>)
    requires SentinelsOk(s) && Enabled(batchMax, s, step)
    ensures SentinelsOk(Apply(batchMax, s, step))
  {
    match step
    case SubmitPut(job) => QueueAppend(s.queue, Submitted(job));
    case ClosePut => QueueAppend(s.queue, Shutdown);
    case Requeue => QueueAppend(s.queue, Shutdown);
    case _ =>
  }

  lemma BatchesKept<R>(batchMax: nat, s: State<R>, step: Step<R>)
    requires batchMax >= 1 && BatchesOk(batchMax, s) && Enabled(batchMax, s, step)
    ensures BatchesOk(batchMax, Apply(batchMax, s, step))
  {
  }

  lemma CallersKept<R>(batchMax: nat, s: State<R>, step: Step<R>)
    requires CallersOk(s) && Enabled(batchMax, s, step)
    requires var s' := Apply(batchMax, s, step);
      forall job :: job in s.resolved ==> job in s'.resolved && s'.resolved[job] == s.resolved[job]
    ensures CallersOk(Apply(batchMax, s, step))
  {
    if step.SubmitPut? {
      assert step.job !in s.enqueued;
    }
  }

  /** A resolution, once set, stays: `result` and `error` are written at most once per job. */
  lemma ResolvedOnce<R>(batchMax: nat, s: State<R>, step: Step<R>)
    requires Fifo(s) && CallersOk(s) && ResolvedOk(s) && Enabled(batchMax, s, step)
    ensures step.SettleOne? ==> s.worker.batch[s.worker.next] !in s.resolved
    ensures var s' := Apply(batchMax, s, step);
      forall job :: job in s.resolved ==> job in s'.resolved && s'.resolved[job] == s.resolved[job]
  {
    hide Flatten, Expected, JobsOf;
    if step.SettleOne? {
      var done := NextToSettle(s);
      assert s.taken[done] !in s.taken[..done] by {
        TakenAreDistinct(s);
      }
    }
  }

  lemma TakenAreDistinct<R>(s: State<R>)
    requires Fifo(s) && NoDuplicates(s.enqueued)
    ensures NoDuplicates(s.taken)
  {
    hide Flatten, JobsOf;
    assert forall i :: 0 <= i < |s.taken| ==> s.taken[i] == s.enqueued[i];
  }

  /** The job about to be settled is the next one of those taken, and its resolution the expected one. */
  lemma NextToSettle<R>(s: State<R>) returns (done: nat)
    requires Fifo(s) && ResolvedOk(s) && s.worker.Settling? && s.worker.next < |s.worker.batch|
    ensures done == DoneCount(s) && done < |s.taken|
    ensures s.taken[done] == s.worker.batch[s.worker.next]
    ensures done < |Expected(s.dispatched[..|s.outcomes|], s.outcomes)|
    ensures Expected(s.dispatched[..|s.outcomes|], s.outcomes)[done]
      == Settle(s.worker.outcome, |s.worker.batch|, s.worker.next)
  {
    done := DoneCount(s);
    var n := |s.outcomes| - 1;
    var run := s.dispatched[..n + 1];
    assert run[..n] == s.dispatched[..n] && run[n] == s.worker.batch;
    assert Flatten(run) == Flatten(run[..n]) + s.worker.batch;
    assert s.taken[done] == Flatten(run)[done];
    hide Flatten, Settle;
    assert Expected(run, s.outcomes) == Expected(run[..n], s.outcomes[..n]) + Settled(s.outcomes[n], |run[n]|);
  }

  lemma ResolvedKept<R>(batchMax: nat, s: State<R>, step: Step<R>)
    requires Fifo(s) && CallersOk(s) && BatchesOk(batchMax, s) && ResolvedOk(s) && Enabled(batchMax, s, step)
    ensures ResolvedOk(Apply(batchMax, s, step))
  {
    match step
    case RunBatch(outcome) => RunKeepsResolved(batchMax, s, outcome);
    case SettleOne => SettleKeepsResolved(batchMax, s);
    case Record => RecordKeepsResolved(batchMax, s);
    case TakeFirst => TakeKeepsResolved(batchMax, s, step);
    case TakeMore => TakeKeepsResolved(batchMax, s, step);
    case _ => OthersKeepResolved(batchMax, s, step);
  }

  lemma OthersKeepResolved<R>(batchMax: nat, s: State<R>, step: Step<R>)
    requires ResolvedOk(s) && Enabled(batchMax, s, step)
    requires !step.RunBatch? && !step.SettleOne? && !step.Record? && !step.TakeFirst? && !step.TakeMore?
    ensures ResolvedOk(Apply(batchMax, s, step))
  {
    hide Flatten, Expected;
  }

  lemma TakenGrows<R>(s: State<R>, s': State<R>)
    requires ResolvedOk(s) && s.taken <= s'.taken
    requires s'.dispatched == s.dispatched && s'.outcomes == s.outcomes && s'.resolved == s.resolved
    requires !s.worker.Running? && !s.worker.Settling? && !s'.worker.Running? && !s'.worker.Settling?
    ensures ResolvedOk(s')
  {
    hide Flatten, Expected;
    assert s'.taken[..DoneCount(s)] == s.taken[..DoneCount(s)];
  }

  lemma TakeKeepsResolved<R>(batchMax: nat, s: State<R>, step: Step<R>)
    requires ResolvedOk(s) && Enabled(batchMax, s, step) && (step.TakeFirst? || step.TakeMore?)
    ensures ResolvedOk(Apply(batchMax, s, step))
  {
    hide ResolvedOk;
    TakenGrows(s, Apply(batchMax, s, step));
  }

  lemma RecordKeepsResolved<R>(batchMax: nat, s: State<R>)
    requires ResolvedOk(s) && s.worker.Collected?
    ensures ResolvedOk(Apply(batchMax, s, Record))
  {
    hide Flatten, Expected;
    var s' := Apply(batchMax, s, Record);
    assert s'.dispatched[..|s.outcomes|] == s.dispatched[..|s.outcomes|];
    assert DoneCount(s') == DoneCount(s);
  }

  /** Running the recorded batch appends its resolutions to the expected ones. */
  lemma RunExtendsExpected<R>(s: State<R>, outcome: RunOutcome<R>)
    requires Fifo(s) && ResolvedOk(s) && s.worker.Running?
    ensures var n := |s.outcomes|;
      && s.dispatched[..n + 1] == s.dispatched
      && Flatten(s.dispatched) == s.taken
      && |Flatten(s.dispatched)| == |Flatten(s.dispatched[..n])| + |s.worker.batch|
      && Expected(s.dispatched[..n], s.outcomes) <= Expected(s.dispatched, s.outcomes + [outcome])
  {
    var n := |s.outcomes|;
    assert s.dispatched == s.dispatched[..n] + [s.worker.batch];
    FlattenAppend(s.dispatched[..n], s.worker.batch);
    assert (s.outcomes + [outcome])[..n] == s.outcomes;
    hide Flatten, Settle, JobsOf;
    assert Expected(s.dispatched, s.outcomes + [outcome])
      == Expected(s.dispatched[..n], s.outcomes) + Settled(outcome, |s.worker.batch|);
  }

  lemma RunKeepsResolved<R>(batchMax: nat, s: State<R>, outcome: RunOutcome<R>)
    requires Fifo(s) && ResolvedOk(s) && s.worker.Running?
    ensures ResolvedOk(Apply(batchMax, s, RunBatch(outcome)))
  {
    hide Flatten, Expected, JobsOf, Fifo;
    var s' := Apply(batchMax, s, RunBatch(outcome));
    RunExtendsExpected(s, outcome);
    assert s'.dispatched[..|s'.outcomes|] == s.dispatched;
    assert DoneCount(s') == DoneCount(s);
  }

  lemma DistinctFromCallers<R>(s: State<R>)
    requires CallersOk(s)
    ensures NoDuplicates(s.enqueued)
  {
  }

  lemma SettleKeepsResolved<R>(batchMax: nat, s: State<R>)
    requires Fifo(s) && CallersOk(s) && ResolvedOk(s) && s.worker.Settling? && s.worker.next < |s.worker.batch|
    ensures ResolvedOk(Apply(batchMax, s, SettleOne))
  {
    hide Flatten, Expected, JobsOf, Fifo, CallersOk, Settle;
    var s' := Apply(batchMax, s, SettleOne);
    var done := NextToSettle(s);
    DistinctFromCallers(s);
    TakenAreDistinct(s);
    assert DoneCount(s') == done + 1;
    assert s.taken[..done + 1] == s.taken[..done] + [s.taken[done]];
  }

  // ----- the position of the sentinels -----

  lemma {:induction false} NoSentinels(queue: seq<Entry>)
    requires Sentinels(queue) == 0
    ensures forall p :: 0 <= p < |queue| ==> !queue[p].Shutdown?
  {
    if queue != [] { NoSentinels(queue[1..]); }
  }

  lemma MarkKeptByPut<R>(s: State<R>, e: Entry, mark: nat)
    requires Fifo(s)
    requires mark <= |s.enqueued|
    requires forall p :: 0 <= p < |s.queue| && s.queue[p].Shutdown? ==> mark <= Ahead(s, p)
    ensures forall p :: 0 <= p < |s.queue| + 1 && (s.queue + [e])[p].Shutdown? ==>
      mark <= |s.taken| + |JobsOf((s.queue + [e])[..p])|
  {
    hide JobsOf, Flatten;
    forall p | 0 <= p < |s.queue| + 1 && (s.queue + [e])[p].Shutdown?
      ensures mark <= |s.taken| + |JobsOf((s.queue + [e])[..p])|
    {
      assert (s.queue + [e])[..p] == s.queue[..p];
      if p == |s.queue| { assert s.queue[..p] == s.queue; }
    }
  }

  lemma MarkKeptByTake<R>(s: State<R>, s': State<R>, mark: nat)
    requires s.queue != [] && s'.queue == s.queue[1..]
    requires |s'.taken| == |s.taken| + if s.queue[0].Submitted? then 1 else 0
    requires forall p :: 0 <= p < |s.queue| && s.queue[p].Shutdown? ==> mark <= Ahead(s, p)
    ensures forall p :: 0 <= p < |s'.queue| && s'.queue[p].Shutdown? ==> mark <= Ahead(s', p)
    ensures s.queue[0].Shutdown? ==> mark <= |s.taken|
  {
    hide JobsOf;
    assert JobsOf(s.queue[..0]) == [] by { EmptyQueue(); }
    if s.queue[0].Shutdown? {
      assert mark <= Ahead(s, 0);
    }
    forall p | 0 <= p < |s'.queue| && s'.queue[p].Shutdown? ensures mark <= Ahead(s', p) {
      assert s.queue[p + 1] == s'.queue[p];
      assert mark <= Ahead(s, p + 1);
      QueueTail(s.queue[..p + 1]);
      assert s.queue[..p + 1][1..] == s'.queue[..p];
    }
  }

  lemma EmptyQueue()
    ensures JobsOf([]) == []
  {
  }

  lemma MarkKept<R>(batchMax: nat, s: State<R>, step: Step<R>)
    requires Fifo(s) && SentinelsOk(s) && MarkOk(s) && Enabled(batchMax, s, step)
    ensures MarkOk(Apply(batchMax, s, step))
  {
    hide JobsOf, Flatten, Sentinels;
    var s' := Apply(batchMax, s, step);
    match step
    case SubmitPut(job) =>
      if s.mark.Some? { MarkKeptByPut(s, Submitted(job), s.mark.value); }
    case ClosePut =>
      if s.mark.None? {
        NoSentinels(s.queue);
        MarkKeptByPut(s, Shutdown, |s.enqueued|);
      } else {
        MarkKeptByPut(s, Shutdown, s.mark.value);
      }
    case Requeue =>
      if s.mark.Some? { MarkKeptByPut(s, Shutdown, s.mark.value); }
    case TakeFirst =>
      if s.mark.Some? { MarkKeptByTake(s, s', s.mark.value); }
    case TakeMore =>
      if s.mark.Some? { MarkKeptByTake(s, s', s.mark.value); }
    case _ =>
      assert s'.queue == s.queue && s'.taken == s.taken && s'.enqueued == s.enqueued && s'.mark == s.mark;
      assert forall p :: 0 <= p < |s.queue| ==> Ahead(s', p) == Ahead(s, p);
  }

  /** Every step of every thread keeps the invariant. */
  lemma StepKeepsInv<R>(batchMax: nat, s: State<R>, step: Step<R>)
    requires batchMax >= 1 && Inv(batchMax, s) && Enabled(batchMax, s, step)
    ensures Inv(batchMax, Apply(batchMax, s, step))
  {
    hide Fifo, CallersOk, BatchesOk, ResolvedOk, SentinelsOk, MarkOk, Apply;
    FifoKept(batchMax, s, step);
    ResolvedOnce(batchMax, s, step);
    CallersKept(batchMax, s, step);
    BatchesKept(batchMax, s, step);
    ResolvedKept(batchMax, s, step);
    SentinelsKept(batchMax, s, step);
    MarkKept(batchMax, s, step);
  }

  /** The invariant holds after every interleaving. */
  lemma {:induction false} RunKeepsInv<R>(batchMax: nat, s: State<R>, steps: seq<Step<R>>)
    requires batchMax >= 1 && Inv(batchMax, s) && Executable(batchMax, s, steps)
    ensures Inv(batchMax, Execute(batchMax, s, steps))
    decreases |steps|
  {
    hide Inv, Apply;
    if steps != [] {
      StepKeepsInv(batchMax, s, steps[0]);
      RunKeepsInv(batchMax, Apply(batchMax, s, steps[0]), steps[1..]);
    }
  }

  // ----- what a reachable state promises -----

  lemma {:induction false} ExpectedAt<R>(batches: seq<seq<JobId>>, outcomes: seq<RunOutcome<R>>, b: nat, p: nat) returns (i: nat)
    requires |batches| == |outcomes| && b < |batches| && p < |batches[b]|
    ensures i < |Flatten(batches)| && Flatten(batches)[i] == batches[b][p]
    ensures Expected(batches, outcomes)[i] == Settle(outcomes[b], |batches[b]|, p)
  {
    hide Settle;
    var n := |batches| - 1;
    if b == n {
      i := |Flatten(batches[..n])| + p;
    } else {
      i := ExpectedAt(batches[..n], outcomes[..n], b, p);
    }
  }

  /** From the initial state, whatever the threads do. */
  lemma ReachableInv<R>(batchMax: nat, steps: seq<Step<R>>)
    requires batchMax >= 1 && Executable(batchMax, Init(), steps)
    ensures Inv(batchMax, Execute(batchMax, Init(), steps))
  {
    InitInv<R>(batchMax);
    RunKeepsInv(batchMax, Init(), steps);
  }

  /** What the job at position `p` of batch `b` is resolved with once `run_batch` has ended. */
  ghost predicate HasOwnResult<R>(s: State<R>, b: nat, p: nat, resolution: Resolution<R>)
    requires b < |s.outcomes| && b < |s.dispatched| && p < |s.dispatched[b]|
  {
    match s.outcomes[b]
    case Raised(error) => resolution == Relayed(error)
    case Returned(results) =>
      if |results| == |s.dispatched[b]| then resolution == Value(results[p])
      else resolution == WrongLength(|results|, |s.dispatched[b]|)
  }

  /**
   A resolved job has its own positional result, or the error of its batch, and a
   caller that has been answered has got exactly that: for every batch that was run,
   with whatever outcome.
   */
  lemma OwnPositionalResult<R>(batchMax: nat, steps: seq<Step<R>>, b: nat, p: nat)
    requires batchMax >= 1 && Executable(batchMax, Init(), steps)
    requires var s := Execute(batchMax, Init(), steps);
      b < |s.outcomes| && b < |s.dispatched| && p < |s.dispatched[b]|
    ensures var s := Execute(batchMax, Init(), steps);
      var job := s.dispatched[b][p];
      && (job in s.resolved ==> HasOwnResult(s, b, p, s.resolved[job]))
      && (job in s.callers && s.callers[job].Answered? ==> HasOwnResult(s, b, p, s.callers[job].resolution))
  {
    hide Execute, Executable, Flatten, Expected, JobsOf, BatchesOk, SentinelsOk, MarkOk;
    var s := Execute(batchMax, Init(), steps);
    ReachableInv(batchMax, steps);
    var run := s.dispatched[..|s.outcomes|];
    var i := ExpectedAt(run, s.outcomes, b, p);
    TakenAreDistinct(s);
    var job := s.dispatched[b][p];
    assert s.taken[i] == job;
    if job in s.resolved {
      ResolvedIndex(s, i);
    }
  }

  lemma ResolvedIndex<R>(s: State<R>, i: nat)
    requires ResolvedOk(s) && NoDuplicates(s.taken) && i < |s.taken| && s.taken[i] in s.resolved
    ensures i < DoneCount(s)
    ensures i < |Expected(s.dispatched[..|s.outcomes|], s.outcomes)|
    ensures s.resolved[s.taken[i]] == Expected(s.dispatched[..|s.outcomes|], s.outcomes)[i]
  {
    hide Flatten, Expected;
    var done := DoneCount(s);
    assert s.taken[i] in s.taken[..done];
    var k :| 0 <= k < done && s.taken[k] == s.taken[i];
    assert k == i;
  }

  lemma NotInBothHalves(a: seq<JobId>, b: seq<JobId>, k: nat)
    requires NoDuplicates(a + b) && k < |a|
    ensures a[k] !in b
  {
    forall l | 0 <= l < |b| ensures b[l] != a[k] {
      assert (a + b)[k] != (a + b)[|a| + l];
    }
  }

  lemma NotInFirstHalf(a: seq<JobId>, b: seq<JobId>, i: nat)
    requires NoDuplicates(a + b) && |a| <= i < |a + b|
    ensures (a + b)[i] !in a
  {
    forall k | 0 <= k < |a| ensures a[k] != (a + b)[i] {
      assert (a + b)[k] != (a + b)[i];
    }
  }

  /**
   Every job that was ever enqueued is in exactly one place: still in the queue,
   taken but not resolved, or resolved. Batches are never empty nor over the limit,
   and with what is in hand and queued they are the enqueue order.
   */
  lemma EveryJobAccountedFor<R>(batchMax: nat, steps: seq<Step<R>>)
    requires batchMax >= 1 && Executable(batchMax, Init(), steps)
    ensures var s := Execute(batchMax, Init(), steps);
      && Flatten(s.dispatched) + InHand(s.worker) + JobsOf(s.queue) == s.enqueued
      && NoDuplicates(s.enqueued)
      && (forall b :: 0 <= b < |s.batchSizes| ==> b < |s.dispatched| && 1 <= s.batchSizes[b] == |s.dispatched[b]| <= batchMax)
      && (forall job :: job in s.resolved ==> job in s.taken && job !in JobsOf(s.queue))
      && (forall job :: job in s.enqueued && job !in s.resolved ==> job in s.taken || job in JobsOf(s.queue))
      && (forall job :: job in s.callers && s.callers[job].Answered? ==>
            job in s.resolved && s.callers[job].resolution == s.resolved[job])
  {
    hide Execute, Executable, Flatten, Expected, Settle, JobsOf, SentinelsOk, MarkOk;
    var s := Execute(batchMax, Init(), steps);
    ReachableInv(batchMax, steps);
    TakenAreDistinct(s);
    forall job | job in s.resolved ensures job in s.taken && job !in JobsOf(s.queue) {
      var done := DoneCount(s);
      var k :| 0 <= k < done && s.taken[k] == job;
      NotInBothHalves(s.taken, JobsOf(s.queue), k);
    }
    forall job | job in s.enqueued && job !in s.resolved ensures job in s.taken || job in JobsOf(s.queue) {
      var k :| 0 <= k < |s.enqueued| && s.enqueued[k] == job;
      if k < |s.taken| { assert s.taken[k] == job; } else { assert JobsOf(s.queue)[k - |s.taken|] == job; }
    }
  }

  // ----- shutdown -----

  /** Sentinel conservation: until the worker exits, at least one sentinel that was put is still on its way. */
  lemma SentinelStaysInPlay<R>(batchMax: nat, steps: seq<Step<R>>)
    requires batchMax >= 1 && Executable(batchMax, Init(), steps)
    ensures var s := Execute(batchMax, Init(), steps);
      s.sentinelsPut > 0 && !s.worker.Exited? ==> Sentinels(s.queue) > 0 || s.worker.Requeueing?
  {
    hide Execute, Executable, Fifo, CallersOk, BatchesOk, ResolvedOk, MarkOk;
    ReachableInv(batchMax, steps);
  }

  /** Once the worker has exited, the resolved jobs are exactly those taken from the queue. */
  lemma ExitedResolvesTaken<R>(batchMax: nat, s: State<R>, i: nat)
    requires Inv(batchMax, s) && s.worker.Exited? && i < |s.enqueued|
    ensures s.enqueued[i] in s.resolved <==> i < |s.taken|
  {
    hide Flatten, Expected, Settle, JobsOf, BatchesOk, SentinelsOk, MarkOk;
    TakenAreDistinct(s);
    assert s.dispatched[..|s.outcomes|] == s.dispatched;
    assert DoneCount(s) == |s.taken|;
    assert s.taken[..|s.taken|] == s.taken;
    if i < |s.taken| {
      assert s.taken[i] == s.enqueued[i];
    } else {
      NotInFirstHalf(s.taken, JobsOf(s.queue), i);
    }
  }

  /**
   Once the worker has exited, the resolved jobs are exactly those taken from the
   queue, and among them is every job enqueued before the first sentinel was put,
   even if batches raised or returned the wrong length.
   */
  lemma ExitResolvesEarlierJobs<R>(batchMax: nat, steps: seq<Step<R>>, i: nat)
    requires batchMax >= 1 && Executable(batchMax, Init(), steps)
    requires var s := Execute(batchMax, Init(), steps); s.worker.Exited? && i < |s.enqueued|
    ensures var s := Execute(batchMax, Init(), steps);
      && (s.enqueued[i] in s.resolved <==> i < |s.taken|)
      && s.mark.Some?
      && (i < s.mark.value ==> s.enqueued[i] in s.resolved)
  {
    hide Execute, Executable, Fifo, CallersOk, BatchesOk, ResolvedOk, Sentinels;
    ReachableInv(batchMax, steps);
    ExitedResolvesTaken(batchMax, Execute(batchMax, Init(), steps), i);
  }

  /** After the exit nothing is resolved any more, whatever the other threads still do. */
  lemma {:induction false} NothingResolvedAfterExit<R>(batchMax: nat, s: State<R>, steps: seq<Step<R>>)
    requires s.worker.Exited? && Executable(batchMax, s, steps)
    ensures var s' := Execute(batchMax, s, steps); s'.worker.Exited? && s'.resolved == s.resolved && s'.taken == s.taken
    decreases |steps|
  {
    if steps != [] {
      NothingResolvedAfterExit(batchMax, Apply(batchMax, s, steps[0]), steps[1..]);
    }
  }

  /**
   A schedule that strands a job: the submitter passes the closed check
   before `close` and puts its job after the worker has taken the sentinel.
   */
  lemma LateSubmissionIsStranded<R>(batchMax: nat, later: seq<Step<R>>)
    requires batchMax >= 1
    ensures var steps: seq<Step<R>> := [SubmitCheck(0), CloseCheck, CloseSet, ClosePut, TakeFirst, SubmitPut(0)];
      && Executable(batchMax, Init(), steps)
      && var s := Execute(batchMax, Init(), steps);
      && s.worker.Exited? && s.enqueued == [0]
      && (Executable(batchMax, s, later) ==> 0 !in Execute(batchMax, s, later).resolved)
  {
    var s0: State<R> := Init();
    var s1 := Apply(batchMax, s0, SubmitCheck(0));
    var s2 := Apply(batchMax, s1, CloseCheck);
    var s3 := Apply(batchMax, s2, CloseSet);
    var s4 := Apply(batchMax, s3, ClosePut);
    var s5 := Apply(batchMax, s4, TakeFirst);
    var s6 := Apply(batchMax, s5, SubmitPut(0));
    var steps: seq<Step<R>> := [SubmitCheck(0), CloseCheck, CloseSet, ClosePut, TakeFirst, SubmitPut(0)];
    assert steps[1..] == [CloseCheck, CloseSet, ClosePut, TakeFirst, SubmitPut(0)];
    assert steps[1..][1..] == [CloseSet, ClosePut, TakeFirst, SubmitPut(0)];
    assert steps[1..][1..][1..] == [ClosePut, TakeFirst, SubmitPut(0)];
    assert steps[1..][1..][1..][1..] == [TakeFirst, SubmitPut(0)];
    assert steps[1..][1..][1..][1..][1..] == [SubmitPut(0)];
    assert steps[1..][1..][1..][1..][1..][1..] == [];
    assert Executable(batchMax, s6, []) && Execute(batchMax, s6, []) == s6;
    assert Executable(batchMax, s5, [SubmitPut(0)]) && Execute(batchMax, s5, [SubmitPut(0)]) == s6;
    assert Executable(batchMax, s4, [TakeFirst, SubmitPut(0)]) && Execute(batchMax, s4, [TakeFirst, SubmitPut(0)]) == s6;
    assert Executable(batchMax, s3, steps[3..]) && Execute(batchMax, s3, steps[3..]) == s6;
    assert Executable(batchMax, s2, steps[2..]) && Execute(batchMax, s2, steps[2..]) == s6;
    assert Executable(batchMax, s1, steps[1..]) && Execute(batchMax, s1, steps[1..]) == s6;
    if Executable(batchMax, s6, later) {
      NothingResolvedAfterExit(batchMax, s6, later);
    }
  }

  // ----- the worker does not get stuck -----

  predicate WorkerStep<R>(step: Step<R>) {
    step.TakeFirst? || step.TakeMore? || step.StopCollecting? || step.Requeue?
    || step.Record? || step.RunBatch? || step.SettleOne? || step.SettleDone?
  }

  /** Work left for the worker: what its own state still takes, and eight steps' worth for each queued job. */
  function WorkLeft<R>(s: State<R>): int {
    8 * |JobsOf(s.queue)| +
    match s.worker
    case Exited => 0
    case Waiting => 1
    case Collecting(batch) => |batch| + 6
    case Requeueing(batch) => |batch| + 5
    case Collected(batch) => |batch| + 4
    case Running(batch) => |batch| + 3
    case Settling(batch, outcome, next) => |batch| - next + 2
  }

  /**
   While anything is queued or in hand, and once a sentinel has been put until it
   exits, the worker has a step to take, and every step it takes reduces the work
   left, re-queueing the sentinel included.
   */
  lemma WorkerProgress<R>(batchMax: nat, s: State<R>)
    requires batchMax >= 1 && Inv(batchMax, s) && !s.worker.Exited?
    requires s.sentinelsPut > 0 || s.queue != [] || !s.worker.Waiting?
    ensures WorkLeft(s) > 0
    ensures exists step: Step<R> :: WorkerStep(step) && Enabled(batchMax, s, step)
    ensures forall step: Step<R> :: WorkerStep(step) && Enabled(batchMax, s, step) ==>
      WorkLeft(Apply(batchMax, s, step)) < WorkLeft(s)
  {
    hide Fifo, CallersOk, MarkOk, Settle, Flatten, Expected;
    var step: Step<R> := match s.worker
      case Waiting => TakeFirst
      case Collecting(_) => StopCollecting
      case Requeueing(_) => Requeue
      case Collected(_) => Record
      case Running(_) => RunBatch(Raised(""))
      case Settling(batch, _, next) => if next < |batch| then SettleOne else SettleDone
      case Exited => TakeFirst;
    assert WorkerStep(step) && Enabled(batchMax, s, step);
    forall step: Step<R> | WorkerStep(step) && Enabled(batchMax, s, step)
      ensures WorkLeft(Apply(batchMax, s, step)) < WorkLeft(s)
    {
      WorkerStepReducesWork(batchMax, s, step);
    }
  }

  lemma WorkerStepReducesWork<R>(batchMax: nat, s: State<R>, step: Step<R>)
    requires Enabled(batchMax, s, step) && WorkerStep(step)
    ensures WorkLeft(Apply(batchMax, s, step)) < WorkLeft(s)
  {
    hide Settle, JobsOf;
    if step.TakeFirst? || step.TakeMore? {
      QueueTail(s.queue);
    } else if step.Requeue? {
      QueueAppend(s.queue, Shutdown);
    }
  }

  /** Nothing but a submission that was admitted before the close can add to it. */
  lemma OthersAddNoWork<R>(batchMax: nat, s: State<R>, step: Step<R>)
    requires Enabled(batchMax, s, step) && !WorkerStep(step)
    ensures WorkLeft(Apply(batchMax, s, step)) == WorkLeft(s) + if step.SubmitPut? then 8 else 0
    ensures s.closed ==> !step.SubmitCheck? && Apply(batchMax, s, step).closed
  {
    if step.SubmitPut? {
      QueueAppend(s.queue, Submitted(step.job));
    } else if step.ClosePut? {
      QueueAppend(s.queue, Shutdown);
    }
  }
}
