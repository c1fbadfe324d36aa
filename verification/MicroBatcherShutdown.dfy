/** How long a shutdown takes: a bound on the worker's own steps, over every interleaving. */
module MicroBatcherShutdown {
  import opened MicroBatcher
  import opened MicroBatcherSafety
  import opened MicroBatcherAnswers

  /** How many of these steps the worker takes. */
  function WorkerSteps<R>(steps: seq<Step<R>>): nat {
    if steps == [] then 0 else (if WorkerStep(steps[0]) then 1 else 0) + WorkerSteps(steps[1..])
  }

  /** How many of them put a job. */
  function Puts<R>(steps: seq<Step<R>>): nat {
    if steps == [] then 0 else (if steps[0].SubmitPut? then 1 else 0) + Puts(steps[1..])
  }

  /** The submitters that have passed the closed check and not put their job yet. */
  function AdmittedJobs<R>(s: State<R>): set<JobId> {
    set job | job in s.callers && s.callers[job].Admitted?
  }

  /** Over any run the worker takes no more steps than the work there was and the work put. */
  lemma {:induction false} StepsPaidByWork<R>(batchMax: nat, s: State<R>, steps: seq<Step<R>>)
    requires Executable(batchMax, s, steps)
    ensures WorkerSteps(steps) + WorkLeft(Execute(batchMax, s, steps)) <= WorkLeft(s) + 8 * Puts(steps)
    decreases |steps|
  {
    hide Apply, Enabled, WorkLeft;
    if steps != [] {
      var s' := Apply(batchMax, s, steps[0]);
      StepsPaidByWork(batchMax, s', steps[1..]);
      if WorkerStep(steps[0]) {
        WorkerStepReducesWork(batchMax, s, steps[0]);
        assert !steps[0].SubmitPut?;
      } else {
        OthersAddNoWork(batchMax, s, steps[0]);
      }
    }
  }

  lemma PutTakesAdmission<R>(batchMax: nat, s: State<R>, step: Step<R>)
    requires Enabled(batchMax, s, step) && s.closed
    ensures var s' := Apply(batchMax, s, step);
      s'.closed && |AdmittedJobs(s')| + (if step.SubmitPut? then 1 else 0) == |AdmittedJobs(s)|
  {
    var s' := Apply(batchMax, s, step);
    if step.SubmitPut? {
      assert AdmittedJobs(s') == AdmittedJobs(s) - {step.job};
    } else {
      assert AdmittedJobs(s') == AdmittedJobs(s);
    }
  }

  /** Once the flag is set, only the submissions admitted before can still be put. */
  lemma {:induction false} PutsWereAdmitted<R>(batchMax: nat, s: State<R>, steps: seq<Step<R>>)
    requires Executable(batchMax, s, steps) && s.closed
    ensures Puts(steps) + |AdmittedJobs(Execute(batchMax, s, steps))| == |AdmittedJobs(s)|
    decreases |steps|
  {
    hide Apply, Enabled, AdmittedJobs;
    if steps != [] {
      PutTakesAdmission(batchMax, s, steps[0]);
      PutsWereAdmitted(batchMax, Apply(batchMax, s, steps[0]), steps[1..]);
    }
  }

  lemma {:induction false} SentinelsStayPut<R>(batchMax: nat, s: State<R>, steps: seq<Step<R>>)
    requires Executable(batchMax, s, steps)
    ensures s.sentinelsPut <= Execute(batchMax, s, steps).sentinelsPut
    decreases |steps|
  {
    if steps != [] { SentinelsStayPut(batchMax, Apply(batchMax, s, steps[0]), steps[1..]); }
  }

  /** Once the flag is set no more closers get past the check, so the sentinels to come are those already on their way. */
  lemma {:induction false} SentinelsAreOnTheirWay<R>(batchMax: nat, s: State<R>, steps: seq<Step<R>>)
    requires Executable(batchMax, s, steps) && s.closed
    ensures var e := Execute(batchMax, s, steps);
      && e.closed
      && e.sentinelsPut + e.closersFlagged + e.closersPassed == s.sentinelsPut + s.closersFlagged + s.closersPassed
    decreases |steps|
  {
    hide Settle;
    if steps != [] {
      SentinelsAreOnTheirWay(batchMax, Apply(batchMax, s, steps[0]), steps[1..]);
    }
  }

  /**
   Shutdown is bounded. Once a sentinel has been put, the worker takes at most the work
   left then and eight steps for each submission admitted before the close, however the
   threads interleave; and until it exits it has a step to take and has taken fewer.
   */
  lemma ShutdownIsBounded<R>(batchMax: nat, s: State<R>, steps: seq<Step<R>>)
    requires batchMax >= 1 && Inv(batchMax, s) && s.sentinelsPut > 0 && Executable(batchMax, s, steps)
    ensures var e := Execute(batchMax, s, steps);
      var bound := WorkLeft(s) + 8 * |AdmittedJobs(s)|;
      && WorkerSteps(steps) <= bound
      && (!e.worker.Exited? ==>
            && WorkerSteps(steps) < bound
            && exists step: Step<R> :: WorkerStep(step) && Enabled(batchMax, e, step))
  {
    hide Fifo, CallersOk, BatchesOk, ResolvedOk, MarkOk, Execute, Executable, WorkLeft, Sentinels, AdmittedJobs, WorkerSteps, Puts, Enabled;
    var e := Execute(batchMax, s, steps);
    RunKeepsInv(batchMax, s, steps);
    StepsPaidByWork(batchMax, s, steps);
    PutsWereAdmitted(batchMax, s, steps);
    SentinelsStayPut(batchMax, s, steps);
    WorkNonNegative(batchMax, e);
    if !e.worker.Exited? {
      WorkerProgress(batchMax, e);
    }
  }
}
