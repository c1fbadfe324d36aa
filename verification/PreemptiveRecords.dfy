/** What the records of a preemptive run mean: the times they hold are times at which the job really ran. */
module PreemptiveRecords {
  import opened Optional
  import opened Workload
  import opened PreemptiveSimulator

  /**
   One iteration, seen from any job. Nothing changes but the job that the server is on;
   that one gains at most a quantum and as much as the clock has passed since it was
   resumed. A first start and a finish, once set, stay; when they are set, the first
   start lies the attained service before the new clock, and the finish is that clock.
   */
  lemma TickOfJob(c: Config, s: Sim, i: nat)
    requires ValidConfig(c) && Inv(s) && i < |s.jobs|
    ensures var s' := Tick(c, s);
      && |s'.jobs| == |s.jobs|
      && var before, after := s.jobs[i], s'.jobs[i];
      && after.item == before.item && after.arrival == before.arrival
      && (after != before ==>
            && s'.prev == Some(i) && before.finish.None? && before.arrival <= s.now
            && before.attained < after.attained <= before.attained + c.quantum
            && s'.now - (after.attained - before.attained)
               == s.now + if s.prev.Some? && s.prev != Some(i) then c.switchPenalty else 0.0)
      && (before.firstStart.Some? ==> after.firstStart == before.firstStart)
      && (before.firstStart.None? && after.firstStart.Some? ==> after.firstStart.value + after.attained == s'.now)
      && (before.finish.None? && after.finish.Some? ==> after.finish.value == s'.now)
  {
    hide ServiceTime, Active, Picked, AdmitJobs;
    var idx := AdmitJobs(s.jobs, s.now, s.idx);
    AdmittedHaveArrived(s.jobs, s.now, s.idx);
    assert JobOk(s.jobs[i]);
  }

  /** The iteration in which a job first runs. */
  ghost predicate FirstRuns(c: Config, s: Sim, i: nat, n: nat, at: real)
    requires ValidConfig(c) && Inv(s) && i < |s.jobs|
  {
    JobCount(c, s, n);
    JobCount(c, s, n + 1);
    var before, after := Iterate(c, s, n), Iterate(c, s, n + 1);
    && before.jobs[i].attained == 0.0
    && after.jobs[i].attained > 0.0
    && at + after.jobs[i].attained == after.now
  }

  /** The iteration in which no more than the residue of a job's work is left for the first time. */
  ghost predicate Completes(c: Config, s: Sim, i: nat, n: nat, at: real)
    requires ValidConfig(c) && Inv(s) && i < |s.jobs|
  {
    JobCount(c, s, n);
    JobCount(c, s, n + 1);
    var before, after := Iterate(c, s, n), Iterate(c, s, n + 1);
    && before.jobs[i].remaining > RESIDUE
    && after.jobs[i].remaining <= RESIDUE
    && at == after.now
  }

  lemma IterateOnce(c: Config, s: Sim, n: nat)
    requires ValidConfig(c) && Inv(s)
    ensures Inv(Tick(c, s)) && Iterate(c, s, 0) == s && Iterate(c, s, n + 1) == Iterate(c, Tick(c, s), n)
  {
    hide Tick;
    TickKeepsInv(c, s);
  }

  lemma {:induction false} FirstStartKept(c: Config, s: Sim, i: nat)
    requires ValidConfig(c) && Inv(s) && i < |s.jobs| && s.jobs[i].firstStart.Some?
    ensures i < |Finish(c, s).jobs| && Finish(c, s).jobs[i].firstStart == s.jobs[i].firstStart
    decreases Rank(s, c.quantum)
  {
    hide Tick, JobOk, Rank;
    if !AllFinished(s) {
      TickKeepsInv(c, s);
      TickTakesRank(c, s);
      TickOfJob(c, s, i);
      FirstStartKept(c, Tick(c, s), i);
    }
  }

  lemma {:induction false} FinishKept(c: Config, s: Sim, i: nat)
    requires ValidConfig(c) && Inv(s) && i < |s.jobs| && s.jobs[i].finish.Some?
    ensures i < |Finish(c, s).jobs| && Finish(c, s).jobs[i].finish == s.jobs[i].finish
    decreases Rank(s, c.quantum)
  {
    hide Tick, JobOk, Rank;
    if !AllFinished(s) {
      TickKeepsInv(c, s);
      TickTakesRank(c, s);
      TickOfJob(c, s, i);
      FinishKept(c, Tick(c, s), i);
    }
  }

  lemma NotStarted(job: JobState)
    requires JobOk(job) && job.firstStart.None?
    ensures job.attained == 0.0 && job.finish.None?
  {
  }

  /** The first start that a run records is the moment at which the job first runs. */
  lemma {:induction false} FirstStartIsReal(c: Config, s: Sim, i: nat) returns (n: nat)
    requires ValidConfig(c) && Inv(s) && i < |s.jobs| && s.jobs[i].firstStart.None?
    ensures i < |Finish(c, s).jobs| && Finish(c, s).jobs[i].firstStart.Some?
    ensures FirstRuns(c, s, i, n, Finish(c, s).jobs[i].firstStart.value)
    decreases Rank(s, c.quantum)
  {
    hide Tick, JobOk, Rank, Finish, Iterate;
    NotStarted(s.jobs[i]);
    FinishOfTick(c, s);
    TickTakesRank(c, s);
    TickOfJob(c, s, i);
    IterateOnce(c, s, 0);
    IterateOnce(c, Tick(c, s), 0);
    if Tick(c, s).jobs[i].firstStart.Some? {
      n := 0;
      FirstStartKept(c, Tick(c, s), i);
    } else {
      n := FirstStartIsReal(c, Tick(c, s), i);
      IterateOnce(c, s, n);
      IterateOnce(c, s, n + 1);
      n := n + 1;
    }
  }

  lemma FinishOfTick(c: Config, s: Sim)
    requires ValidConfig(c) && Inv(s) && !AllFinished(s)
    ensures Inv(Tick(c, s)) && Finish(c, s) == Finish(c, Tick(c, s))
  {
    hide Tick, Inv, Rank;
    TickKeepsInv(c, s);
  }

  lemma DoneAtResidue(job: JobState)
    requires JobOk(job)
    ensures job.finish.Some? <==> job.remaining <= RESIDUE
  {
  }

  /** The finish that a run records is the clock at which the job's work was done. */
  lemma {:induction false} FinishIsReal(c: Config, s: Sim, i: nat) returns (n: nat)
    requires ValidConfig(c) && Inv(s) && i < |s.jobs| && s.jobs[i].finish.None?
    ensures i < |Finish(c, s).jobs| && Finish(c, s).jobs[i].finish.Some?
    ensures Completes(c, s, i, n, Finish(c, s).jobs[i].finish.value)
    decreases Rank(s, c.quantum)
  {
    hide Tick, JobOk, Rank, Finish, Iterate;
    FinishOfTick(c, s);
    TickTakesRank(c, s);
    TickOfJob(c, s, i);
    IterateOnce(c, s, 0);
    IterateOnce(c, Tick(c, s), 0);
    DoneAtResidue(s.jobs[i]);
    DoneAtResidue(Tick(c, s).jobs[i]);
    if Tick(c, s).jobs[i].finish.Some? {
      n := 0;
      FinishKept(c, Tick(c, s), i);
    } else {
      n := FinishIsReal(c, Tick(c, s), i);
      IterateOnce(c, s, n);
      IterateOnce(c, s, n + 1);
      n := n + 1;
    }
  }

  /**
   The record of every job after a run: it first ran at its recorded first start, no
   earlier than it arrived; its work was done at its recorded finish; it received its
   whole service up to the residue, and its completion time covers its wait and that
   service.
   */
  lemma RecordsOfRun(c: Config, s: Sim, i: nat) returns (first: nat, last: nat)
    requires ValidConfig(c) && Inv(s)
    requires i < |s.jobs| && s.jobs[i].firstStart.None?
    ensures i < |Finish(c, s).jobs|
    ensures var job := Finish(c, s).jobs[i];
      && job.firstStart.Some? && job.finish.Some?
      && FirstRuns(c, s, i, first, job.firstStart.value)
      && Completes(c, s, i, last, job.finish.value)
      && ServiceTime(job.item) - 0.000000001 <= job.attained <= ServiceTime(job.item)
      && 0.0 <= job.firstStart.value - job.arrival
      && job.firstStart.value - job.arrival + job.attained <= job.finish.value - job.arrival
      && job.finish.value <= Finish(c, s).now
  {
    hide ServiceTime, Finish, Tick, Completes, FirstRuns;
    NotStarted(s.jobs[i]) by { assert JobOk(s.jobs[i]); }
    first := FirstStartIsReal(c, s, i);
    last := FinishIsReal(c, s, i);
    assert JobOk(Finish(c, s).jobs[i]);
  }
}
