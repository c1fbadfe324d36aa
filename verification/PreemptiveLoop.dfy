/** `_simulate_preemptive` over mutable job records. */
module PreemptiveLoop {
  import opened Optional
  import opened Orders
  import opened Sorting
  import opened Workload
  import opened PreemptiveSimulator

  class Job {
    const item: WorkItem
    const arrival: real
    var remaining: real
    var attained: real
    var firstStart: Option<real>
    var finish: Option<real>

    function State(): JobState
      reads this
    {
      JobState(item, arrival, remaining, attained, firstStart, finish)
    }

    constructor (a: Arrival)
      ensures State() == NewJob(a)
    {
      item, arrival := a.item, a.time;
      remaining, attained := ServiceTime(a.item), 0.0;
      firstStart, finish := None, None;
    }

    /** One quantum of this job; says whether the job is finished by it. */
    method RunQuantum(now: real, quantum: real) returns (step: real, finished: bool)
      modifies this
      ensures State() == RunJob(old(State()), now, quantum)
      ensures firstStart == if old(firstStart).None? then Some(now) else old(firstStart)
      ensures finish == if finished then Some(now + step) else old(finish)
      ensures step == RMin(quantum, old(remaining))
      ensures finished <==> remaining <= RESIDUE
    {
      if firstStart.None? {
        firstStart := Some(now);
      }
      step := RMin(quantum, remaining);
      remaining := remaining - step;
      attained := attained + step;
      finished := remaining <= RESIDUE;
      if finished {
        finish := Some(now + step);
      }
    }
  }

  function States(jobs: seq<Job>): (r: seq<JobState>)
    reads jobs
    ensures |r| == |jobs|
    ensures forall i :: 0 <= i < |r| ==> r[i] == jobs[i].State()
  {
    seq(|jobs|, i requires 0 <= i < |jobs| reads jobs => jobs[i].State())
  }

  ghost predicate Distinct(jobs: seq<Job>) {
    forall i, j :: 0 <= i < j < |jobs| ==> jobs[i] != jobs[j]
  }

  method CreateJobs(arrivals: seq<Arrival>) returns (jobs: seq<Job>)
    ensures forall i :: 0 <= i < |jobs| ==> fresh(jobs[i])
    ensures Distinct(jobs)
    ensures States(jobs) == NewJobs(arrivals)
  {
    var sorted := Sort(TimeKey, arrivals);
    jobs := [];
    while |jobs| < |sorted|
      invariant |jobs| <= |sorted|
      invariant forall i :: 0 <= i < |jobs| ==> fresh(jobs[i]) && jobs[i].State() == NewJob(sorted[i])
      invariant Distinct(jobs)
    {
      var job := new Job(sorted[|jobs|]);
      jobs := jobs + [job];
    }
  }

  /** `[j for j in admitted if j["finish"] is None]`. */
  method CollectActive(jobs: seq<Job>, idx: nat) returns (active: seq<Job>)
    requires idx <= |jobs|
    ensures var positions := Active(States(jobs), idx);
      |active| == |positions| && forall p :: 0 <= p < |active| ==> active[p] == jobs[positions[p]]
  {
    active := [];
    var i := 0;
    ghost var states := States(jobs);
    while i < idx
      invariant i <= idx
      invariant var positions := Active(states, i);
        |active| == |positions| && forall p :: 0 <= p < |active| ==> active[p] == jobs[positions[p]]
    {
      if jobs[i].finish.None? {
        active := active + [jobs[i]];
      }
      i := i + 1;
    }
  }

  /** The loop variables stand for the simulation state `s`. */
  ghost predicate Stands(jobs: seq<Job>, now: real, idx: nat, done: nat, prev: Job?, s: Sim)
    reads jobs
  {
    && Inv(s) && s.idx <= |s.jobs|
    && States(jobs) == s.jobs && now == s.now && idx == s.idx
    && done == FinishedCount(s.jobs)
    && (prev == null <==> s.prev.None?)
    && (s.prev.Some? ==> s.prev.value < |jobs| && prev == jobs[s.prev.value])
  }

  method SimulatePreemptive(arrivals: seq<Arrival>, c: Config) returns (jobs: seq<Job>, now: real)
    requires ValidConfig(c)
    ensures Inv(Sim(0.0, NewJobs(arrivals), 0, None))
    ensures var r := Finish(c, Sim(0.0, NewJobs(arrivals), 0, None));
      States(jobs) == r.jobs && now == r.now
  {
    hide NewJobs, NewJob, Inv, Rank, Finish, FinishedCount, RunJob, Tick, ServiceTime, Active, Sort;
    jobs := CreateJobs(arrivals);
    ghost var s0 := Sim(0.0, NewJobs(arrivals), 0, None);
    InitialInv(arrivals);
    FreshUnfinished(arrivals);
    ghost var s := s0;
    now := 0.0;
    var idx: nat, done: nat := 0, 0;
    var prev: Job? := null;
    while done < |jobs|
      invariant Stands(jobs, now, idx, done, prev, s) && Distinct(jobs)
      invariant forall i :: 0 <= i < |jobs| ==> fresh(jobs[i])
      invariant Finish(c, s) == Finish(c, s0)
      decreases Rank(s, c.quantum)
    {
      SomeUnfinished(s);
      TickTakesRank(c, s);
      TickKeepsInv(c, s);
      FinishUnfolds(c, s);
      now, idx, done, prev := Iteration(c, jobs, now, idx, done, prev, s);
      s := Tick(c, s);
    }
    AllFinishedAtCount(s);
    FinishUnfolds(c, s);
  }

  lemma FreshUnfinished(arrivals: seq<Arrival>)
    ensures FinishedCount(NewJobs(arrivals)) == 0
  {
    NoneFinished(NewJobs(arrivals));
  }

  lemma {:induction false} CountBelowLength(jobs: seq<JobState>)
    ensures FinishedCount(jobs) <= |jobs|
    ensures FinishedCount(jobs) == |jobs| <==> forall i :: 0 <= i < |jobs| ==> jobs[i].finish.Some?
  {
    if jobs != [] {
      CountBelowLength(jobs[1..]);
      assert forall i :: 1 <= i < |jobs| ==> jobs[i] == jobs[1..][i - 1];
    }
  }

  lemma SomeUnfinished(s: Sim)
    requires FinishedCount(s.jobs) < |s.jobs|
    ensures !AllFinished(s)
  {
    CountBelowLength(s.jobs);
  }

  lemma AllFinishedAtCount(s: Sim)
    requires FinishedCount(s.jobs) >= |s.jobs|
    ensures AllFinished(s)
  {
    CountBelowLength(s.jobs);
  }

  lemma FinishUnfolds(c: Config, s: Sim)
    requires ValidConfig(c) && Inv(s)
    ensures AllFinished(s) ==> Finish(c, s) == s
    ensures !AllFinished(s) ==> Inv(Tick(c, s)) && Finish(c, s) == Finish(c, Tick(c, s))
  {
    hide Inv, Tick, Rank;
    TickKeepsInv(c, s);
  }

  /** One iteration of the outer loop. */
  method Iteration(c: Config, jobs: seq<Job>, now0: real, idx0: nat, done0: nat, prev0: Job?, ghost s: Sim)
    returns (now: real, idx: nat, done: nat, prev: Job?)
    requires ValidConfig(c) && Distinct(jobs) && Stands(jobs, now0, idx0, done0, prev0, s) && !AllFinished(s)
    modifies jobs
    ensures Stands(jobs, now, idx, done, prev, Tick(c, s))
  {
    hide ServiceTime, Active, RunJob, Inv, Tick, FinishedCount, Picked, AdmitJobs;
    TickKeepsInv(c, s);
    now, done, prev := now0, done0, prev0;
    idx := AdmitAll(jobs, now, idx0);
    var active := CollectActive(jobs, idx);
    if active == [] {
      TickJumps(c, s, idx);
      now := jobs[idx].arrival;
    } else {
      ghost var positions := Active(s.jobs, idx);
      assert States(active) == Views(s.jobs, positions);
      var k := c.pick(States(active), now);
      var job := active[k];
      ghost var i := positions[k];
      if c.switchPenalty != 0.0 && prev != null && job != prev {
        now := now + c.switchPenalty;
      }
      TickRuns(c, s, idx, k, now);
      prev := job;
      ghost var job0 := s.jobs[i];
      var step, finished := job.RunQuantum(now, c.quantum);
      StatesAfterRun(jobs, i, s.jobs, RunJob(job0, now, c.quantum));
      CountUpdate(s.jobs, i, now, c.quantum);
      now := now + step;
      if finished {
        done := done + 1;
      }
    }
  }

  /** `while idx < len(pending) and pending[idx]["arrival"] <= now`. */
  method AdmitAll(jobs: seq<Job>, now: real, idx0: nat) returns (idx: nat)
    requires idx0 <= |jobs|
    ensures idx0 <= idx <= |jobs|
    ensures idx == AdmitJobs(States(jobs), now, idx0)
  {
    idx := idx0;
    ghost var states := States(jobs);
    while idx < |jobs| && jobs[idx].arrival <= now
      invariant idx0 <= idx <= |jobs|
      invariant AdmitJobs(states, now, idx) == AdmitJobs(states, now, idx0)
    {
      idx := idx + 1;
    }
  }

  lemma StatesAfterRun(jobs: seq<Job>, i: nat, before: seq<JobState>, job: JobState)
    requires Distinct(jobs) && i < |jobs| == |before| && jobs[i].State() == job
    requires forall j :: 0 <= j < |jobs| && j != i ==> jobs[j].State() == before[j]
    ensures States(jobs) == before[i := job]
  {
  }

  lemma TickJumps(c: Config, s: Sim, idx: nat)
    requires ValidConfig(c) && Inv(s) && s.idx <= |s.jobs| && !AllFinished(s)
    requires idx == AdmitJobs(s.jobs, s.now, s.idx) && Active(s.jobs, idx) == []
    ensures idx < |s.jobs| && Tick(c, s) == s.(idx := idx, now := s.jobs[idx].arrival)
  {
    hide ServiceTime, Inv, Active, RunJob, AdmitJobs;
    UnfinishedAhead(s, idx);
  }

  lemma TickRuns(c: Config, s: Sim, idx: nat, k: nat, start: real)
    requires ValidConfig(c) && s.idx <= |s.jobs|
    requires idx == AdmitJobs(s.jobs, s.now, s.idx) && Active(s.jobs, idx) != []
    requires k == c.pick(Views(s.jobs, Active(s.jobs, idx)), s.now) < |Active(s.jobs, idx)|
    requires var i := Active(s.jobs, idx)[k];
      start == if c.switchPenalty != 0.0 && s.prev.Some? && s.prev.value != i then s.now + c.switchPenalty else s.now
    ensures var i := Active(s.jobs, idx)[k];
      Tick(c, s) == Sim(start + RMin(c.quantum, s.jobs[i].remaining),
                        s.jobs[i := RunJob(s.jobs[i], start, c.quantum)], idx, Some(i))
  {
    hide ServiceTime, Active, RunJob, AdmitJobs;
  }

  lemma CountUpdate(jobs: seq<JobState>, i: nat, now: real, quantum: real)
    requires i < |jobs| && jobs[i].finish.None?
    ensures var r := RunJob(jobs[i], now, quantum);
      FinishedCount(jobs[i := r]) == FinishedCount(jobs) + if r.remaining <= RESIDUE then 1 else 0
  {
    OutstandingUpdate(jobs, i, RunJob(jobs[i], now, quantum));
  }
}
