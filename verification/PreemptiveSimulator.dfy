/**
 The quantum-based preemptive loop `_simulate_preemptive`, for an arbitrary
 picker, quantum and switch penalty.

 Jobs are kept in arrival order, so the admitted ones are always a prefix.
 */
module PreemptiveSimulator {
  import opened Optional
  import opened Orders
  import opened Sorting
  import opened Workload
  import opened QueueTheorems

  /** The fields of one job dictionary. */
  datatype JobState = JobState(
    item: WorkItem,
    arrival: real,
    remaining: real,
    attained: real,
    firstStart: Option<real>,
    finish: Option<real>)

  /** `pick_fn(active, now)`, as a position in the active list. */
  type Picker = (seq<JobState>, real) -> nat

  /** What stays fixed during a run. */
  datatype Config = Config(pick: Picker, quantum: real, switchPenalty: real)

  /** The loop variables; `jobs[..idx]` is the admitted list. */
  datatype Sim = Sim(now: real, jobs: seq<JobState>, idx: nat, prev: Option<nat>)

  /** What is left of a job when the loop declares it finished is at most this. */
  const RESIDUE: real := 0.000000001

  ghost predicate ValidConfig(c: Config) {
    && c.quantum > 0.0
    && c.switchPenalty >= 0.0
    && forall active: seq<JobState>, now: real :: active != [] ==> c.pick(active, now) < |active|
  }

  // ----- one iteration of the loop -----

  function NewJob(a: Arrival): JobState {
    JobState(a.item, a.time, ServiceTime(a.item), 0.0, None, None)
  }

  /** `jobs`, sorted by arrival. */
  function NewJobs(arrivals: seq<Arrival>): (jobs: seq<JobState>)
    ensures |jobs| == |arrivals|
  {
    var sorted := Sort(TimeKey, arrivals);
    seq(|sorted|, i requires 0 <= i < |sorted| => NewJob(sorted[i]))
  }

  function TimeKey(a: Arrival): Key { Key(a.time, 0.0, "") }

  function AdmitJobs(jobs: seq<JobState>, now: real, idx: nat): (r: nat)
    requires idx <= |jobs|
    ensures idx <= r <= |jobs|
    ensures r < |jobs| ==> now < jobs[r].arrival
    decreases |jobs| - idx
  {
    if idx < |jobs| && jobs[idx].arrival <= now then AdmitJobs(jobs, now, idx + 1) else idx
  }

  /** Positions of the admitted jobs that have not finished. */
  function Active(jobs: seq<JobState>, idx: nat): (r: seq<nat>)
    requires idx <= |jobs|
    ensures forall p :: 0 <= p < |r| ==> r[p] < idx && jobs[r[p]].finish.None?
    ensures forall i :: 0 <= i < idx && jobs[i].finish.None? ==> i in r
  {
    if idx == 0 then []
    else Active(jobs, idx - 1) + if jobs[idx - 1].finish.None? then [idx - 1] else []
  }

  function Views(jobs: seq<JobState>, positions: seq<nat>): (r: seq<JobState>)
    requires forall p :: 0 <= p < |positions| ==> positions[p] < |jobs|
    ensures |r| == |positions|
    ensures forall p :: 0 <= p < |r| ==> r[p] == jobs[positions[p]]
  {
    seq(|positions|, p requires 0 <= p < |positions| => jobs[positions[p]])
  }

  /** One quantum of a job that starts running at `now`. */
  function RunJob(job: JobState, now: real, quantum: real): JobState {
    var step := RMin(quantum, job.remaining);
    var remaining := job.remaining - step;
    job.(
      firstStart := if job.firstStart.None? then Some(now) else job.firstStart,
      remaining := remaining,
      attained := job.attained + step,
      finish := if remaining <= RESIDUE then Some(now + step) else job.finish)
  }

  /** The job the picker chooses among the admitted unfinished ones. */
  function Picked(c: Config, jobs: seq<JobState>, idx: nat, now: real): (i: nat)
    requires ValidConfig(c) && idx <= |jobs| && Active(jobs, idx) != []
    ensures i < idx && jobs[i].finish.None?
  {
    var active := Active(jobs, idx);
    active[c.pick(Views(jobs, active), now)]
  }

  ghost predicate AllFinished(s: Sim) {
    forall i :: 0 <= i < |s.jobs| ==> s.jobs[i].finish.Some?
  }

  /** One iteration: admit, then either jump to the next arrival or run one quantum. */
  function Tick(c: Config, s: Sim): Sim
    requires ValidConfig(c) && s.idx <= |s.jobs|
  {
    var idx := AdmitJobs(s.jobs, s.now, s.idx);
    if Active(s.jobs, idx) == [] then
      if idx < |s.jobs| then s.(idx := idx, now := s.jobs[idx].arrival) else s.(idx := idx)
    else
      var i := Picked(c, s.jobs, idx, s.now);
      var start := if c.switchPenalty != 0.0 && s.prev.Some? && s.prev.value != i then s.now + c.switchPenalty else s.now;
      Sim(start + RMin(c.quantum, s.jobs[i].remaining),
          s.jobs[i := RunJob(s.jobs[i], start, c.quantum)],
          idx,
          Some(i))
  }

  // ----- what every iteration keeps -----

  /** One job: its work is conserved, and it is finished exactly when no more than the residue is left. */
  ghost predicate JobOk(job: JobState) {
    && job.attained + job.remaining == ServiceTime(job.item)
    && 0.0 <= job.remaining && 0.0 <= job.attained
    && (job.finish.Some? <==> job.remaining <= RESIDUE)
    && (job.firstStart.None? ==> job.attained == 0.0 && job.finish.None?)
    && (job.firstStart.Some? ==> job.arrival <= job.firstStart.value)
    && (job.finish.Some? ==> job.firstStart.Some? && job.firstStart.value + job.attained <= job.finish.value)
  }

  ghost predicate Inv(s: Sim) {
    && s.idx <= |s.jobs|
    && (forall i :: 0 <= i < |s.jobs| ==> JobOk(s.jobs[i]))
    && (forall i :: 0 <= i < s.idx ==> s.jobs[i].arrival <= s.now)
    && (forall i :: s.idx <= i < |s.jobs| ==> s.jobs[i].attained == 0.0 && s.jobs[i].firstStart.None?)
    && (forall i :: 0 <= i < |s.jobs| && s.jobs[i].firstStart.Some? ==>
          s.jobs[i].firstStart.value + s.jobs[i].attained <= s.now)
    && (forall i :: 0 <= i < |s.jobs| && s.jobs[i].finish.Some? ==> s.jobs[i].finish.value <= s.now)
    && (forall i, j :: 0 <= i < j < |s.jobs| ==> s.jobs[i].arrival <= s.jobs[j].arrival)
  }

  lemma AdmittedHaveArrived(jobs: seq<JobState>, now: real, idx: nat)
    requires idx <= |jobs|
    requires forall i :: 0 <= i < idx ==> jobs[i].arrival <= now
    ensures forall i :: 0 <= i < AdmitJobs(jobs, now, idx) ==> jobs[i].arrival <= now
    decreases |jobs| - idx
  {
    if idx < |jobs| && jobs[idx].arrival <= now {
      AdmittedHaveArrived(jobs, now, idx + 1);
    }
  }

  lemma RunJobKeepsJobOk(job: JobState, now: real, quantum: real)
    requires JobOk(job) && job.finish.None? && quantum > 0.0 && job.arrival <= now
    requires job.firstStart.Some? ==> job.firstStart.value + job.attained <= now
    ensures JobOk(RunJob(job, now, quantum))
    ensures var r := RunJob(job, now, quantum);
      r.firstStart.Some? && r.firstStart.value + r.attained <= now + RMin(quantum, job.remaining)
  {
    hide ServiceTime;
  }

  lemma TickKeepsInv(c: Config, s: Sim)
    requires ValidConfig(c) && Inv(s)
    ensures Inv(Tick(c, s))
    ensures s.now <= Tick(c, s).now
  {
    hide ServiceTime, JobOk, RunJob, Active, Picked, AdmitJobs;
    var idx := AdmitJobs(s.jobs, s.now, s.idx);
    AdmittedHaveArrived(s.jobs, s.now, s.idx);
    if Active(s.jobs, idx) != [] {
      var i := Picked(c, s.jobs, idx, s.now);
      var start := if c.switchPenalty != 0.0 && s.prev.Some? && s.prev.value != i then s.now + c.switchPenalty else s.now;
      RunKeepsInv(c, s, idx, i, start);
    }
  }

  lemma RunKeepsInv(c: Config, s: Sim, idx: nat, i: nat, start: real)
    requires c.quantum > 0.0 && Inv(s) && s.idx <= idx <= |s.jobs| && i < idx && s.jobs[i].finish.None?
    requires forall j :: 0 <= j < idx ==> s.jobs[j].arrival <= s.now
    requires start >= s.now
    ensures s.jobs[i].remaining >= 0.0
    ensures Inv(Sim(start + RMin(c.quantum, s.jobs[i].remaining), s.jobs[i := RunJob(s.jobs[i], start, c.quantum)], idx, Some(i)))
  {
    hide ServiceTime;
    RunJobKeepsJobOk(s.jobs[i], start, c.quantum);
  }

  lemma InitialInv(arrivals: seq<Arrival>)
    ensures Inv(Sim(0.0, NewJobs(arrivals), 0, None))
  {
    SortIsSorted(TimeKey, arrivals);
    var sorted := Sort(TimeKey, arrivals);
    hide ServiceTime, Sort;
    forall i, j | 0 <= i < j < |sorted| ensures NewJobs(arrivals)[i].arrival <= NewJobs(arrivals)[j].arrival {
      assert KeyLe(TimeKey(sorted[i]), TimeKey(sorted[j]));
    }
  }

  // ----- termination, for every picker -----

  /** An upper bound on the quanta an unfinished job still takes. */
  function Quanta(remaining: real, quantum: real): int
    requires quantum > 0.0
  {
    (remaining / quantum).Floor + 1
  }

  function PendingQuanta(jobs: seq<JobState>, quantum: real): int
    requires quantum > 0.0
  {
    if jobs == [] then 0
    else (if jobs[0].finish.None? then Quanta(jobs[0].remaining, quantum) else 0) + PendingQuanta(jobs[1..], quantum)
  }

  /** Quanta still to run, arrivals still to admit, and one for the idle jump that may come first. */
  function Rank(s: Sim, quantum: real): int
    requires quantum > 0.0 && s.idx <= |s.jobs|
  {
    PendingQuanta(s.jobs, quantum) + (|s.jobs| - s.idx)
    + if s.idx < |s.jobs| && s.now < s.jobs[s.idx].arrival then 1 else 0
  }

  lemma QuantaPositive(remaining: real, quantum: real)
    requires remaining >= 0.0 && quantum > 0.0
    ensures Quanta(remaining, quantum) >= 1
  {
    assert remaining / quantum >= 0.0;
  }

  lemma OneQuantumLess(remaining: real, quantum: real)
    requires quantum > 0.0
    ensures Quanta(remaining - quantum, quantum) == Quanta(remaining, quantum) - 1
  {
    var x := remaining / quantum;
    assert x * quantum == remaining;
    assert (x - 1.0) * quantum == remaining - quantum;
    QuotientUnique(remaining - quantum, quantum, x - 1.0);
  }

  lemma QuotientUnique(a: real, b: real, x: real)
    requires b > 0.0 && x * b == a
    ensures a / b == x
  {
    var y := a / b;
    assert (y - x) * b == 0.0;
  }

  lemma {:induction false} PendingQuantaBound(jobs: seq<JobState>, quantum: real)
    requires quantum > 0.0 && forall i :: 0 <= i < |jobs| ==> jobs[i].remaining >= 0.0
    ensures PendingQuanta(jobs, quantum) >= 0
  {
    hide Quanta;
    if jobs != [] {
      QuantaPositive(jobs[0].remaining, quantum);
      PendingQuantaBound(jobs[1..], quantum);
    }
  }

  lemma {:induction false} PendingQuantaUpdate(jobs: seq<JobState>, quantum: real, i: nat, job: JobState)
    requires quantum > 0.0 && i < |jobs| && jobs[i].finish.None?
    requires (if job.finish.None? then Quanta(job.remaining, quantum) else 0) < Quanta(jobs[i].remaining, quantum)
    ensures PendingQuanta(jobs[i := job], quantum) < PendingQuanta(jobs, quantum)
  {
    hide Quanta;
    if i == 0 {
      assert jobs[0 := job][1..] == jobs[1..];
    } else {
      PendingQuantaUpdate(jobs[1..], quantum, i - 1, job);
      assert jobs[i := job][1..] == jobs[1..][i - 1 := job];
    }
  }

  lemma RunJobTakesAQuantum(job: JobState, now: real, quantum: real)
    requires quantum > 0.0 && job.remaining >= 0.0 && job.finish.None?
    ensures var r := RunJob(job, now, quantum);
      (if r.finish.None? then Quanta(r.remaining, quantum) else 0) < Quanta(job.remaining, quantum)
  {
    hide Quanta;
    QuantaPositive(job.remaining, quantum);
    OneQuantumLess(job.remaining, quantum);
  }

  lemma TickTakesRank(c: Config, s: Sim)
    requires ValidConfig(c) && Inv(s) && !AllFinished(s)
    ensures 0 <= Rank(Tick(c, s), c.quantum) < Rank(s, c.quantum)
  {
    hide ServiceTime, RunJob, Active, Picked, AdmitJobs, PendingQuanta, Quanta;
    TickKeepsInv(c, s);
    PendingQuantaBound(Tick(c, s).jobs, c.quantum);
    var idx := AdmitJobs(s.jobs, s.now, s.idx);
    if Active(s.jobs, idx) == [] {
      UnfinishedAhead(s, idx);
    } else {
      var i := Picked(c, s.jobs, idx, s.now);
      var start := if c.switchPenalty != 0.0 && s.prev.Some? && s.prev.value != i then s.now + c.switchPenalty else s.now;
      RunJobTakesAQuantum(s.jobs[i], start, c.quantum);
      PendingQuantaUpdate(s.jobs, c.quantum, i, RunJob(s.jobs[i], start, c.quantum));
      NoAdmission(s.jobs, s.now, s.idx);
    }
  }

  lemma UnfinishedAhead(s: Sim, idx: nat)
    requires Inv(s) && !AllFinished(s) && idx == AdmitJobs(s.jobs, s.now, s.idx) && Active(s.jobs, idx) == []
    ensures idx < |s.jobs| && s.idx == idx && s.now < s.jobs[idx].arrival
  {
    hide ServiceTime, JobOk;
    var i :| 0 <= i < |s.jobs| && s.jobs[i].finish.None?;
    assert i >= idx;
    if s.idx < idx {
      FreshJobIsUnfinished(s.jobs[s.idx]);
    }
  }

  lemma FreshJobIsUnfinished(job: JobState)
    requires JobOk(job) && job.firstStart.None?
    ensures job.finish.None?
  {
  }

  lemma NoAdmission(jobs: seq<JobState>, now: real, idx: nat)
    requires idx <= |jobs|
    ensures idx < |jobs| && now < jobs[idx].arrival ==> AdmitJobs(jobs, now, idx) == idx
  {
  }

  /** The whole run. That this is a function says the loop ends, whatever the picker does. */
  ghost function Finish(c: Config, s: Sim): (r: Sim)
    requires ValidConfig(c) && Inv(s)
    ensures Inv(r) && AllFinished(r)
    decreases Rank(s, c.quantum)
  {
    if AllFinished(s) then s
    else
      TickKeepsInv(c, s);
      TickTakesRank(c, s);
      Finish(c, Tick(c, s))
  }

  // ----- makespan -----

  /** The work the admitted unfinished jobs still need, then the arrivals behind them. */
  function Outstanding(jobs: seq<JobState>): real {
    if jobs == [] then 0.0
    else (if jobs[0].finish.None? then jobs[0].remaining else 0.0) + Outstanding(jobs[1..])
  }

  function ArrivalsOf(jobs: seq<JobState>): (r: seq<Arrival>)
    ensures |r| == |jobs|
    ensures forall i :: 0 <= i < |r| ==> r[i] == Arrival(jobs[i].arrival, jobs[i].item)
  {
    seq(|jobs|, i requires 0 <= i < |jobs| => Arrival(jobs[i].arrival, jobs[i].item))
  }

  /** When the server would be done, were the outstanding work served in arrival order. */
  function Projected(s: Sim): real
    requires s.idx <= |s.jobs|
  {
    Completion(s.now + Outstanding(s.jobs[..s.idx]), ArrivalsOf(s.jobs[s.idx..]))
  }

  function FinishedCount(jobs: seq<JobState>): nat {
    if jobs == [] then 0 else (if jobs[0].finish.Some? then 1 else 0) + FinishedCount(jobs[1..])
  }

  /** Completion is monotone, and never gains more than its start does. */
  lemma {:induction false} CompletionShift(a: real, b: real, queue: seq<Arrival>)
    requires a <= b
    ensures Completion(a, queue) <= Completion(b, queue) <= Completion(a, queue) + (b - a)
    decreases |queue|
  {
    hide ServiceTime;
    if queue != [] {
      var cost := ServiceTime(queue[0].item);
      CompletionShift(RMax(a, queue[0].time) + cost, RMax(b, queue[0].time) + cost, queue[1..]);
    }
  }

  lemma {:induction false} OutstandingUpdate(jobs: seq<JobState>, i: nat, job: JobState)
    requires i < |jobs|
    ensures Outstanding(jobs[i := job]) - (if job.finish.None? then job.remaining else 0.0)
            == Outstanding(jobs) - (if jobs[i].finish.None? then jobs[i].remaining else 0.0)
    ensures FinishedCount(jobs[i := job]) - (if job.finish.Some? then 1 else 0)
            == FinishedCount(jobs) - (if jobs[i].finish.Some? then 1 else 0)
  {
    if i == 0 {
      assert jobs[0 := job][1..] == jobs[1..];
    } else {
      OutstandingUpdate(jobs[1..], i - 1, job);
      assert jobs[i := job][1..] == jobs[1..][i - 1 := job];
    }
  }

  lemma {:induction false} OutstandingAppend(jobs: seq<JobState>, job: JobState)
    ensures Outstanding(jobs + [job]) == Outstanding(jobs) + if job.finish.None? then job.remaining else 0.0
  {
    if jobs != [] {
      OutstandingAppend(jobs[1..], job);
      assert (jobs + [job])[1..] == jobs[1..] + [job];
    }
  }

  lemma {:induction false} OutstandingNonNegative(jobs: seq<JobState>)
    requires forall i :: 0 <= i < |jobs| ==> jobs[i].remaining >= 0.0
    ensures Outstanding(jobs) >= 0.0
  {
    if jobs != [] {
      OutstandingNonNegative(jobs[1..]);
    }
  }

  lemma {:induction false} NoneOutstanding(jobs: seq<JobState>)
    requires forall i :: 0 <= i < |jobs| ==> jobs[i].finish.Some?
    ensures Outstanding(jobs) == 0.0 && FinishedCount(jobs) == |jobs|
  {
    if jobs != [] {
      NoneOutstanding(jobs[1..]);
    }
  }

  lemma ProjectedOverOneAdmission(s: Sim)
    requires Inv(s) && s.idx < |s.jobs| && s.jobs[s.idx].arrival <= s.now
    ensures Projected(s.(idx := s.idx + 1)) == Projected(s)
  {
    hide ServiceTime, Outstanding;
    var job := s.jobs[s.idx];
    FreshJobIsUnfinished(job);
    OutstandingAppend(s.jobs[..s.idx], job);
    OutstandingNonNegative(s.jobs[..s.idx]);
    assert s.jobs[..s.idx + 1] == s.jobs[..s.idx] + [job];
    assert ArrivalsOf(s.jobs[s.idx..])[1..] == ArrivalsOf(s.jobs[s.idx + 1..]);
  }

  lemma {:induction false} ProjectedOverAdmission(s: Sim, idx: nat)
    requires Inv(s) && s.idx <= idx <= |s.jobs|
    requires forall i :: s.idx <= i < idx ==> s.jobs[i].arrival <= s.now
    ensures Projected(s.(idx := idx)) == Projected(s)
    decreases idx - s.idx
  {
    hide ServiceTime, JobOk, Projected;
    if s.idx < idx {
      ProjectedOverOneAdmission(s);
      ProjectedOverAdmission(s.(idx := s.idx + 1), idx);
    }
  }

  lemma ProjectedOverJump(s: Sim)
    requires Inv(s) && s.idx < |s.jobs| && s.now < s.jobs[s.idx].arrival && Active(s.jobs, s.idx) == []
    ensures Projected(s.(now := s.jobs[s.idx].arrival)) == Projected(s)
  {
    hide ServiceTime;
    NoneOutstanding(s.jobs[..s.idx]);
  }

  /** Running a job moves work from the outstanding sum to the clock, losing only a finished job's residue. */
  lemma ProjectedOverRun(s: Sim, quantum: real, i: nat, start: real)
    requires Inv(s) && quantum > 0.0 && i < s.idx && s.jobs[i].finish.None? && start >= s.now
    ensures var job := RunJob(s.jobs[i], start, quantum);
      var s' := Sim(start + RMin(quantum, s.jobs[i].remaining), s.jobs[i := job], s.idx, Some(i));
      && FinishedCount(s'.jobs) - FinishedCount(s.jobs) == (if job.finish.Some? then 1 else 0)
      && Projected(s) - RESIDUE * (FinishedCount(s'.jobs) - FinishedCount(s.jobs)) as real <= Projected(s')
      && (start == s.now ==> Projected(s') <= Projected(s))
  {
    hide ServiceTime, Completion;
    var job := RunJob(s.jobs[i], start, quantum);
    QuantumKeepsWork(s.jobs[i], start, quantum);
    OutstandingUpdate(s.jobs[..s.idx], i, job);
    OutstandingUpdate(s.jobs, i, job);
    var jobs' := s.jobs[i := job];
    assert jobs'[..s.idx] == s.jobs[..s.idx][i := job];
    assert jobs'[s.idx..] == s.jobs[s.idx..];
    var before := s.now + Outstanding(s.jobs[..s.idx]);
    var after := start + RMin(quantum, s.jobs[i].remaining) + Outstanding(jobs'[..s.idx]);
    var later := ArrivalsOf(s.jobs[s.idx..]);
    if after <= before {
      CompletionShift(after, before, later);
    } else {
      CompletionShift(before, after, later);
    }
  }

  lemma QuantumKeepsWork(job: JobState, start: real, quantum: real)
    requires JobOk(job) && job.finish.None? && quantum > 0.0
    ensures var r := RunJob(job, start, quantum);
      && r.remaining == job.remaining - RMin(quantum, job.remaining)
      && 0.0 <= r.remaining
      && (r.finish.Some? <==> r.remaining <= RESIDUE)
  {
    hide ServiceTime;
  }

  lemma TickRunsProjected(c: Config, s: Sim, idx: nat)
    requires ValidConfig(c) && Inv(s) && idx == AdmitJobs(s.jobs, s.now, s.idx) && Active(s.jobs, idx) != []
    requires Inv(s.(idx := idx)) && Projected(s.(idx := idx)) == Projected(s)
    ensures var s' := Tick(c, s);
      && s'.idx <= |s'.jobs| && |s'.jobs| == |s.jobs|
      && Projected(s) - RESIDUE * (FinishedCount(s'.jobs) - FinishedCount(s.jobs)) as real <= Projected(s')
      && (c.switchPenalty == 0.0 ==> Projected(s') <= Projected(s))
  {
    hide ServiceTime, RunJob, Active, Picked, AdmitJobs, Projected, FinishedCount, Inv;
    var i := Picked(c, s.jobs, idx, s.now);
    var start := if c.switchPenalty != 0.0 && s.prev.Some? && s.prev.value != i then s.now + c.switchPenalty else s.now;
    ProjectedOverRun(s.(idx := idx), c.quantum, i, start);
  }

  lemma TickProjected(c: Config, s: Sim)
    requires ValidConfig(c) && Inv(s) && !AllFinished(s)
    ensures var s' := Tick(c, s);
      && s'.idx <= |s'.jobs| && |s'.jobs| == |s.jobs|
      && Projected(s) - RESIDUE * (FinishedCount(s'.jobs) - FinishedCount(s.jobs)) as real <= Projected(s')
      && (c.switchPenalty == 0.0 ==> Projected(s') <= Projected(s))
  {
    hide ServiceTime, JobOk, RunJob, Active, Picked, AdmitJobs, Projected;
    var idx := AdmitJobs(s.jobs, s.now, s.idx);
    AdmittedHaveArrived(s.jobs, s.now, s.idx);
    ProjectedOverAdmission(s, idx);
    if Active(s.jobs, idx) == [] {
      UnfinishedAhead(s, idx);
      ProjectedOverJump(s.(idx := idx));
    } else {
      TickRunsProjected(c, s, idx);
    }
  }

  lemma ProjectedAtEnd(s: Sim)
    requires Inv(s) && AllFinished(s)
    ensures Projected(s) == s.now && FinishedCount(s.jobs) == |s.jobs|
  {
    hide ServiceTime;
    if s.idx < |s.jobs| {
      FreshJobIsUnfinished(s.jobs[s.idx]);
    }
    assert s.jobs[..s.idx] == s.jobs;
    NoneOutstanding(s.jobs);
  }

  /**
   From any state, the end of the run is the projected completion up to one
   residue for each job that still has to finish; only a switch penalty can push
   it past the projection.
   */
  lemma {:induction false} FinishNearProjected(c: Config, s: Sim)
    requires ValidConfig(c) && Inv(s)
    ensures var r := Finish(c, s);
      && |r.jobs| == |s.jobs|
      && Projected(s) - RESIDUE * (|s.jobs| - FinishedCount(s.jobs)) as real <= r.now
      && (c.switchPenalty == 0.0 ==> r.now <= Projected(s))
    decreases Rank(s, c.quantum)
  {
    hide ServiceTime, JobOk, Tick, Projected, Rank, FinishedCount;
    if AllFinished(s) {
      ProjectedAtEnd(s);
    } else {
      TickKeepsInv(c, s);
      TickTakesRank(c, s);
      TickProjected(c, s);
      FinishNearProjected(c, Tick(c, s));
    }
  }

  lemma ProjectedAtStart(arrivals: seq<Arrival>)
    ensures Projected(Sim(0.0, NewJobs(arrivals), 0, None)) == Completion(0.0, Sort(TimeKey, arrivals))
    ensures FinishedCount(NewJobs(arrivals)) == 0
  {
    hide ServiceTime, Completion, Sort;
    var jobs := NewJobs(arrivals);
    NoneFinished(jobs);
    assert jobs[0..] == jobs && jobs[..0] == [];
    assert ArrivalsOf(jobs) == Sort(TimeKey, arrivals);
  }

  /**
   Makespan of the preemptive loop: for every picker, the run ends at the
   completion time of serving the list in arrival order, to within one residue
   per job; with a switch penalty it cannot end earlier.
   */
  lemma PreemptiveMakespan(c: Config, arrivals: seq<Arrival>)
    requires ValidConfig(c)
    ensures Inv(Sim(0.0, NewJobs(arrivals), 0, None))
    ensures var r := Finish(c, Sim(0.0, NewJobs(arrivals), 0, None));
      var completion := Completion(0.0, Sort(TimeKey, arrivals));
      && completion - 0.000000001 * |arrivals| as real <= r.now
      && (c.switchPenalty == 0.0 ==> r.now <= completion)
  {
    hide Finish, Projected, Completion, FinishedCount, NewJobs, JobOk, Sort;
    InitialInv(arrivals);
    ProjectedAtStart(arrivals);
    FinishNearProjected(c, Sim(0.0, NewJobs(arrivals), 0, None));
  }

  /** Preempting for free neither gains nor loses time over the non-preemptive loop, whatever either selects. */
  lemma PreemptionKeepsMakespan(c: Config, sel: QueueSimulator.Selector, arrivals: seq<Arrival>)
    requires ValidConfig(c) && c.switchPenalty == 0.0 && SortedByTime(arrivals)
    ensures Inv(Sim(0.0, NewJobs(arrivals), 0, None))
    ensures var preempted := Finish(c, Sim(0.0, NewJobs(arrivals), 0, None)).now;
      var whole := QueueSimulator.EndClock(0.0, QueueSimulator.Run(sel, 0.0, arrivals, 0));
      whole - 0.000000001 * |arrivals| as real <= preempted <= whole
  {
    hide Finish, QueueSimulator.Run, Completion, NewJobs, JobOk, Sort, SortedBy;
    SortOfSorted(TimeKey, arrivals) by { SortedByTimeIsSorted(arrivals); }
    PreemptiveMakespan(c, arrivals);
    MakespanConserved(sel, 0.0, arrivals, 0);
  }

  // ----- the server never idles while work is pending -----

  function TotalAttained(jobs: seq<JobState>): real {
    if jobs == [] then 0.0 else TotalAttained(jobs[..|jobs| - 1]) + jobs[|jobs| - 1].attained
  }

  lemma {:induction false} TotalAttainedUpdate(jobs: seq<JobState>, i: nat, job: JobState)
    requires i < |jobs|
    ensures TotalAttained(jobs[i := job]) == TotalAttained(jobs) - jobs[i].attained + job.attained
  {
    var n := |jobs| - 1;
    if i == n {
      assert jobs[i := job][..n] == jobs[..n];
    } else {
      TotalAttainedUpdate(jobs[..n], i, job);
      assert jobs[i := job][..n] == jobs[..n][i := job];
    }
  }

  /** One quantum changes the total by the step the job ran. */
  lemma QuantumGain(jobs: seq<JobState>, i: nat, start: real, quantum: real)
    requires i < |jobs| && JobOk(jobs[i]) && quantum > 0.0
    ensures var step := RMin(quantum, jobs[i].remaining);
      step >= 0.0 && TotalAttained(jobs[i := RunJob(jobs[i], start, quantum)]) == TotalAttained(jobs) + step
  {
    hide ServiceTime, TotalAttained;
    TotalAttainedUpdate(jobs, i, RunJob(jobs[i], start, quantum));
  }

  /**
   Every advance of the clock is service given to some job, plus the penalty if the
   server switched jobs; it is anything else only when no admitted job is unfinished,
   and then the clock goes to the next arrival.
   */
  lemma QuantumLoopNeverIdles(c: Config, s: Sim)
    requires ValidConfig(c) && Inv(s)
    ensures var s' := Tick(c, s);
      var gained := TotalAttained(s'.jobs) - TotalAttained(s.jobs);
      var penalty := if s.prev.Some? && s'.prev != s.prev then c.switchPenalty else 0.0;
      && gained >= 0.0
      && (s'.now - s.now != gained + penalty ==>
            && s'.idx < |s'.jobs| && s'.now == s'.jobs[s'.idx].arrival
            && forall i :: 0 <= i < s'.idx ==> s'.jobs[i].finish.Some?)
  {
    hide JobOk, Picked, Active, RunJob, TotalAttained;
    var idx := AdmitJobs(s.jobs, s.now, s.idx);
    if Active(s.jobs, idx) != [] {
      var i := Picked(c, s.jobs, idx, s.now);
      var start := if c.switchPenalty != 0.0 && s.prev.Some? && s.prev.value != i then s.now + c.switchPenalty else s.now;
      QuantumGain(s.jobs, i, start, c.quantum);
    }
  }

  lemma SortedByTimeIsSorted(arrivals: seq<Arrival>)
    requires SortedByTime(arrivals)
    ensures SortedBy(TimeKey, arrivals)
  {
  }

  lemma {:induction false} NoneFinished(jobs: seq<JobState>)
    requires forall i :: 0 <= i < |jobs| ==> jobs[i].finish.None?
    ensures FinishedCount(jobs) == 0
  {
    if jobs != [] {
      NoneFinished(jobs[1..]);
    }
  }

  // ----- the shipped pickers -----

  /** `min(active, key=...)`: the first position of least key. */
  function FirstLeast(key: JobState -> Key, active: seq<JobState>): (k: nat)
    ensures active != [] ==> k < |active|
    ensures forall p :: 0 <= p < |active| ==> KeyLe(key(active[k]), key(active[p]))
  {
    if active == [] then 0
    else if |active| == 1 then
      KeyLeTotal(key(active[0]), key(active[0]));
      0
    else
      var last := |active| - 1;
      var k := FirstLeast(key, active[..last]);
      assert forall p :: 0 <= p < last ==> active[..last][p] == active[p];
      LeastOfTwo(key, active, k);
      if KeyLe(key(active[k]), key(active[last])) then k else last
  }

  lemma LeastOfTwo(key: JobState -> Key, active: seq<JobState>, k: nat)
    requires |active| > 1 && k < |active| - 1
    requires forall p :: 0 <= p < |active| - 1 ==> KeyLe(key(active[k]), key(active[p]))
    ensures var last := |active| - 1;
      var r := if KeyLe(key(active[k]), key(active[last])) then k else last;
      forall p :: 0 <= p < |active| ==> KeyLe(key(active[r]), key(active[p]))
  {
    var last := |active| - 1;
    KeyLeTotal(key(active[k]), key(active[last]));
    KeyLeTotal(key(active[last]), key(active[last]));
    forall p | 0 <= p < last && KeyLe(key(active[last]), key(active[k]))
      ensures KeyLe(key(active[last]), key(active[p]))
    {
      KeyLeTransitive(key(active[last]), key(active[k]), key(active[p]));
    }
  }

  /** `las`, and `round_robin`, which the source defines by the same key. */
  function LasKey(job: JobState): Key { Key(job.attained, job.arrival, "") }

  /** `_mlfq_priority`. */
  function MlfqLevel(job: JobState): nat {
    if job.attained < 80.0 then 0
    else if job.attained < 320.0 then 1
    else if job.attained < 1280.0 then 2
    else 3
  }

  function MlfqKey(job: JobState): Key { Key(MlfqLevel(job) as real, job.arrival, "") }

  function SrptKey(job: JobState): Key { Key(job.remaining, job.arrival, "") }

  function PickLeast(key: JobState -> Key): Picker {
    (active: seq<JobState>, now: real) => FirstLeast(key, active)
  }

  lemma PickLeastIsValid(key: JobState -> Key, quantum: real, switchPenalty: real)
    requires quantum > 0.0 && switchPenalty >= 0.0
    ensures ValidConfig(Config(PickLeast(key), quantum, switchPenalty))
  {
  }

  /** `_PREEMPTIVE_PICKERS`. */
  function NamedPicker(name: string): Option<Picker> {
    if name == "round_robin" || name == "las" then Some(PickLeast(LasKey))
    else if name == "mlfq" then Some(PickLeast(MlfqKey))
    else if name == "srpt_oracle" then Some(PickLeast(SrptKey))
    else None
  }

  /** So each of the four pickers may be used, and everything proved of valid configurations holds for it. */
  lemma NamedPickersAreValid(name: string, quantum: real, switchPenalty: real)
    requires NamedPicker(name).Some? && quantum > 0.0 && switchPenalty >= 0.0
    ensures ValidConfig(Config(NamedPicker(name).value, quantum, switchPenalty))
  {
    PickLeastIsValid(LasKey, quantum, switchPenalty);
    PickLeastIsValid(MlfqKey, quantum, switchPenalty);
    PickLeastIsValid(SrptKey, quantum, switchPenalty);
  }

  /** The job picked has the least key of the admitted unfinished ones. */
  lemma PicksLeastKey(c: Config, key: JobState -> Key, jobs: seq<JobState>, idx: nat, now: real, j: nat)
    requires ValidConfig(c) && c.pick == PickLeast(key) && j < idx <= |jobs| && jobs[j].finish.None?
    ensures Active(jobs, idx) != []
    ensures KeyLe(key(jobs[Picked(c, jobs, idx, now)]), key(jobs[j]))
  {
    var active := Active(jobs, idx);
    assert j in active;
    var p :| 0 <= p < |active| && active[p] == j;
    var views := Views(jobs, active);
    assert KeyLe(key(views[FirstLeast(key, views)]), key(views[p]));
  }

  /** `srpt_oracle` runs a job with the least work left; on a tie, the earliest to arrive. */
  lemma SrptPicksLeastRemaining(c: Config, jobs: seq<JobState>, idx: nat, now: real, j: nat)
    requires ValidConfig(c) && NamedPicker("srpt_oracle") == Some(c.pick) && j < idx <= |jobs| && jobs[j].finish.None?
    ensures Active(jobs, idx) != []
    ensures var i := Picked(c, jobs, idx, now);
      jobs[i].remaining < jobs[j].remaining
      || (jobs[i].remaining == jobs[j].remaining && jobs[i].arrival <= jobs[j].arrival)
  {
    PicksLeastKey(c, SrptKey, jobs, idx, now, j);
  }

  /** A level is left for good once the attained service reaches 80 ms, 320 ms and 1280 ms. */
  lemma MlfqLevels(job: JobState)
    ensures job.attained < 80.0 <==> MlfqLevel(job) < 1
    ensures job.attained < 320.0 <==> MlfqLevel(job) < 2
    ensures job.attained < 1280.0 <==> MlfqLevel(job) < 3
    ensures MlfqLevel(job) <= 3
  {
  }

  /** `mlfq` runs a job of the lowest level; within it, the earliest to arrive. A job's level never falls. */
  lemma MlfqPicksLowestLevel(c: Config, jobs: seq<JobState>, idx: nat, now: real, j: nat)
    requires ValidConfig(c) && NamedPicker("mlfq") == Some(c.pick) && j < idx <= |jobs| && jobs[j].finish.None?
    ensures Active(jobs, idx) != []
    ensures var i := Picked(c, jobs, idx, now);
      && (MlfqLevel(jobs[i]) < MlfqLevel(jobs[j])
          || (MlfqLevel(jobs[i]) == MlfqLevel(jobs[j]) && jobs[i].arrival <= jobs[j].arrival))
      && (JobOk(jobs[i]) ==> MlfqLevel(jobs[i]) <= MlfqLevel(RunJob(jobs[i], now, c.quantum)))
  {
    hide Active, Picked;
    PicksLeastKey(c, MlfqKey, jobs, idx, now, j);
  }

  // ----- least attained service -----

  function Iterate(c: Config, s: Sim, n: nat): Sim
    requires ValidConfig(c) && Inv(s)
    decreases n
  {
    if n == 0 then s
    else
      TickKeepsInv(c, s);
      Iterate(c, Tick(c, s), n - 1)
  }

  /** By how much service job `i` is ahead of job `j`. */
  function Lead(s: Sim, i: nat, j: nat): real
    requires i < |s.jobs| && j < |s.jobs|
  {
    s.jobs[i].attained - s.jobs[j].attained
  }

  /** The source defines `las` and `round_robin` alike. */
  ghost predicate PicksLeastAttained(c: Config) {
    NamedPicker("las") == Some(c.pick) || NamedPicker("round_robin") == Some(c.pick)
  }

  /** Either runs a job that has attained least; on a tie, the earliest to arrive. */
  lemma LasPicksLeastAttained(c: Config, jobs: seq<JobState>, idx: nat, now: real, j: nat)
    requires ValidConfig(c) && PicksLeastAttained(c) && j < idx <= |jobs| && jobs[j].finish.None?
    ensures Active(jobs, idx) != []
    ensures var i := Picked(c, jobs, idx, now);
      jobs[i].attained < jobs[j].attained
      || (jobs[i].attained == jobs[j].attained && jobs[i].arrival <= jobs[j].arrival)
  {
    PicksLeastKey(c, LasKey, jobs, idx, now, j);
  }

  lemma LasTickLead(c: Config, s: Sim, i: nat, j: nat)
    requires ValidConfig(c) && PicksLeastAttained(c) && Inv(s)
    requires i < |s.jobs| && j < |s.jobs| && i != j
    requires s.jobs[j].arrival <= s.now && s.jobs[j].finish.None?
    ensures var s' := Tick(c, s);
      |s'.jobs| == |s.jobs| && s.now <= s'.now && s'.jobs[j].arrival == s.jobs[j].arrival
      && Lead(s', i, j) <= RMax(c.quantum, Lead(s, i, j))
  {
    hide ServiceTime, JobOk, Active, Picked, PicksLeastAttained;
    TickKeepsInv(c, s);
    var idx := AdmitJobs(s.jobs, s.now, s.idx);
    assert j < idx;
    LasPicksLeastAttained(c, s.jobs, idx, s.now, j);
    var x := Picked(c, s.jobs, idx, s.now);
    assert JobOk(s.jobs[x]);
    RemainingIsNonNegative(s.jobs[x]);
  }

  lemma RemainingIsNonNegative(job: JobState)
    requires JobOk(job)
    ensures job.remaining >= 0.0
  {
  }

  lemma FinishIsFinal(c: Config, s: Sim, j: nat)
    requires ValidConfig(c) && Inv(s) && j < |s.jobs| && s.jobs[j].finish.Some?
    ensures |Tick(c, s).jobs| == |s.jobs| && Tick(c, s).jobs[j] == s.jobs[j]
  {
    hide ServiceTime, JobOk, RunJob;
  }

  lemma {:induction false} FinishIsFinalOverRuns(c: Config, s: Sim, n: nat, j: nat)
    requires ValidConfig(c) && Inv(s) && j < |s.jobs| && s.jobs[j].finish.Some?
    ensures |Iterate(c, s, n).jobs| == |s.jobs| && Iterate(c, s, n).jobs[j] == s.jobs[j]
    decreases n
  {
    hide ServiceTime, JobOk, Tick;
    if n > 0 {
      TickKeepsInv(c, s);
      FinishIsFinal(c, s, j);
      FinishIsFinalOverRuns(c, Tick(c, s), n - 1, j);
    }
  }

  lemma TickJobCount(c: Config, s: Sim)
    requires ValidConfig(c) && s.idx <= |s.jobs|
    ensures |Tick(c, s).jobs| == |s.jobs|
  {
    hide RunJob;
  }

  lemma {:induction false} JobCount(c: Config, s: Sim, n: nat)
    requires ValidConfig(c) && Inv(s)
    ensures |Iterate(c, s, n).jobs| == |s.jobs|
    decreases n
  {
    hide ServiceTime, JobOk, Tick, ValidConfig;
    if n > 0 {
      TickJobCount(c, s);
      TickKeepsInv(c, s);
      JobCount(c, Tick(c, s), n - 1);
    }
  }

  /**
   Fairness of `las`: from the moment a job has arrived until it finishes, no
   other job gets ahead of it by more than one quantum, unless it was already
   further ahead then.
   */
  lemma {:induction false} LasLeadBounded(c: Config, s: Sim, n: nat, i: nat, j: nat)
    requires ValidConfig(c) && PicksLeastAttained(c) && Inv(s)
    requires i < |s.jobs| && j < |s.jobs| && i != j
    requires s.jobs[j].arrival <= s.now
    ensures |Iterate(c, s, n).jobs| == |s.jobs|
    ensures Iterate(c, s, n).jobs[j].finish.None? ==>
      Lead(Iterate(c, s, n), i, j) <= RMax(c.quantum, Lead(s, i, j))
    decreases n
  {
    hide ServiceTime, JobOk, Tick, PicksLeastAttained;
    JobCount(c, s, n);
    if s.jobs[j].finish.Some? {
      FinishIsFinalOverRuns(c, s, n, j);
    } else if n > 0 {
      TickKeepsInv(c, s);
      LasTickLead(c, s, i, j);
      LasLeadBounded(c, Tick(c, s), n - 1, i, j);
    }
  }
}
