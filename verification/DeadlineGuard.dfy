/**
 The deadline guard: a request whose age has reached the deadline gets the key
 `(-1e9 + arrival, arrival)`, every other one a cost. `policy_key`'s
 `deadline_guard` and the sweep's guarded candidates both have this form.
 */
module DeadlineGuard {
  import opened Orders
  import opened Workload
  import opened QueueSimulator
  import opened QueueTheorems

  const GUARD_OFFSET: real := 1000000000.0

  /** The guard in front of an arbitrary cost. */
  function GuardedKey(deadline: real, cost: (WorkItem, real) -> real): KeyFn {
    (item: WorkItem, age: real, at: real) =>
      if age >= deadline then (-GUARD_OFFSET + at, at) else (cost(item, age), at)
  }

  /** `policy_key(..., policy="deadline_guard")`. */
  function DeadlineGuardKey(deadline: real): KeyFn {
    GuardedKey(deadline, (item: WorkItem, age: real) => CategoryCost(item.kind, item.category))
  }

  /** The score of a sweep candidate that the guard does not touch. */
  function CandidateCost(deadline: real, tailWeight: real, agingWeight: real, item: WorkItem, age: real): real {
    var discount := 1.0 + agingWeight * age / RMax(deadline, 1.0);
    if discount == 0.0 then 0.0 else TailRiskCostScore(item, tailWeight) / discount
  }

  /** `candidate_score` of a sweep candidate with its guard on. */
  function GuardedCandidateKey(deadline: real, tailWeight: real, agingWeight: real): KeyFn {
    GuardedKey(deadline, (item: WorkItem, age: real) => CandidateCost(deadline, tailWeight, agingWeight, item, age))
  }

  /** No cost falls below `least`. */
  ghost predicate CostsAtLeast(cost: (WorkItem, real) -> real, least: real) {
    forall item: WorkItem, age: real :: age >= 0.0 ==> cost(item, age) >= least
  }

  // ----- what the guard selects -----

  /**
   Once the oldest pending request has expired it is the one selected, provided
   its guarded key is still below every cost.
   */
  lemma ExpiredHeadIsSelected(deadline: real, cost: (WorkItem, real) -> real, least: real, now: real, pending: seq<Arrival>)
    requires pending != [] && SortedByTime(pending) && Arrived(now, pending, |pending|)
    requires CostsAtLeast(cost, least)
    requires now >= pending[0].time + deadline
    requires pending[0].time <= GUARD_OFFSET + least
    ensures FirstMinimum(GuardedKey(deadline, cost), now, pending) == 0
  {
    var key := GuardedKey(deadline, cost);
    var k := FirstMinimum(key, now, pending);
    assert pending[0].time <= pending[k].time <= now;
    assert PriorityOf(key, now, pending[0]) == (-GUARD_OFFSET + pending[0].time, pending[0].time);
    assert RMax(0.0, now - pending[k].time) >= 0.0;
    assert !Before(PriorityOf(key, now, pending[k]), PriorityOf(key, now, pending[0]));
  }

  /**
   How far the guard reaches. Under `deadline_guard` an expired request that
   arrived at `at` is preferred to every younger one exactly when
   `at <= 1e9 + 90`: beyond that, its guarded key exceeds the cheapest cost.
   A deadline of zero puts the guard on every request, and the limit goes away.
   */
  lemma GuardReach(deadline: real, at: real)
    ensures (forall now: real, older: WorkItem, younger: Arrival ::
               now >= at + deadline && at < younger.time <= now ==>
               !Before(PriorityOf(DeadlineGuardKey(deadline), now, younger),
                       PriorityOf(DeadlineGuardKey(deadline), now, Arrival(at, older))))
            <==> deadline <= 0.0 || at <= GUARD_OFFSET + 90.0
  {
    var key := DeadlineGuardKey(deadline);
    if deadline > 0.0 && at > GUARD_OFFSET + 90.0 {
      var cheap := WorkItem("", "tool", 0, 0, "");
      var younger := Arrival(at + deadline / 2.0, cheap);
      assert CategoryCost("tool", "") == 90.0 by {
        assert !Contains("multi_turn", "") && !Contains("live_multiple", "");
      }
      assert Before(PriorityOf(key, at + deadline, younger), PriorityOf(key, at + deadline, Arrival(at, cheap)));
    }
  }

  // ----- following one request through a run -----

  /** When the request at position `i` of the queue starts its service. */
  function StartOf(sel: Selector, now: real, queue: seq<Arrival>, admitted: nat, i: nat): real
    requires i < |queue| && admitted <= |queue|
    decreases |queue|
  {
    var t := Wake(now, queue, admitted);
    var m := Admit(t, queue, admitted);
    var k := Select(sel, t, queue[..m]);
    if k == i then t
    else StartOf(sel, t + ServiceTime(queue[k].item), RemoveAt(queue, k), m - 1, if i < k then i else i - 1)
  }

  /**
   The work of the requests ahead of `queue[i]` that are still pending at the
   first decision taken once its age has reached the deadline; nothing if it
   was served before.
   */
  function ExpiryBacklog(sel: Selector, now: real, queue: seq<Arrival>, admitted: nat, i: nat, deadline: real): real
    requires i < |queue| && admitted <= |queue|
    decreases |queue|
  {
    var t := Wake(now, queue, admitted);
    var m := Admit(t, queue, admitted);
    var k := Select(sel, t, queue[..m]);
    if t >= queue[i].time + deadline then Work(queue[..i])
    else if k == i then 0.0
    else ExpiryBacklog(sel, t + ServiceTime(queue[k].item), RemoveAt(queue, k), m - 1,
                       if i < k then i else i - 1, deadline)
  }

  lemma {:induction false} FollowTurn(sel: Selector, now: real, queue: seq<Arrival>, admitted: nat, i: nat, deadline: real)
      returns (t: real, m: nat, k: nat, i': nat)
    requires i < |queue| && Arrived(now, queue, admitted)
    ensures k < m <= |queue| && admitted <= m && Arrived(t, queue, m)
    ensures m < |queue| ==> t < queue[m].time
    ensures k == Select(sel, t, queue[..m])
    ensures t == RMax(now, queue[0].time) && (admitted > 0 ==> t == now)
    ensures Arrived(t + ServiceTime(queue[k].item), RemoveAt(queue, k), m - 1)
    ensures k != i ==> i' < |queue| - 1 && RemoveAt(queue, k)[i'] == queue[i] && i' == if i < k then i else i - 1
    ensures StartOf(sel, now, queue, admitted, i)
      == if k == i then t else StartOf(sel, t + ServiceTime(queue[k].item), RemoveAt(queue, k), m - 1, i')
    ensures ExpiryBacklog(sel, now, queue, admitted, i, deadline)
      == if t >= queue[i].time + deadline then Work(queue[..i])
         else if k == i then 0.0
         else ExpiryBacklog(sel, t + ServiceTime(queue[k].item), RemoveAt(queue, k), m - 1, i', deadline)
  {
    hide Select, Run, FirstMinimum, ServiceTime, StartOf, ExpiryBacklog, RemoveAt;
    var rest;
    t, m, k, rest := TakeTurn(sel, now, queue, admitted);
    i' := if i <= k then i else i - 1;
    TurnChoices(sel, now, queue, admitted, t, m, k);
    FollowUnfolds(sel, now, queue, admitted, i, deadline, t, m, k);
    if k != i { KeptByRemoval(queue, i, k); }
  }

  lemma KeptByRemoval<T>(queue: seq<T>, i: nat, k: nat)
    requires i < |queue| && k < |queue| && i != k
    ensures RemoveAt(queue, k)[if i < k then i else i - 1] == queue[i]
  {
  }

  lemma {:induction false} FollowUnfolds(
      sel: Selector, now: real, queue: seq<Arrival>, admitted: nat, i: nat, deadline: real, t: real, m: nat, k: nat)
    requires i < |queue| && admitted <= |queue|
    requires t == Wake(now, queue, admitted) && m == Admit(t, queue, admitted)
    requires m > 0 && k == Select(sel, t, queue[..m])
    ensures var i' := if i < k then i else i - 1;
      StartOf(sel, now, queue, admitted, i)
      == if k == i then t else StartOf(sel, t + ServiceTime(queue[k].item), RemoveAt(queue, k), m - 1, i')
    ensures var i' := if i < k then i else i - 1;
      ExpiryBacklog(sel, now, queue, admitted, i, deadline)
      == if t >= queue[i].time + deadline then Work(queue[..i])
         else if k == i then 0.0
         else ExpiryBacklog(sel, t + ServiceTime(queue[k].item), RemoveAt(queue, k), m - 1, i', deadline)
  {
    hide Select, FirstMinimum, ServiceTime, Work, Admit, Wake, RemoveAt;
  }

  lemma {:induction false} TurnChoices(sel: Selector, now: real, queue: seq<Arrival>, admitted: nat, t: real, m: nat, k: nat)
    requires queue != [] && Arrived(now, queue, admitted)
    requires t == RMax(now, queue[0].time) && (t == now || admitted == 0)
    requires admitted <= m <= |queue| && Arrived(t, queue, m) && (m < |queue| ==> t < queue[m].time)
    ensures t == Wake(now, queue, admitted)
    ensures m == Admit(t, queue, admitted)
  {
  }

  /** The start a request is followed to is the one the run records for it. */
  lemma {:induction false} StartIsRecorded(sel: Selector, now: real, queue: seq<Arrival>, admitted: nat, i: nat)
    requires i < |queue| && Arrived(now, queue, admitted)
    ensures Served(queue[i], StartOf(sel, now, queue, admitted, i)) in Run(sel, now, queue, admitted)
    decreases |queue|
  {
    hide Select, Run, FirstMinimum, ServiceTime, StartOf, ExpiryBacklog, Work;
    var t, m, k, i' := FollowTurn(sel, now, queue, admitted, i, 0.0);
    TurnOfRun(sel, now, queue, admitted, t, m, k);
    if k != i {
      StartIsRecorded(sel, t + ServiceTime(queue[k].item), RemoveAt(queue, k), m - 1, i');
    }
  }

  lemma {:induction false} TurnOfRun(sel: Selector, now: real, queue: seq<Arrival>, admitted: nat, t: real, m: nat, k: nat)
    requires queue != [] && Arrived(now, queue, admitted)
    requires t == RMax(now, queue[0].time) && (admitted > 0 ==> t == now)
    requires admitted <= m <= |queue| && Arrived(t, queue, m) && (m < |queue| ==> t < queue[m].time)
    requires k < m && k == Select(sel, t, queue[..m])
    ensures Run(sel, now, queue, admitted)
      == [Served(queue[k], t)] + Run(sel, t + ServiceTime(queue[k].item), RemoveAt(queue, k), m - 1)
  {
    hide Select, Run, FirstMinimum, ServiceTime, Wake, Admit;
    TurnChoices(sel, now, queue, admitted, t, m, k);
    TurnUnfolds(sel, now, queue, admitted, t, m, k);
  }

  // ----- the bound -----

  /** What the bound asks of a queue and the request at position `i`. */
  ghost predicate Guarded(cost: (WorkItem, real) -> real, least: real, longest: real, queue: seq<Arrival>, i: nat) {
    && CostsAtLeast(cost, least)
    && SortedByTime(queue) && i < |queue|
    && queue[i].time <= GUARD_OFFSET + least
    && forall j :: 0 <= j < |queue| ==> ServiceTime(queue[j].item) <= longest
  }

  lemma GuardedAfterRemoval(
      cost: (WorkItem, real) -> real, least: real, longest: real, queue: seq<Arrival>, i: nat, k: nat, i': nat)
    requires Guarded(cost, least, longest, queue, i)
    requires k < |queue| && k != i && i' == if i < k then i else i - 1
    ensures Guarded(cost, least, longest, RemoveAt(queue, k), i')
    ensures RemoveAt(queue, k)[i'] == queue[i]
  {
    hide ServiceTime, CostsAtLeast;
  }

  /**
   From the first decision at which its age has reached the deadline, a request
   waits for exactly the work that is pending ahead of it.
   */
  lemma {:induction false} ExpiredWaitsForOlderWork(
      deadline: real, cost: (WorkItem, real) -> real, least: real, longest: real,
      now: real, queue: seq<Arrival>, admitted: nat, i: nat)
    requires Guarded(cost, least, longest, queue, i) && Arrived(now, queue, admitted)
    requires deadline >= 0.0
    requires RMax(now, queue[0].time) >= queue[i].time + deadline
    ensures StartOf(ByKey(GuardedKey(deadline, cost)), now, queue, admitted, i)
            == RMax(now, queue[0].time) + Work(queue[..i])
    decreases |queue|
  {
    hide FirstMinimum, ServiceTime, StartOf, ExpiryBacklog, CostsAtLeast, GuardedKey, RemoveAt;
    var sel := ByKey(GuardedKey(deadline, cost));
    var t, m, k, i' := FollowTurn(sel, now, queue, admitted, i, deadline);
    assert queue[0].time <= queue[i].time;
    assert i < m;
    ExpiredHeadIsSelected(deadline, cost, least, t, queue[..m]);
    assert k == 0;
    assert Work(queue[..0]) == 0.0;
    if i > 0 {
      var first := ServiceTime(queue[0].item);
      GuardedAfterRemoval(cost, least, longest, queue, i, 0, i');
      RemoveHead(queue, i);
      assert RMax(t + first, RemoveAt(queue, 0)[0].time) == t + first;
      ExpiredWaitsForOlderWork(deadline, cost, least, longest, t + first, RemoveAt(queue, 0), m - 1, i');
    }
  }

  lemma RemoveHead(queue: seq<Arrival>, i: nat)
    requires 0 < i < |queue|
    ensures RemoveAt(queue, 0)[0] == queue[1]
    ensures Work(queue[..i]) == ServiceTime(queue[0].item) + Work(RemoveAt(queue, 0)[..i - 1])
  {
    hide ServiceTime;
    assert queue[..i][1..] == RemoveAt(queue, 0)[..i - 1];
  }

  /**
   Bounded waiting, from any state of the loop: a request starts at most one
   deadline and one service after its arrival, plus the older work still
   pending when it expires.
   */
  lemma {:induction false} GuardBoundsStart(
      deadline: real, cost: (WorkItem, real) -> real, least: real, longest: real,
      now: real, queue: seq<Arrival>, admitted: nat, i: nat)
    requires Guarded(cost, least, longest, queue, i) && Arrived(now, queue, admitted)
    requires deadline >= 0.0 && longest >= 0.0
    requires now <= queue[i].time + deadline + longest
    ensures var sel := ByKey(GuardedKey(deadline, cost));
      StartOf(sel, now, queue, admitted, i)
      <= queue[i].time + deadline + longest + ExpiryBacklog(sel, now, queue, admitted, i, deadline)
    decreases |queue|
  {
    hide FirstMinimum, ServiceTime, StartOf, ExpiryBacklog, CostsAtLeast, GuardedKey, RemoveAt, Select;
    var sel := ByKey(GuardedKey(deadline, cost));
    var t, m, k, i' := FollowTurn(sel, now, queue, admitted, i, deadline);
    assert queue[0].time <= queue[i].time;
    if t >= queue[i].time + deadline {
      ExpiredWaitsForOlderWork(deadline, cost, least, longest, now, queue, admitted, i);
    } else if k != i {
      GuardedAfterRemoval(cost, least, longest, queue, i, k, i');
      GuardBoundsStart(deadline, cost, least, longest, t + ServiceTime(queue[k].item), RemoveAt(queue, k), m - 1, i');
    }
  }

  /** `deadline_guard` over a whole simulation. */
  lemma DeadlineGuardBoundsWait(deadline: real, longest: real, arrivals: seq<Arrival>, i: nat)
    requires SortedByTime(arrivals) && i < |arrivals|
    requires deadline >= 0.0
    requires 0.0 <= arrivals[i].time <= GUARD_OFFSET + 90.0
    requires forall j :: 0 <= j < |arrivals| ==> ServiceTime(arrivals[j].item) <= longest
    ensures var sel := ByKey(DeadlineGuardKey(deadline));
      && Served(arrivals[i], StartOf(sel, 0.0, arrivals, 0, i)) in Run(sel, 0.0, arrivals, 0)
      && StartOf(sel, 0.0, arrivals, 0, i) - arrivals[i].time
         <= deadline + longest + ExpiryBacklog(sel, 0.0, arrivals, 0, i, deadline)
  {
    hide Run, StartOf, ExpiryBacklog;
    var cost := (item: WorkItem, age: real) => CategoryCost(item.kind, item.category);
    assert ServiceTime(arrivals[i].item) >= 0.0;
    assert DeadlineGuardKey(deadline) == GuardedKey(deadline, cost);
    GuardBoundsStart(deadline, cost, 90.0, longest, 0.0, arrivals, 0, i);
    StartIsRecorded(ByKey(DeadlineGuardKey(deadline)), 0.0, arrivals, 0, i);
  }

  lemma CandidateCostIsNonNegative(deadline: real, tailWeight: real, agingWeight: real, item: WorkItem, age: real)
    requires tailWeight >= 0.0 && agingWeight >= 0.0 && age >= 0.0
    ensures 1.0 + agingWeight * age / RMax(deadline, 1.0) >= 1.0
    ensures TailRiskCostScore(item, tailWeight) >= 0.0
    ensures TailRiskCostScore(item, tailWeight) / (1.0 + agingWeight * age / RMax(deadline, 1.0)) >= 0.0
  {
    hide ServiceTime, CategoryCost, TailRiskMultiplier;
    assert agingWeight * age >= 0.0;
    assert agingWeight * age / RMax(deadline, 1.0) >= 0.0;
    assert tailWeight * TailRiskMultiplier(item.kind, item.category) >= 0.0;
  }

  /** A guarded sweep candidate over a whole simulation; its weights are not negative. */
  lemma GuardedCandidateBoundsWait(
      deadline: real, tailWeight: real, agingWeight: real, longest: real, arrivals: seq<Arrival>, i: nat)
    requires SortedByTime(arrivals) && i < |arrivals|
    requires deadline >= 0.0 && tailWeight >= 0.0 && agingWeight >= 0.0
    requires 0.0 <= arrivals[i].time <= GUARD_OFFSET
    requires forall j :: 0 <= j < |arrivals| ==> ServiceTime(arrivals[j].item) <= longest
    ensures var sel := ByKey(GuardedCandidateKey(deadline, tailWeight, agingWeight));
      && Served(arrivals[i], StartOf(sel, 0.0, arrivals, 0, i)) in Run(sel, 0.0, arrivals, 0)
      && StartOf(sel, 0.0, arrivals, 0, i) - arrivals[i].time
         <= deadline + longest + ExpiryBacklog(sel, 0.0, arrivals, 0, i, deadline)
  {
    hide Run, StartOf, ExpiryBacklog, TailRiskCostScore;
    var cost := (item: WorkItem, age: real) => CandidateCost(deadline, tailWeight, agingWeight, item, age);
    assert GuardedCandidateKey(deadline, tailWeight, agingWeight) == GuardedKey(deadline, cost);
    forall item: WorkItem, age: real | age >= 0.0 ensures cost(item, age) >= 0.0 {
      CandidateCostIsNonNegative(deadline, tailWeight, agingWeight, item, age);
    }
    assert ServiceTime(arrivals[i].item) >= 0.0;
    GuardBoundsStart(deadline, cost, 0.0, longest, 0.0, arrivals, 0, i);
    StartIsRecorded(ByKey(GuardedKey(deadline, cost)), 0.0, arrivals, 0, i);
  }
}
