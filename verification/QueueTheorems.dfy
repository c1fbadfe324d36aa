/**
 What every scheduling policy has in common: the same makespan, the same
 service-weighted wait, no idling; and what the individual ones are for.
 */
module QueueTheorems {
  import opened Orders
  import opened Sorting
  import opened Workload
  import opened QueueSimulator

  // ----- reference definitions: serving a list strictly in list order -----

  /** When the server is done with `queue`, taken in list order from `now`. */
  function Completion(now: real, queue: seq<Arrival>): real
    decreases |queue|
  {
    if queue == [] then now
    else Completion(RMax(now, queue[0].time) + ServiceTime(queue[0].item), queue[1..])
  }

  /** Sum of service times wait, over `queue` taken in list order from `now`. */
  function InOrderCost(now: real, queue: seq<Arrival>): real
    decreases |queue|
  {
    if queue == [] then 0.0
    else
      var start, cost := RMax(now, queue[0].time), ServiceTime(queue[0].item);
      cost * (start - queue[0].time) + InOrderCost(start + cost, queue[1..])
  }

  /** The services of `queue` taken in list order from `now`. */
  function InOrder(now: real, queue: seq<Arrival>): (run: seq<Served>)
    ensures |run| == |queue|
    decreases |queue|
  {
    if queue == [] then []
    else
      var slot := Served(queue[0], RMax(now, queue[0].time));
      [slot] + InOrder(slot.End(), queue[1..])
  }

  function WeightedWait(run: seq<Served>): real {
    if run == [] then 0.0
    else ServiceTime(run[0].arrival.item) * run[0].Wait() + WeightedWait(run[1..])
  }

  function TotalWait(run: seq<Served>): real {
    if run == [] then 0.0 else run[0].Wait() + TotalWait(run[1..])
  }

  function Requests(run: seq<Served>): seq<Arrival> {
    if run == [] then [] else [run[0].arrival] + Requests(run[1..])
  }

  // ----- one turn of the loop -----

  /**
   The turn a run takes: `queue[k]`, one of the first `m` requests, all of which
   have arrived by `t`, starts its service at `t`; `rest` is the run from there.
   */
  lemma {:induction false} TakeTurn(sel: Selector, now: real, queue: seq<Arrival>, admitted: nat)
      returns (t: real, m: nat, k: nat, rest: seq<Served>)
    requires queue != [] && Arrived(now, queue, admitted)
    ensures k < m <= |queue| && admitted <= m && Arrived(t, queue, m)
    ensures m < |queue| ==> t < queue[m].time
    ensures k == Select(sel, t, queue[..m])
    ensures t == now || (admitted == 0 && t == queue[0].time > now)
    ensures t == RMax(now, queue[0].time)
    ensures Arrived(t + ServiceTime(queue[k].item), RemoveAt(queue, k), m - 1)
    ensures rest == Run(sel, t + ServiceTime(queue[k].item), RemoveAt(queue, k), m - 1)
    ensures Run(sel, now, queue, admitted) == [Served(queue[k], t)] + rest
  {
    hide ServiceTime, Select, Run, FirstMinimum, RemoveAt, Admit;
    t := Wake(now, queue, admitted);
    m := Admit(t, queue, admitted);
    k := Select(sel, t, queue[..m]);
    TurnUnfolds(sel, now, queue, admitted, t, m, k);
    StillArrived(t, ServiceTime(queue[k].item), queue, m, k);
    rest := Run(sel, t + ServiceTime(queue[k].item), RemoveAt(queue, k), m - 1);
  }

  lemma {:induction false} TurnUnfolds(sel: Selector, now: real, queue: seq<Arrival>, admitted: nat, t: real, m: nat, k: nat)
    requires queue != [] && admitted <= |queue|
    requires t == Wake(now, queue, admitted) && m == Admit(t, queue, admitted)
    requires m > 0 && k == Select(sel, t, queue[..m])
    ensures k < m
    ensures Run(sel, now, queue, admitted)
            == [Served(queue[k], t)] + Run(sel, t + ServiceTime(queue[k].item), RemoveAt(queue, k), m - 1)
  {
    hide ServiceTime, FirstMinimum, Select, Admit, Wake, RemoveAt;
  }

  lemma StillArrived(t: real, cost: real, queue: seq<Arrival>, m: nat, k: nat)
    requires k < m && Arrived(t, queue, m) && cost >= 0.0
    ensures Arrived(t + cost, RemoveAt(queue, k), m - 1)
  {
  }

  // ----- every request is served exactly once -----

  lemma {:induction false} RunServesEveryRequestOnce(sel: Selector, now: real, queue: seq<Arrival>, admitted: nat)
    requires Arrived(now, queue, admitted)
    ensures multiset(Requests(Run(sel, now, queue, admitted))) == multiset(queue)
    decreases |queue|
  {
    hide ServiceTime, Select, Run, FirstMinimum, RemoveAt, Admit, Wake;
    if queue != [] {
      var t, m, k, rest := TakeTurn(sel, now, queue, admitted);
      RunServesEveryRequestOnce(sel, t + ServiceTime(queue[k].item), RemoveAt(queue, k), m - 1);
      RemoveAtElements(queue, k);
      assert Run(sel, now, queue, admitted)[1..] == rest;
    }
  }

  // ----- conservation -----

  lemma CostOfHead(now: real, queue: seq<Arrival>)
    requires queue != [] && queue[0].time <= now
    ensures var cost := ServiceTime(queue[0].item);
      InOrderCost(now, queue) == cost * (now - queue[0].time) + InOrderCost(now + cost, queue[1..])
  {
    hide ServiceTime;
  }

  lemma SameProduct(a: real, b: real, c: real, d: real)
    requires a == c && b == d
    ensures a * b == c * d
  {
  }

  /** Serving an arrived request early trades its own wait against the waits of those it passes. */
  lemma {:induction false} CostOfServingEarly(now: real, queue: seq<Arrival>, k: nat)
    requires k < |queue| && Arrived(now, queue, k + 1)
    ensures var cost := ServiceTime(queue[k].item);
      InOrderCost(now, queue) == cost * (now - queue[k].time) + InOrderCost(now + cost, RemoveAt(queue, k))
    decreases k
  {
    hide ServiceTime, InOrderCost;
    CostOfHead(now, queue);
    if k == 0 {
      assert queue[k] == queue[0] && RemoveAt(queue, k) == queue[1..];
      SameProduct(ServiceTime(queue[k].item), now - queue[k].time, ServiceTime(queue[0].item), now - queue[0].time);
    } else {
      hide RemoveAt;
      var first, cost := ServiceTime(queue[0].item), ServiceTime(queue[k].item);
      CostOfServingEarly(now + first, queue[1..], k - 1);
      RemoveAtTail(queue, k);
      CostOfHead(now + cost, RemoveAt(queue, k));
      assert queue[1..][k - 1] == queue[k];
      assert now + first + cost == now + cost + first;
      var a, b, later := queue[0].time, queue[k].time, InOrderCost(now + first + cost, RemoveAt(queue, k)[1..]);
      assert InOrderCost(now + first, queue[1..]) == cost * (now + first - b) + later;
      assert InOrderCost(now + cost, RemoveAt(queue, k)) == first * (now + cost - a) + later;
      Exchange(first, cost, now, a, b);
    }
  }

  lemma Exchange(first: real, cost: real, now: real, a: real, b: real)
    ensures first * (now - a) + cost * (now + first - b) == cost * (now - b) + first * (now + cost - a)
  {
  }

  /**
   Conservation law. Whatever key selects the requests, the service-weighted
   wait of a run is that of serving the queue in list order.
   */
  lemma {:induction false} WeightedWaitConserved(sel: Selector, now: real, queue: seq<Arrival>, admitted: nat)
    requires Arrived(now, queue, admitted)
    ensures WeightedWait(Run(sel, now, queue, admitted)) == InOrderCost(now, queue)
    decreases |queue|
  {
    hide ServiceTime, Select, Run, FirstMinimum, RemoveAt, Admit, Wake, InOrderCost, WeightedWait;
    if queue == [] {
      NothingCosts(sel, now, admitted);
    } else {
      var t, m, k, rest := TakeTurn(sel, now, queue, admitted);
      WeightedWaitConserved(sel, t + ServiceTime(queue[k].item), RemoveAt(queue, k), m - 1);
      WaitOfFirst(queue[k], t, rest);
      CostOfServingEarly(t, queue, k);
      CostFromWake(now, t, queue);
    }
  }

  lemma NothingCosts(sel: Selector, now: real, admitted: nat)
    requires admitted == 0
    ensures WeightedWait(Run(sel, now, [], admitted)) == 0.0 == InOrderCost(now, [])
  {
  }

  lemma WaitOfFirst(a: Arrival, t: real, rest: seq<Served>)
    requires a.time <= t
    ensures WeightedWait([Served(a, t)] + rest) == ServiceTime(a.item) * (t - a.time) + WeightedWait(rest)
  {
    hide ServiceTime;
    assert ([Served(a, t)] + rest)[1..] == rest;
    assert Served(a, t).Wait() == t - a.time;
  }

  /** What is served in list order costs the same from the arrival of the first request as from before it. */
  lemma CostFromWake(now: real, t: real, queue: seq<Arrival>)
    requires queue != [] && t == RMax(now, queue[0].time)
    ensures InOrderCost(t, queue) == InOrderCost(now, queue)
  {
    hide ServiceTime;
  }

  /** Any two policies agree on the service-weighted wait of one arrival list. */
  lemma PoliciesShareWeightedWait(arrivals: seq<Arrival>, a: Selector, b: Selector)
    ensures WeightedWait(Run(a, 0.0, arrivals, 0)) == WeightedWait(Run(b, 0.0, arrivals, 0))
  {
    WeightedWaitConserved(a, 0.0, arrivals, 0);
    WeightedWaitConserved(b, 0.0, arrivals, 0);
  }

  /** Where a run records a service of at least 250 ms after a wait of `w`. */
  function SlowServices(run: seq<Served>, w: real): set<int> {
    set i | 0 <= i < |run| && ServiceTime(run[i].arrival.item) >= 250.0 && run[i].Wait() == w
  }

  lemma OneMoreSlowService(run: seq<Served>, slot: Served, w: real)
    ensures |SlowServices(run + [slot], w)|
      == |SlowServices(run, w)| + if ServiceTime(slot.arrival.item) >= 250.0 && slot.Wait() == w then 1 else 0
  {
    hide ServiceTime;
    var all := run + [slot];
    assert all[|run|] == slot && forall i :: 0 <= i < |run| ==> all[i] == run[i];
    if ServiceTime(slot.arrival.item) >= 250.0 && slot.Wait() == w {
      assert SlowServices(all, w) == SlowServices(run, w) + {|run|};
    } else {
      assert SlowServices(all, w) == SlowServices(run, w);
    }
  }

  /** The slow waits of a report are those of the services of at least 250 ms, each as often as it occurs. */
  lemma {:induction false} SlowWaitsAreOfSlowServices(run: seq<Served>, w: real)
    ensures multiset(SlowWaits(run))[w] == |SlowServices(run, w)|
  {
    hide ServiceTime;
    if run == [] {
      assert SlowServices(run, w) == {};
    } else {
      var n := |run| - 1;
      SlowWaitsAreOfSlowServices(run[..n], w);
      OneMoreSlowService(run[..n], run[n], w);
      assert run == run[..n] + [run[n]];
      hide SlowServices;
    }
  }

  // ----- makespan -----

  lemma {:induction false} CompletionOfServingEarly(now: real, queue: seq<Arrival>, k: nat)
    requires k < |queue| && Arrived(now, queue, k + 1)
    ensures Completion(now, queue) == Completion(now + ServiceTime(queue[k].item), RemoveAt(queue, k))
    decreases k
  {
    hide ServiceTime;
    if k == 0 {
      assert RemoveAt(queue, 0) == queue[1..];
    } else {
      var first, cost := ServiceTime(queue[0].item), ServiceTime(queue[k].item);
      CompletionOfServingEarly(now + first, queue[1..], k - 1);
      RemoveAtTail(queue, k);
      assert now + first + cost == now + cost + first;
    }
  }

  /** Makespan. Every policy finishes when serving in list order would. */
  lemma {:induction false} MakespanConserved(sel: Selector, now: real, queue: seq<Arrival>, admitted: nat)
    requires Arrived(now, queue, admitted)
    ensures EndClock(now, Run(sel, now, queue, admitted)) == Completion(now, queue)
    decreases |queue|
  {
    hide ServiceTime, Select, Run, FirstMinimum, RemoveAt, Admit, Wake;
    if queue != [] {
      var t, m, k, rest := TakeTurn(sel, now, queue, admitted);
      var cost := ServiceTime(queue[k].item);
      MakespanConserved(sel, t + cost, RemoveAt(queue, k), m - 1);
      assert EndClock(now, [Served(queue[k], t)] + rest) == EndClock(t + cost, rest);
      CompletionOfServingEarly(t, queue, k);
      assert Completion(now, queue) == Completion(t, queue);
    }
  }

  // ----- the server never idles while a request waits -----

  lemma {:induction false} RunContents(sel: Selector, now: real, queue: seq<Arrival>, admitted: nat, q: nat)
    requires Arrived(now, queue, admitted)
    requires q < |Run(sel, now, queue, admitted)|
    ensures Run(sel, now, queue, admitted)[q].arrival in queue
  {
    hide ServiceTime, Select, Run, FirstMinimum;
    RunServesEveryRequestOnce(sel, now, queue, admitted);
    RequestsAt(Run(sel, now, queue, admitted), q);
    assert Requests(Run(sel, now, queue, admitted))[q] in multiset(queue);
  }

  lemma {:induction false} RequestsAt(run: seq<Served>, q: nat)
    requires q < |run|
    ensures |Requests(run)| == |run| && Requests(run)[q] == run[q].arrival
  {
    if |run| > 1 {
      RequestsAt(run[1..], if q > 0 then q - 1 else 0);
    }
  }

  /** When the server is free for the service at position `p`. */
  function FreeAt(now: real, run: seq<Served>, p: nat): real
    requires p < |run|
  {
    if p == 0 then now else run[p - 1].End()
  }

  /**
   A gap before a service means there was nothing to do: every request served
   from there on arrives no earlier than the gap ends.
   */
  lemma {:induction false} NoIdlingWhileWorkWaits(
      sel: Selector, now: real, queue: seq<Arrival>, admitted: nat, p: nat, q: nat)
    requires Arrived(now, queue, admitted) && SortedByTime(queue)
    requires p <= q < |queue|
    ensures var run := Run(sel, now, queue, admitted);
      && FreeAt(now, run, p) <= run[p].start
      && run[p].arrival.time <= run[p].start
      && (FreeAt(now, run, p) < run[p].start ==> run[p].start <= run[q].arrival.time)
    decreases |queue|
  {
    hide ServiceTime, Select, Run, FirstMinimum;
    var t, m, k, rest := TakeTurn(sel, now, queue, admitted);
    var run := Run(sel, now, queue, admitted);
    if p == 0 {
      RunContents(sel, now, queue, admitted, q);
    } else {
      NoIdlingWhileWorkWaits(sel, t + ServiceTime(queue[k].item), RemoveAt(queue, k), m - 1, p - 1, q - 1);
      assert run[p] == rest[p - 1] && run[q] == rest[q - 1];
      assert FreeAt(now, run, p) == FreeAt(t + ServiceTime(queue[k].item), rest, p - 1);
    }
  }

  // ----- first come, first served -----

  /** Taking the head of the pending list serves the arrival list in its own order. */
  lemma {:induction false} HeadServesInOrder(now: real, queue: seq<Arrival>, admitted: nat)
    requires Arrived(now, queue, admitted)
    ensures Run(Head, now, queue, admitted) == InOrder(now, queue)
    decreases |queue|
  {
    hide ServiceTime, Run, FirstMinimum;
    if queue != [] {
      var t, m, k, rest := TakeTurn(Head, now, queue, admitted);
      assert RemoveAt(queue, 0) == queue[1..];
      HeadServesInOrder(t + ServiceTime(queue[0].item), queue[1..], m - 1);
    }
  }

  /** The fallback key, arrival time twice. */
  function ArrivalKey(): KeyFn {
    (item: WorkItem, age: real, at: real) => (at, at)
  }

  lemma EarliestIsHead(now: real, pending: seq<Arrival>)
    requires pending != [] && SortedByTime(pending)
    ensures Select(ByKey(ArrivalKey()), now, pending) == 0 == Select(Head, now, pending)
  {
    assert pending[0].time <= pending[FirstMinimum(ArrivalKey(), now, pending)].time;
  }

  /** On arrivals sorted by time the pending list stays sorted, so its head is the earliest arrival. */
  lemma {:induction false} HeadIsEarliestArrival(now: real, queue: seq<Arrival>, admitted: nat)
    requires Arrived(now, queue, admitted) && SortedByTime(queue)
    ensures Run(Head, now, queue, admitted) == Run(ByKey(ArrivalKey()), now, queue, admitted)
    decreases |queue|
  {
    hide ServiceTime, Run, FirstMinimum, Select;
    if queue != [] {
      var t, m, k, rest := TakeTurn(Head, now, queue, admitted);
      var t', m', k', rest' := TakeTurn(ByKey(ArrivalKey()), now, queue, admitted);
      EarliestIsHead(t, queue[..m]);
      HeadIsEarliestArrival(t + ServiceTime(queue[0].item), RemoveAt(queue, 0), m - 1);
    }
  }

  // ----- shortest job first -----

  function ShortestKey(): KeyFn {
    (item: WorkItem, age: real, at: real) => (ServiceTime(item), at)
  }

  lemma ShortestIsSelected(now: real, pending: seq<Arrival>, j: nat)
    requires j < |pending|
    ensures var k := FirstMinimum(ShortestKey(), now, pending);
      ServiceTime(pending[k].item) <= ServiceTime(pending[j].item)
  {
    hide ServiceTime;
    var k := FirstMinimum(ShortestKey(), now, pending);
    assert !Before(PriorityOf(ShortestKey(), now, pending[j]), PriorityOf(ShortestKey(), now, pending[k]));
  }

  lemma WaitOfHead(now: real, order: seq<Arrival>)
    requires order != [] && order[0].time <= now
    ensures TotalWait(InOrder(now, order))
            == now - order[0].time + TotalWait(InOrder(now + ServiceTime(order[0].item), order[1..]))
  {
    hide ServiceTime;
    var rest := InOrder(now + ServiceTime(order[0].item), order[1..]);
    assert InOrder(now, order)[1..] == rest;
  }

  /** Moving a request that is no longer than those ahead of it to the front never adds waiting. */
  lemma {:induction false} ShorterFirstHelps(now: real, order: seq<Arrival>, k: nat)
    requires k < |order| && Arrived(now, order, |order|)
    requires forall i :: 0 <= i < k ==> ServiceTime(order[k].item) <= ServiceTime(order[i].item)
    ensures now - order[k].time + TotalWait(InOrder(now + ServiceTime(order[k].item), RemoveAt(order, k)))
            <= TotalWait(InOrder(now, order))
    decreases k
  {
    hide ServiceTime, InOrder, TotalWait;
    WaitOfHead(now, order);
    if k == 0 {
      assert RemoveAt(order, 0) == order[1..];
    } else {
      var first, cost := ServiceTime(order[0].item), ServiceTime(order[k].item);
      ShorterFirstHelps(now + first, order[1..], k - 1);
      RemoveAtTail(order, k);
      WaitOfHead(now + cost, RemoveAt(order, k));
      assert now + first + cost == now + cost + first;
    }
  }

  /** The key's choice, found in another arrangement of the backlog, is no longer than anything there. */
  lemma {:induction false} ShortestOfAll(now: real, pending: seq<Arrival>, order: seq<Arrival>, k: nat) returns (j: nat)
    requires pending != [] && multiset(order) == multiset(pending)
    requires Arrived(now, pending, |pending|)
    requires k == FirstMinimum(ShortestKey(), now, pending)
    ensures j < |order| && order[j] == pending[k]
    ensures Arrived(now, order, |order|)
    ensures forall i :: 0 <= i < |order| ==> ServiceTime(order[j].item) <= ServiceTime(order[i].item)
  {
    hide ServiceTime, FirstMinimum;
    SameElements(order, pending);
    assert pending[k] in order;
    j :| 0 <= j < |order| && order[j] == pending[k];
    forall i | 0 <= i < |order|
      ensures ServiceTime(order[j].item) <= ServiceTime(order[i].item) && order[i].time <= now
    {
      assert order[i] in pending;
      var l :| 0 <= l < |pending| && pending[l] == order[i];
      ShortestIsSelected(now, pending, l);
    }
  }

  lemma SameAfterRemoval<T>(a: seq<T>, i: nat, b: seq<T>, j: nat)
    requires i < |a| && j < |b| && a[i] == b[j] && multiset(a) == multiset(b)
    ensures multiset(RemoveAt(a, i)) == multiset(RemoveAt(b, j))
  {
    hide RemoveAt;
    RemoveAtElements(a, i);
    RemoveAtElements(b, j);
    assert multiset(RemoveAt(a, i)) == multiset(a) - multiset{a[i]};
    assert multiset(RemoveAt(b, j)) == multiset(b) - multiset{b[j]};
  }

  /**
   Oracle SJF is optimal on a backlog: with no arrivals left, its total wait is
   no greater than that of serving the pending requests in any other order.
   */
  lemma {:induction false} ShortestFirstIsOptimal(now: real, pending: seq<Arrival>, order: seq<Arrival>)
    requires Arrived(now, pending, |pending|)
    requires multiset(order) == multiset(pending)
    ensures TotalWait(Run(ByKey(ShortestKey()), now, pending, |pending|)) <= TotalWait(InOrder(now, order))
    decreases |pending|
  {
    hide ServiceTime, Run, FirstMinimum, RemoveAt, InOrder;
    if pending != [] {
      var t, m, k, rest := TakeTurn(ByKey(ShortestKey()), now, pending, |pending|);
      assert pending[..m] == pending;
      var chosen := pending[k];
      var j := ShortestOfAll(now, pending, order, k);
      ShorterFirstHelps(now, order, j);
      SameAfterRemoval(pending, k, order, j);
      ShortestFirstIsOptimal(now + ServiceTime(chosen.item), RemoveAt(pending, k), RemoveAt(order, j));
      assert ([Served(chosen, t)] + rest)[1..] == rest;
    }
  }

  /** In particular no policy beats it on the backlog. */
  lemma ShortestFirstBeatsEveryPolicy(sel: Selector, now: real, pending: seq<Arrival>)
    requires Arrived(now, pending, |pending|)
    ensures TotalWait(Run(ByKey(ShortestKey()), now, pending, |pending|))
            <= TotalWait(Run(sel, now, pending, |pending|))
  {
    hide ServiceTime, FirstMinimum, Select;
    var order := Requests(Run(sel, now, pending, |pending|));
    RunServesEveryRequestOnce(sel, now, pending, |pending|);
    BacklogRunIsInOrder(sel, now, pending);
    ShortestFirstIsOptimal(now, pending, order);
  }

  lemma {:induction false} BacklogRunIsInOrder(sel: Selector, now: real, pending: seq<Arrival>)
    requires Arrived(now, pending, |pending|)
    ensures var run := Run(sel, now, pending, |pending|); run == InOrder(now, Requests(run))
    decreases |pending|
  {
    hide ServiceTime, Run, FirstMinimum, RemoveAt;
    if pending != [] {
      var t, m, k, rest := TakeTurn(sel, now, pending, |pending|);
      BacklogRunIsInOrder(sel, now + ServiceTime(pending[k].item), RemoveAt(pending, k));
      assert ([Served(pending[k], t)] + rest)[1..] == rest;
      assert Requests([Served(pending[k], t)] + rest)[1..] == Requests(rest);
    }
  }
}
