/** The named policies of the simulator as key functions. */
module QueuePolicies {
  import opened Orders
  import opened Workload
  import opened QueueSimulator
  import opened QueueTheorems
  import opened DeadlineGuard

  /** A cost that shrinks with age, then arrival time. */
  function AgedKey(deadline: real, cost: WorkItem -> real): KeyFn {
    (item: WorkItem, age: real, at: real) =>
      var discount := 1.0 + age / RMax(deadline, 1.0);
      (if discount == 0.0 then 0.0 else cost(item) / discount, at)
  }

  function CostKey(cost: WorkItem -> real): KeyFn {
    (item: WorkItem, age: real, at: real) => (cost(item), at)
  }

  function CategoryCostOf(): WorkItem -> real { (item: WorkItem) => CategoryCost(item.kind, item.category) }

  /** `policy_key`; `gateway` stands for the keys that the gateway's own optimizer computes. */
  function PolicyKey(policy: string, deadline: real, gateway: KeyFn): KeyFn {
    if policy == "oracle_sjf" then ShortestKey()
    else if policy == "oracle_aging" then AgedKey(deadline, (item: WorkItem) => ServiceTime(item))
    else if policy == "prompt_len" then CostKey((item: WorkItem) => item.promptProxy as real)
    else if policy == "toolaware_rule" then CostKey((item: WorkItem) => ToolawareRuleScore(item))
    else if policy == "category_cost" then CostKey(CategoryCostOf())
    else if policy == "category_aging" then AgedKey(deadline, CategoryCostOf())
    else if policy == "tail_risk_gate" then AgedKey(deadline, (item: WorkItem) => TailRiskCostScore(item, 0.35))
    else if policy == "gateway_tail_risk_gate" || policy == "gateway_gate" then gateway
    else if policy == "deadline_guard" then DeadlineGuardKey(deadline)
    else ArrivalKey()
  }

  predicate HasOwnKey(policy: string) {
    policy == "oracle_sjf" || policy == "oracle_aging" || policy == "prompt_len" || policy == "toolaware_rule"
    || policy == "category_cost" || policy == "category_aging" || policy == "tail_risk_gate"
    || policy == "gateway_tail_risk_gate" || policy == "gateway_gate" || policy == "deadline_guard"
  }

  /** How `simulate_queue` selects when no key function is given. */
  function SelectorOf(policy: string, deadline: real, gateway: KeyFn): Selector {
    if policy == "fcfs" then Head else ByKey(PolicyKey(policy, deadline, gateway))
  }

  /** A name without a key of its own simulates first come, first served. */
  lemma UnnamedPolicyIsFcfs(policy: string, deadline: real, gateway: KeyFn, arrivals: seq<Arrival>)
    requires !HasOwnKey(policy) && SortedByTime(arrivals)
    ensures Run(SelectorOf(policy, deadline, gateway), 0.0, arrivals, 0) == InOrder(0.0, arrivals)
  {
    hide Run, InOrder;
    HeadServesInOrder(0.0, arrivals, 0);
    HeadIsEarliestArrival(0.0, arrivals, 0);
  }

  lemma QuotientShrinks(c: real, c': real, d: real, d': real)
    requires 0.0 <= c <= c' && 1.0 <= d' <= d
    ensures c / d <= c' / d'
  {
    var x, y := c / d, c' / d';
    assert y >= 0.0 && y * (d - d') >= 0.0;
    assert (y - x) * d == y * (d - d') + c' - c;
  }

  /** Under an ageing key a request is never passed by one that came no earlier and costs no less. */
  lemma AgeingRespectsCheaperElders(deadline: real, cost: WorkItem -> real, now: real, elder: Arrival, other: Arrival)
    requires elder.time <= other.time <= now
    requires 0.0 <= cost(elder.item) <= cost(other.item)
    ensures !Before(PriorityOf(AgedKey(deadline, cost), now, other), PriorityOf(AgedKey(deadline, cost), now, elder))
  {
    var scale := RMax(deadline, 1.0);
    var d, d' := 1.0 + (now - elder.time) / scale, 1.0 + (now - other.time) / scale;
    assert (now - other.time) / scale >= 0.0;
    assert (now - elder.time) / scale >= (now - other.time) / scale;
    QuotientShrinks(cost(elder.item), cost(other.item), d, d');
    assert PriorityOf(AgedKey(deadline, cost), now, elder) == (cost(elder.item) / d, elder.time);
    assert PriorityOf(AgedKey(deadline, cost), now, other) == (cost(other.item) / d', other.time);
  }

  // ----- the policies by name -----

  /** Smaller, or equal and no later. */
  predicate Leads(c: real, at: real, c': real, at': real) {
    c < c' || (c == c' && at <= at')
  }

  lemma MinimumLeads(key: KeyFn, now: real, pending: seq<Arrival>, j: nat)
    requires j < |pending| && forall item: WorkItem, age: real, at: real :: key(item, age, at).1 == at
    ensures var k := Select(ByKey(key), now, pending);
      var p, q := PriorityOf(key, now, pending[k]), PriorityOf(key, now, pending[j]);
      Leads(p.0, pending[k].time, q.0, pending[j].time)
  {
    var k := FirstMinimum(key, now, pending);
    assert !Before(PriorityOf(key, now, pending[j]), PriorityOf(key, now, pending[k]));
  }

  /** The policies with a fixed cost select a request of least cost, the earliest of them on a tie. */
  lemma NamedCostsAreLeast(policy: string, deadline: real, gateway: KeyFn, now: real, pending: seq<Arrival>, j: nat)
    requires j < |pending|
    ensures var x, y := pending[Select(SelectorOf(policy, deadline, gateway), now, pending)], pending[j];
      && (policy == "oracle_sjf" ==> Leads(ServiceTime(x.item), x.time, ServiceTime(y.item), y.time))
      && (policy == "prompt_len" ==> Leads(x.item.promptProxy as real, x.time, y.item.promptProxy as real, y.time))
      && (policy == "toolaware_rule" ==> Leads(ToolawareRuleScore(x.item), x.time, ToolawareRuleScore(y.item), y.time))
      && (policy == "category_cost" ==>
            Leads(CategoryCost(x.item.kind, x.item.category), x.time, CategoryCost(y.item.kind, y.item.category), y.time))
  {
    hide ServiceTime, CategoryCost, ToolawareRuleScore;
    if policy == "oracle_sjf" || policy == "prompt_len" || policy == "toolaware_rule" || policy == "category_cost" {
      MinimumLeads(PolicyKey(policy, deadline, gateway), now, pending, j);
    }
  }

  lemma AgedQuotients(c: real, d: real, age: real, age': real, scale: real)
    requires age >= 0.0 && age' >= 0.0 && scale > 0.0
    ensures 1.0 + age / scale > 0.0 && 1.0 + age' / scale > 0.0
    ensures c / (1.0 + age / scale) < d / (1.0 + age' / scale) <==> c * (scale + age') < d * (scale + age)
    ensures c / (1.0 + age / scale) == d / (1.0 + age' / scale) <==> c * (scale + age') == d * (scale + age)
  {
    AgeOverScale(age, scale);
    AgeOverScale(age', scale);
    var a, b := 1.0 + age / scale, 1.0 + age' / scale;
    QuotientsCompare(c, a, d, b);
    ScaledByBoth(c, b, scale, scale + age');
    ScaledByBoth(d, a, scale, scale + age);
    ScaleCompare(c * b, d * a, scale);
  }

  lemma AgeOverScale(age: real, scale: real)
    requires age >= 0.0 && scale > 0.0
    ensures 1.0 + age / scale >= 1.0
    ensures (1.0 + age / scale) * scale == scale + age
  {
    var share := age / scale;
    assert share * scale == age;
  }

  lemma ScaledByBoth(c: real, a: real, d: real, s: real)
    requires a * d == s
    ensures c * a * d == c * s
  {
  }

  lemma AgedPriority(deadline: real, cost: WorkItem -> real, now: real, x: Arrival)
    requires x.time <= now
    ensures 1.0 + (now - x.time) / RMax(deadline, 1.0) >= 1.0
    ensures PriorityOf(AgedKey(deadline, cost), now, x) == (cost(x.item) / (1.0 + (now - x.time) / RMax(deadline, 1.0)), x.time)
  {
    AgeOverScale(now - x.time, RMax(deadline, 1.0));
  }

  /** Two costs, weighted with the deadline and the age of the other's request; ties by arrival. */
  predicate LeadsAged(deadline: real, now: real, c: real, at: real, c': real, at': real) {
    var scale := RMax(deadline, 1.0);
    Leads(c * (scale + (now - at')), at, c' * (scale + (now - at)), at')
  }

  lemma AgedKeyTies(deadline: real, cost: WorkItem -> real)
    ensures forall item: WorkItem, age: real, at: real :: AgedKey(deadline, cost)(item, age, at).1 == at
  {
  }

  lemma AgedLeads(deadline: real, cost: WorkItem -> real, now: real, x: Arrival, y: Arrival)
    requires x.time <= now && y.time <= now
    ensures var key := AgedKey(deadline, cost);
      Leads(PriorityOf(key, now, x).0, x.time, PriorityOf(key, now, y).0, y.time)
      <==> LeadsAged(deadline, now, cost(x.item), x.time, cost(y.item), y.time)
  {
    AgedPriority(deadline, cost, now, x);
    AgedPriority(deadline, cost, now, y);
    hide AgedKey, PriorityOf;
    AgedQuotients(cost(x.item), cost(y.item), now - x.time, now - y.time, RMax(deadline, 1.0));
  }

  /** The request selected under an ageing key leads every other one. */
  lemma AgedCostsLead(deadline: real, cost: WorkItem -> real, now: real, pending: seq<Arrival>, j: nat)
    requires j < |pending| && Arrived(now, pending, |pending|)
    ensures var x, y := pending[Select(ByKey(AgedKey(deadline, cost)), now, pending)], pending[j];
      LeadsAged(deadline, now, cost(x.item), x.time, cost(y.item), y.time)
  {
    hide AgedKey, PriorityOf, Select, FirstMinimum, Leads, LeadsAged;
    var key := AgedKey(deadline, cost);
    AgedKeyTies(deadline, cost);
    MinimumLeads(key, now, pending, j);
    AgedLeads(deadline, cost, now, pending[Select(ByKey(key), now, pending)], pending[j]);
  }

  /** The ageing policies by name, on requests that have arrived. */
  lemma NamedAgeingLeads(policy: string, deadline: real, gateway: KeyFn, now: real, pending: seq<Arrival>, j: nat)
    requires j < |pending| && Arrived(now, pending, |pending|)
    ensures var x, y := pending[Select(SelectorOf(policy, deadline, gateway), now, pending)], pending[j];
      && (policy == "oracle_aging" ==>
            LeadsAged(deadline, now, ServiceTime(x.item), x.time, ServiceTime(y.item), y.time))
      && (policy == "category_aging" ==>
            LeadsAged(deadline, now, CategoryCost(x.item.kind, x.item.category), x.time,
                      CategoryCost(y.item.kind, y.item.category), y.time))
      && (policy == "tail_risk_gate" ==>
            LeadsAged(deadline, now, TailRiskCostScore(x.item, 0.35), x.time, TailRiskCostScore(y.item, 0.35), y.time))
  {
    hide ServiceTime, CategoryCost, TailRiskCostScore, AgedKey, LeadsAged, Select, FirstMinimum;
    if policy == "oracle_aging" {
      AgedCostsLead(deadline, (item: WorkItem) => ServiceTime(item), now, pending, j);
    } else if policy == "category_aging" {
      AgedCostsLead(deadline, CategoryCostOf(), now, pending, j);
    } else if policy == "tail_risk_gate" {
      AgedCostsLead(deadline, (item: WorkItem) => TailRiskCostScore(item, 0.35), now, pending, j);
    }
  }

  /** A cost, weighted with the other's age over `scale`, before another; ties by arrival. */
  predicate WeightedBefore(c: real, age: real, at: real, c': real, age': real, at': real, scale: real) {
    c * (scale + age') < c' * (scale + age) || (c * (scale + age') == c' * (scale + age) && at < at')
  }

  lemma QuotientsBefore(p: real, c: real, age: real, at: real, q: real, c': real, age': real, at': real, scale: real)
    requires age >= 0.0 && age' >= 0.0 && scale > 0.0
    requires 1.0 + age / scale > 0.0 && p == c / (1.0 + age / scale)
    requires 1.0 + age' / scale > 0.0 && q == c' / (1.0 + age' / scale)
    ensures Before((p, at), (q, at')) <==> WeightedBefore(c, age, at, c', age', at', scale)
  {
    AgedQuotients(c, c', age, age', scale);
  }

  lemma CandidateCostIsQuotient(deadline: real, tailWeight: real, agingWeight: real, item: WorkItem, age: real)
    requires tailWeight >= 0.0 && agingWeight >= 0.0 && age >= 0.0
    ensures agingWeight * age >= 0.0 && CandidateCost(deadline, tailWeight, agingWeight, item, age) >= 0.0
    ensures 1.0 + agingWeight * age / RMax(deadline, 1.0) > 0.0
    ensures CandidateCost(deadline, tailWeight, agingWeight, item, age)
      == TailRiskCostScore(item, tailWeight) / (1.0 + agingWeight * age / RMax(deadline, 1.0))
  {
    hide TailRiskCostScore;
    assert agingWeight * age >= 0.0;
    CandidateCostIsNonNegative(deadline, tailWeight, agingWeight, item, age);
  }

  lemma CandidatePriority(deadline: real, tailWeight: real, agingWeight: real, now: real, x: Arrival)
    requires x.time <= now
    ensures PriorityOf(GuardedCandidateKey(deadline, tailWeight, agingWeight), now, x)
      == (if now - x.time >= deadline then -GUARD_OFFSET + x.time
          else CandidateCost(deadline, tailWeight, agingWeight, x.item, now - x.time), x.time)
  {
    hide CandidateCost;
    assert RMax(0.0, now - x.time) == now - x.time;
  }

  /** Unexpired requests of these ages: risk cost, weighted with the deadline and the ageing weight times the other's age. */
  predicate CandidateBefore(
      deadline: real, tailWeight: real, agingWeight: real, item: WorkItem, age: real, at: real, item': WorkItem, age': real, at': real)
  {
    WeightedBefore(TailRiskCostScore(item, tailWeight), agingWeight * age, at,
                   TailRiskCostScore(item', tailWeight), agingWeight * age', at', RMax(deadline, 1.0))
  }

  lemma UnexpiredOrder(
      deadline: real, tailWeight: real, agingWeight: real, item: WorkItem, age: real, at: real, item': WorkItem, age': real, at': real)
    requires tailWeight >= 0.0 && agingWeight >= 0.0 && age >= 0.0 && age' >= 0.0
    ensures CandidateCost(deadline, tailWeight, agingWeight, item, age) >= 0.0
    ensures CandidateCost(deadline, tailWeight, agingWeight, item', age') >= 0.0
    ensures Before((CandidateCost(deadline, tailWeight, agingWeight, item, age), at),
                   (CandidateCost(deadline, tailWeight, agingWeight, item', age'), at'))
      <==> CandidateBefore(deadline, tailWeight, agingWeight, item, age, at, item', age', at')
  {
    hide TailRiskCostScore, WeightedBefore, CandidateCost;
    CandidateCostIsQuotient(deadline, tailWeight, agingWeight, item, age);
    CandidateCostIsQuotient(deadline, tailWeight, agingWeight, item', age');
    QuotientsBefore(
      CandidateCost(deadline, tailWeight, agingWeight, item, age), TailRiskCostScore(item, tailWeight), agingWeight * age, at,
      CandidateCost(deadline, tailWeight, agingWeight, item', age'), TailRiskCostScore(item', tailWeight), agingWeight * age', at',
      RMax(deadline, 1.0));
  }

  /**
   A guarded sweep candidate. An expired request goes before every unexpired one and, by
   arrival, before the expired ones behind it; unexpired ones are ordered by their aged
   risk cost.
   */
  lemma CandidateOrder(deadline: real, tailWeight: real, agingWeight: real, now: real, x: Arrival, y: Arrival)
    requires tailWeight >= 0.0 && agingWeight >= 0.0
    requires x.time <= now && y.time <= now && x.time < GUARD_OFFSET
    ensures var key := GuardedCandidateKey(deadline, tailWeight, agingWeight);
      var p, q := PriorityOf(key, now, x), PriorityOf(key, now, y);
      var a, b := now - x.time, now - y.time;
      && (a >= deadline > b ==> Before(p, q))
      && (a >= deadline && b >= deadline ==> (Before(p, q) <==> x.time < y.time))
      && (a < deadline && b < deadline ==>
            (Before(p, q) <==> CandidateBefore(deadline, tailWeight, agingWeight, x.item, a, x.time, y.item, b, y.time)))
  {
    hide CandidateBefore, GuardedCandidateKey, PriorityOf, CandidateCost;
    CandidatePriority(deadline, tailWeight, agingWeight, now, x);
    CandidatePriority(deadline, tailWeight, agingWeight, now, y);
    UnexpiredOrder(deadline, tailWeight, agingWeight, x.item, now - x.time, x.time, y.item, now - y.time, y.time);
  }

  /** `oracle_sjf`, by name: no other policy has less total wait on a backlog. */
  lemma OracleSjfIsOptimal(deadline: real, gateway: KeyFn, sel: Selector, now: real, pending: seq<Arrival>)
    requires Arrived(now, pending, |pending|)
    ensures TotalWait(Run(SelectorOf("oracle_sjf", deadline, gateway), now, pending, |pending|))
            <= TotalWait(Run(sel, now, pending, |pending|))
  {
    hide Run, TotalWait, ServiceTime;
    ShortestFirstBeatsEveryPolicy(sel, now, pending);
  }

  /** `deadline_guard`, by name: the bounded wait over a whole simulation. */
  lemma NamedGuardBoundsWait(deadline: real, gateway: KeyFn, longest: real, arrivals: seq<Arrival>, i: nat)
    requires SortedByTime(arrivals) && i < |arrivals|
    requires deadline >= 0.0 && 0.0 <= arrivals[i].time <= 1000000090.0
    requires forall j :: 0 <= j < |arrivals| ==> ServiceTime(arrivals[j].item) <= longest
    ensures var sel := SelectorOf("deadline_guard", deadline, gateway);
      && Served(arrivals[i], StartOf(sel, 0.0, arrivals, 0, i)) in Run(sel, 0.0, arrivals, 0)
      && StartOf(sel, 0.0, arrivals, 0, i) - arrivals[i].time
         <= deadline + longest + ExpiryBacklog(sel, 0.0, arrivals, 0, i, deadline)
  {
    hide Run, StartOf, ExpiryBacklog, ServiceTime;
    assert SelectorOf("deadline_guard", deadline, gateway) == ByKey(DeadlineGuardKey(deadline));
    DeadlineGuardBoundsWait(deadline, longest, arrivals, i);
  }
}
