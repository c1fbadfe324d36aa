/** What the key-sorted policies promise of the queue, in terms of the requests alone: no keys, no divisions. */
module PolicyOrders {
  import opened Orders
  import opened Sorting
  import opened Policies
  import Workload

  /** Came no later; ties by id. */
  predicate NoLater(x: RequestContext, y: RequestContext) {
    x.arrival < y.arrival || (x.arrival == y.arrival && StringLe(x.requestId, y.requestId))
  }

  lemma SortedQueue(waiting: seq<RequestContext>, policy: Policy, now: real, config: PolicyConfig, i: nat, j: nat)
    requires config.deadlineMs > 0.0 && policy != GatedRuleC
    requires policy == PromptSjf ==> forall k :: 0 <= k < |waiting| ==> waiting[k].promptTokenCount > 0
    requires i < j < |OrderWaiting(waiting, policy, now, config)|
    ensures var r := OrderWaiting(waiting, policy, now, config);
      var s, t := PolicyScore(r[i], policy, now, |waiting|, config), PolicyScore(r[j], policy, now, |waiting|, config);
      s < t || (s == t && NoLater(r[i], r[j]))
  {
    hide PolicyScore, StringLe;
    var key := PolicyKey(policy, now, |waiting|, config);
    SortIsSorted(key, waiting);
    var r := OrderWaiting(waiting, policy, now, config);
    assert KeyLe(key(r[i]), key(r[j]));
  }

  /** `fcfs`: by arrival, ties by id. */
  lemma FcfsOrders(waiting: seq<RequestContext>, policy: Policy, now: real, config: PolicyConfig, i: nat, j: nat)
    requires config.deadlineMs > 0.0 && (policy == Fcfs || policy == PolicyFcfs)
    requires i < j < |OrderWaiting(waiting, policy, now, config)|
    ensures var r := OrderWaiting(waiting, policy, now, config); NoLater(r[i], r[j])
  {
    hide OrderWaiting, StringLe;
    SortedQueue(waiting, policy, now, config, i, j);
  }

  /** `prompt_sjf`: by prompt tokens, ties as in `fcfs`; one request without a count turns all of it into `fcfs`. */
  lemma PromptLengthOrders(waiting: seq<RequestContext>, now: real, config: PolicyConfig, i: nat, j: nat)
    requires config.deadlineMs > 0.0
    requires i < j < |OrderWaiting(waiting, PromptSjf, now, config)|
    ensures var r := OrderWaiting(waiting, PromptSjf, now, config);
      if exists k :: 0 <= k < |waiting| && waiting[k].promptTokenCount == 0 then NoLater(r[i], r[j])
      else
        || r[i].promptTokenCount < r[j].promptTokenCount
        || (r[i].promptTokenCount == r[j].promptTokenCount && NoLater(r[i], r[j]))
  {
    hide StringLe;
    if exists k :: 0 <= k < |waiting| && waiting[k].promptTokenCount == 0 {
      SortIsSorted(FcfsKey, waiting);
      var r := OrderWaiting(waiting, PromptSjf, now, config);
      assert r == Sort(FcfsKey, waiting);
      assert KeyLe(FcfsKey(r[i]), FcfsKey(r[j]));
    } else {
      SortedQueue(waiting, PromptSjf, now, config, i, j);
    }
  }

  // ----- the ageing scores -----

  /** How long a request has waited, in milliseconds; nothing for one that is still to come. */
  function Waited(x: RequestContext, now: real): real {
    if now < x.arrival then 0.0 else (now - x.arrival) * 1000.0
  }

  /** What the ranker's cost differs by, over the requests behind, exceeds the latency. */
  predicate Gains(cost: real, predicted: real, depth: nat, latency: real) {
    latency < (cost - predicted) * (depth as real - 1.0) || latency < (predicted - cost) * (depth as real - 1.0)
  }

  /** The ranker is worth asking: it is trusted, and what it can gain over the queue exceeds what asking it cost. */
  predicate WorthRanking(x: RequestContext, depth: nat, config: PolicyConfig) {
    && !x.prediction.ood && config.confidenceThreshold <= x.prediction.confidence && depth > 1
    && Gains(Workload.CategoryCost(x.kind, x.category), LtrCost(x, config), depth, x.prediction.latencyMs)
  }

  predicate Ages(policy: Policy) { policy == TailSafe || policy == LtrAging || policy == GatedHybrid }

  /** Whether the ranker's score, and not the category, decides what a request costs. */
  predicate Ranked(policy: Policy, x: RequestContext, depth: nat, config: PolicyConfig) {
    policy == LtrAging || (policy == GatedHybrid && WorthRanking(x, depth, config))
  }

  function Cost(policy: Policy, x: RequestContext, depth: nat, config: PolicyConfig): real {
    if Ranked(policy, x, depth, config) then x.prediction.score * config.ltrScale
    else
      var cost, risk := Workload.CategoryCost(x.kind, x.category), Workload.TailRiskMultiplier(x.kind, x.category);
      cost + cost * config.tailWeight * risk
  }

  lemma ScoreIsAgedCost(policy: Policy, x: RequestContext, now: real, depth: nat, config: PolicyConfig)
    requires Ages(policy) && config.deadlineMs > 0.0
    ensures AgeDiscount(x, now, config) > 0.0
    ensures PolicyScore(x, policy, now, depth, config) == Cost(policy, x, depth, config) / AgeDiscount(x, now, config)
  {
    hide AgeDiscount;
    if policy == GatedHybrid { SameOpportunity(x, depth, config); }
    hide HasLtrOpportunity, WorthRanking, Eligible;
    TailCost(x, config);
  }

  lemma TailCost(x: RequestContext, config: PolicyConfig)
    ensures var cost, risk := Workload.CategoryCost(x.kind, x.category), Workload.TailRiskMultiplier(x.kind, x.category);
      TailSafeCost(x, config) == cost + cost * config.tailWeight * risk
  {
    hide Workload.CategoryCost, Workload.TailRiskMultiplier;
  }

  lemma SameOpportunity(x: RequestContext, depth: nat, config: PolicyConfig)
    ensures Eligible(x, config) && HasLtrOpportunity(x, depth, config) <==> WorthRanking(x, depth, config)
  {
    hide Workload.CategoryCost, Abs, Gains, LtrCost;
    if depth > 1 {
      WiderGap(Workload.CategoryCost(x.kind, x.category), LtrCost(x, config), depth, x.prediction.latencyMs);
    }
  }

  lemma WiderGap(cost: real, predicted: real, depth: nat, latency: real)
    requires depth > 1
    ensures Abs(cost - predicted) * (depth - 1) as real > latency <==> Gains(cost, predicted, depth, latency)
  {
    var gap, d := cost - predicted, (depth - 1) as real;
    assert depth as real - 1.0 == d;
    assert predicted - cost == -gap;
    SignedProducts(gap, d);
  }

  lemma SignedProducts(gap: real, d: real)
    requires d > 0.0
    ensures gap >= 0.0 ==> -gap * d <= gap * d
    ensures gap < 0.0 ==> gap * d <= -gap * d
  {
    if gap >= 0.0 {
      assert gap * d >= 0.0;
    } else {
      assert -gap * d >= 0.0;
    }
  }

  lemma DiscountIsAge(x: RequestContext, now: real, config: PolicyConfig)
    requires config.deadlineMs > 0.0
    ensures AgeDiscount(x, now, config) * config.deadlineMs == config.deadlineMs + Waited(x, now)
  {
    var age := AgeMs(x, now);
    assert age == Waited(x, now);
    hide AgeMs;
    var share := age / config.deadlineMs;
    assert share * config.deadlineMs == age;
    assert (1.0 + share) * config.deadlineMs == config.deadlineMs + age;
  }

  lemma ScaledProduct(c: real, a: real, d: real, s: real)
    requires a * d == s
    ensures c * a * d == c * s
  {
  }

  /**
   The ageing policies, without their divisions. A request stands ahead of another if its
   cost, weighted with the deadline and what the other has waited, is the smaller one;
   ties as in `fcfs`. The cost is the ranker's under `ltr_aging`, that of the category,
   raised by its risk, under `tail_safe`, and under `gated_hybrid` the ranker's for
   exactly the requests for which it is trusted and worth its latency.
   */
  lemma AgeingOrders(waiting: seq<RequestContext>, policy: Policy, now: real, config: PolicyConfig, i: nat, j: nat)
    requires Ages(policy) && config.deadlineMs > 0.0
    requires i < j < |OrderWaiting(waiting, policy, now, config)|
    ensures var r := OrderWaiting(waiting, policy, now, config);
      var x, y := r[i], r[j];
      var s := Cost(policy, x, |waiting|, config) * (config.deadlineMs + Waited(y, now));
      var t := Cost(policy, y, |waiting|, config) * (config.deadlineMs + Waited(x, now));
      s < t || (s == t && NoLater(x, y))
  {
    hide PolicyScore, OrderWaiting, Cost, Waited, AgeDiscount, NoLater;
    var r := OrderWaiting(waiting, policy, now, config);
    var x, y, n := r[i], r[j], |waiting|;
    SortedQueue(waiting, policy, now, config, i, j);
    ScoreIsAgedCost(policy, x, now, n, config);
    ScoreIsAgedCost(policy, y, now, n, config);
    var c, d := Cost(policy, x, n, config), Cost(policy, y, n, config);
    var a, b := AgeDiscount(x, now, config), AgeDiscount(y, now, config);
    QuotientsCompare(c, a, d, b);
    DiscountIsAge(x, now, config);
    DiscountIsAge(y, now, config);
    ScaledProduct(c, b, config.deadlineMs, config.deadlineMs + Waited(y, now));
    ScaledProduct(d, a, config.deadlineMs, config.deadlineMs + Waited(x, now));
    ScaleCompare(c * b, d * a, config.deadlineMs);
  }

  /** Trust, at its limits: the fallback is never trusted, a sure prediction in distribution always, and the threshold itself suffices. */
  lemma TrustLimits(x: RequestContext, config: PolicyConfig)
    requires 0.0 < config.confidenceThreshold <= 1.0
    ensures x.prediction == Prediction(1.0, 0.0, true, x.prediction.latencyMs) ==> !Eligible(x, config)
    ensures x.prediction.confidence == config.confidenceThreshold && !x.prediction.ood ==> Eligible(x, config)
    ensures Eligible(x, DEFAULT_CONFIG) <==> !x.prediction.ood && 0.5 <= x.prediction.confidence
  {
  }
}
