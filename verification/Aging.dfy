/**
 What ageing does to an order. `tail_safe` and `ltr_aging` divide a fixed cost by
 `1 + age / deadline`, and so do the simulator's ageing keys.
 */
module Aging {
  import opened Orders
  import opened Sorting
  import opened Policies
  import opened RuleCTheorems

  /** The policies whose score is a fixed cost over the age discount. */
  predicate IsAging(policy: Policy) { policy == TailSafe || policy == LtrAging }

  function BaseCost(policy: Policy, item: RequestContext, config: PolicyConfig): real
    requires IsAging(policy)
  {
    if policy == TailSafe then TailSafeCost(item, config) else LtrCost(item, config)
  }

  /** A configuration whose costs are not negative. */
  ghost predicate ConfigOk(config: PolicyConfig) {
    config.deadlineMs > 0.0 && config.tailWeight >= 0.0 && config.ltrScale >= 0.0
  }

  /** `x` stands before `y` in `s`. */
  ghost predicate Precedes(s: seq<RequestContext>, x: RequestContext, y: RequestContext) {
    exists i, j :: 0 <= i < j < |s| && s[i] == x && s[j] == y
  }

  /** `x` is ahead of `y` by arrival, ties by id. */
  ghost predicate Before(x: RequestContext, y: RequestContext) {
    KeyLe(FcfsKey(x), FcfsKey(y)) && x.requestId != y.requestId
  }

  // ----- two requests -----

  lemma CostsNonNegative(policy: Policy, item: RequestContext, config: PolicyConfig)
    requires IsAging(policy) && ConfigOk(config) && item.prediction.Valid()
    ensures BaseCost(policy, item, config) >= 0.0
  {
    assert config.tailWeight * Workload.TailRiskMultiplier(item.kind, item.category) >= 0.0;
  }

  /**
   The algebra of ageing: if a younger cost is ahead of an older one, it is the
   smaller cost, and it is still ahead after both have aged by the same amount.
   */
  lemma GapOnlyGrows(young: real, aged: real, dYoung: real, dAged: real, more: real)
    requires young >= 0.0 && aged >= 0.0 && 1.0 <= dYoung <= dAged && more >= 0.0
    requires young * dAged < aged * dYoung
    ensures young < aged
    ensures young * (dAged + more) < aged * (dYoung + more)
  {
    if aged <= young {
      ProductOrder(aged, young, dYoung);
      ProductOrder(dYoung, dAged, young);
    }
    assert young < aged;
    ProductOrder(young, aged, more);
  }

  lemma ProductOrder(a: real, b: real, c: real)
    requires a <= b && c >= 0.0
    ensures a * c <= b * c && c * a <= c * b
  {
    assert (b - a) * c >= 0.0;
  }

  /** The discounts of two arrived requests grow by the same amount. */
  lemma DiscountsGrowTogether(x: RequestContext, y: RequestContext, t1: real, t2: real, config: PolicyConfig)
      returns (more: real)
    requires config.deadlineMs > 0.0 && x.arrival <= y.arrival <= t1 <= t2
    ensures more >= 0.0
    ensures AgeDiscount(x, t2, config) == AgeDiscount(x, t1, config) + more
    ensures AgeDiscount(y, t2, config) == AgeDiscount(y, t1, config) + more
    ensures AgeDiscount(y, t1, config) <= AgeDiscount(x, t1, config)
  {
    var d := config.deadlineMs;
    more := (t2 - t1) * 1000.0 / d;
    SumOfQuotients((t1 - x.arrival) * 1000.0, (t2 - t1) * 1000.0, d);
    SumOfQuotients((t1 - y.arrival) * 1000.0, (t2 - t1) * 1000.0, d);
    SumOfQuotients((t1 - y.arrival) * 1000.0, (y.arrival - x.arrival) * 1000.0, d);
  }

  lemma SumOfQuotients(a: real, b: real, d: real)
    requires d > 0.0
    ensures (a + b) / d == a / d + b / d
    ensures b >= 0.0 ==> b / d >= 0.0
  {
    var x, y := a / d, b / d;
    assert x * d == a && y * d == b;
    assert (x + y) * d == a + b;
    var z := (a + b) / d;
    assert z * d == (x + y) * d;
    ScaleCompare(z, x + y, d);
  }

  /** The younger of two waiting requests is ordered first exactly when its discounted cost is smaller. */
  lemma YoungerFirst(policy: Policy, x: RequestContext, y: RequestContext, now: real, depth: nat, config: PolicyConfig)
    requires IsAging(policy) && config.deadlineMs > 0.0 && Before(x, y)
    ensures var key := PolicyKey(policy, now, depth, config);
      !KeyLe(key(x), key(y)) <==>
      BaseCost(policy, y, config) * AgeDiscount(x, now, config) < BaseCost(policy, x, config) * AgeDiscount(y, now, config)
  {
    hide BaseCost, AgeDiscount, StringLe, TailSafeCost, LtrCost;
    QuotientsCompare(BaseCost(policy, y, config), AgeDiscount(y, now, config), BaseCost(policy, x, config), AgeDiscount(x, now, config));
    ScoreIsQuotient(policy, x, now, depth, config);
    ScoreIsQuotient(policy, y, now, depth, config);
  }

  lemma ScoreIsQuotient(policy: Policy, x: RequestContext, now: real, depth: nat, config: PolicyConfig)
    requires IsAging(policy) && config.deadlineMs > 0.0
    ensures PolicyScore(x, policy, now, depth, config) == BaseCost(policy, x, config) / AgeDiscount(x, now, config)
  {
    hide AgeDiscount;
  }

  /** In the sorted queue, one request precedes another exactly when its key is the smaller one. */
  lemma PrecedesBySmallerKey(policy: Policy, waiting: seq<RequestContext>, now: real, config: PolicyConfig, x: RequestContext, y: RequestContext)
    requires IsAging(policy) && config.deadlineMs > 0.0
    requires DistinctIds(waiting) && x in waiting && y in waiting && x != y
    ensures Precedes(OrderWaiting(waiting, policy, now, config), y, x)
      <==> !KeyLe(PolicyKey(policy, now, |waiting|, config)(x), PolicyKey(policy, now, |waiting|, config)(y))
  {
    hide Sort, PolicyScore;
    var key := PolicyKey(policy, now, |waiting|, config);
    var s := Sort(key, waiting);
    SortIsSorted(key, waiting);
    SameElements(s, waiting);
    DistinctIdsPermuted(waiting, s);
    assert x in s && y in s;
    var i :| 0 <= i < |s| && s[i] == x;
    var j :| 0 <= j < |s| && s[j] == y;
    if i < j {
      assert KeyLe(key(x), key(y));
    } else {
      assert Precedes(s, y, x);
      if KeyLe(key(x), key(y)) {
        KeyLeAntisymmetric(key(x), key(y));
      }
    }
  }

  /** The younger request's discounted cost is the smaller one. */
  predicate YoungerAhead(policy: Policy, older: RequestContext, younger: RequestContext, t: real, config: PolicyConfig)
    requires IsAging(policy) && config.deadlineMs > 0.0
  {
    BaseCost(policy, younger, config) * AgeDiscount(older, t, config)
    < BaseCost(policy, older, config) * AgeDiscount(younger, t, config)
  }

  lemma PrecedesIffAhead(
      policy: Policy, waiting: seq<RequestContext>, config: PolicyConfig,
      older: RequestContext, younger: RequestContext, t: real)
    requires IsAging(policy) && config.deadlineMs > 0.0
    requires DistinctIds(waiting) && older in waiting && younger in waiting && Before(older, younger)
    ensures Precedes(OrderWaiting(waiting, policy, t, config), younger, older)
      <==> YoungerAhead(policy, older, younger, t, config)
  {
    hide OrderWaiting, PolicyKey, BaseCost, AgeDiscount;
    PrecedesBySmallerKey(policy, waiting, t, config, older, younger);
    YoungerFirst(policy, older, younger, t, |waiting|, config);
  }

  /** Of two arrived requests, a younger one that is ahead is the cheaper one and stays ahead. */
  lemma ArrivedStaysAhead(
      policy: Policy, config: PolicyConfig, older: RequestContext, younger: RequestContext, t1: real, t2: real)
    requires IsAging(policy) && ConfigOk(config) && Before(older, younger)
    requires older.prediction.Valid() && younger.prediction.Valid() && younger.arrival <= t1 <= t2
    requires YoungerAhead(policy, older, younger, t1, config)
    ensures YoungerAhead(policy, older, younger, t2, config)
    ensures BaseCost(policy, younger, config) < BaseCost(policy, older, config)
  {
    hide BaseCost, AgeDiscount;
    CostsNonNegative(policy, older, config);
    CostsNonNegative(policy, younger, config);
    var more := DiscountsGrowTogether(older, younger, t1, t2, config);
    GapOnlyGrows(BaseCost(policy, younger, config), BaseCost(policy, older, config),
      AgeDiscount(younger, t1, config), AgeDiscount(older, t1, config), more);
  }

  /**
   Single crossing. While the queue does not change, an older request that has
   been passed by a younger one is never put back ahead of it: ageing only ever
   lets younger requests pass, and only those of strictly smaller base cost.
   */
  lemma AgingIsSingleCrossing(
      policy: Policy, waiting: seq<RequestContext>, config: PolicyConfig,
      older: RequestContext, younger: RequestContext, t1: real, t2: real)
    requires IsAging(policy) && ConfigOk(config)
    requires DistinctIds(waiting) && older in waiting && younger in waiting && Before(older, younger)
    requires older.prediction.Valid() && younger.prediction.Valid()
    requires younger.arrival <= t1 <= t2
    requires Precedes(OrderWaiting(waiting, policy, t1, config), younger, older)
    ensures Precedes(OrderWaiting(waiting, policy, t2, config), younger, older)
    ensures BaseCost(policy, younger, config) < BaseCost(policy, older, config)
  {
    hide OrderWaiting, BaseCost, AgeDiscount, YoungerAhead, Precedes;
    PrecedesIffAhead(policy, waiting, config, older, younger, t1);
    PrecedesIffAhead(policy, waiting, config, older, younger, t2);
    ArrivedStaysAhead(policy, config, older, younger, t1, t2);
  }

  /**
   Before the younger request has arrived the pair can cross the other way: its
   age is clipped at zero while the older one's grows.
   */
  lemma CrossingBackBeforeArrival(config: PolicyConfig)
    requires config == DEFAULT_CONFIG
    ensures var older := RequestContext("a", 0.0, Prediction(1.0, 1.0, false, 0.0), "chat", "", 1);
      var younger := RequestContext("b", 10.0, Prediction(0.5, 1.0, false, 0.0), "chat", "", 1);
      && !KeyLe(PolicyKey(LtrAging, 1.0, 2, config)(older), PolicyKey(LtrAging, 1.0, 2, config)(younger))
      && KeyLe(PolicyKey(LtrAging, 4.0, 2, config)(older), PolicyKey(LtrAging, 4.0, 2, config)(younger))
  {
    var older := RequestContext("a", 0.0, Prediction(1.0, 1.0, false, 0.0), "chat", "", 1);
    var younger := RequestContext("b", 10.0, Prediction(0.5, 1.0, false, 0.0), "chat", "", 1);
    YoungerFirst(LtrAging, older, younger, 1.0, 2, config);
    YoungerFirst(LtrAging, older, younger, 4.0, 2, config);
    assert AgeDiscount(older, 1.0, config) == 1.5 && AgeDiscount(younger, 1.0, config) == 1.0;
    assert AgeDiscount(older, 4.0, config) == 3.0 && AgeDiscount(younger, 4.0, config) == 1.0;
    assert BaseCost(LtrAging, older, config) == 400.0 && BaseCost(LtrAging, younger, config) == 200.0;
  }

  // ----- over all times -----

  lemma QuotientOrder(a: real, b: real, d: real)
    requires a <= b && d > 0.0
    ensures a / d <= b / d
  {
    SumOfQuotients(a, b - a, d);
  }

  /** Discounts grow with time, and the older request's is never the smaller one. */
  lemma DiscountOrder(x: RequestContext, y: RequestContext, t1: real, t2: real, config: PolicyConfig)
    requires config.deadlineMs > 0.0 && x.arrival <= y.arrival && t1 <= t2
    ensures AgeDiscount(x, t1, config) <= AgeDiscount(x, t2, config)
    ensures AgeDiscount(y, t1, config) <= AgeDiscount(x, t1, config)
  {
    QuotientOrder(AgeMs(x, t1), AgeMs(x, t2), config.deadlineMs);
    QuotientOrder(AgeMs(y, t1), AgeMs(x, t1), config.deadlineMs);
  }

  lemma NotYetAged(x: RequestContext, t: real, config: PolicyConfig)
    requires config.deadlineMs > 0.0 && t <= x.arrival
    ensures AgeDiscount(x, t, config) == 1.0
  {
    QuotientIsZero(config.deadlineMs);
  }

  lemma QuotientIsZero(d: real)
    requires d > 0.0
    ensures 0.0 / d == 0.0
  {
  }

  lemma AheadStays(
      policy: Policy, config: PolicyConfig, older: RequestContext, younger: RequestContext, t1: real, t2: real)
    requires IsAging(policy) && ConfigOk(config) && Before(older, younger)
    requires older.prediction.Valid() && younger.prediction.Valid() && t1 <= t2
    requires YoungerAhead(policy, older, younger, t1, config)
    requires t1 >= younger.arrival || !CrossesBack(policy, config, older, younger)
    ensures YoungerAhead(policy, older, younger, t2, config)
  {
    hide BaseCost, AgeDiscount;
    var young, aged := BaseCost(policy, younger, config), BaseCost(policy, older, config);
    if t1 >= younger.arrival {
      ArrivedStaysAhead(policy, config, older, younger, t1, t2);
    } else {
      CostsNonNegative(policy, younger, config);
      var arrived := younger.arrival;
      NotYetAged(younger, t1, config);
      NotYetAged(younger, arrived, config);
      DiscountOrder(older, younger, t1, arrived, config);
      ProductOrder(1.0, AgeDiscount(older, t1, config), young);
      assert young < aged;
      if t2 < arrived {
        NotYetAged(younger, t2, config);
        DiscountOrder(older, younger, t2, arrived, config);
        ProductOrder(AgeDiscount(older, t2, config), AgeDiscount(older, arrived, config), young);
      } else {
        ArrivedStaysAhead(policy, config, older, younger, arrived, t2);
      }
    }
  }

  /** The younger request is the cheaper one, but no longer when it arrives, the older one having aged until then. */
  predicate CrossesBack(policy: Policy, config: PolicyConfig, older: RequestContext, younger: RequestContext)
    requires IsAging(policy) && config.deadlineMs > 0.0
  {
    var young, aged := BaseCost(policy, younger, config), BaseCost(policy, older, config);
    young < aged <= young * AgeDiscount(older, younger.arrival, config)
  }

  /**
   Single crossing over all times, arrivals still to come included: a younger request
   once ahead stays ahead if and only if the pair does not cross back by the time the
   younger one arrives.
   */
  lemma AgingCrossesOnceIff(
      policy: Policy, waiting: seq<RequestContext>, config: PolicyConfig, older: RequestContext, younger: RequestContext)
    requires IsAging(policy) && ConfigOk(config)
    requires DistinctIds(waiting) && older in waiting && younger in waiting && Before(older, younger)
    requires older.prediction.Valid() && younger.prediction.Valid()
    ensures (forall t1: real, t2: real ::
        t1 <= t2 && Precedes(OrderWaiting(waiting, policy, t1, config), younger, older) ==>
        Precedes(OrderWaiting(waiting, policy, t2, config), younger, older))
      <==> !CrossesBack(policy, config, older, younger)
  {
    hide OrderWaiting, BaseCost, AgeDiscount, Precedes;
    if CrossesBack(policy, config, older, younger) {
      var t1, t2 := older.arrival, younger.arrival;
      NotYetAged(older, t1, config);
      NotYetAged(younger, t1, config);
      NotYetAged(younger, t2, config);
      PrecedesIffAhead(policy, waiting, config, older, younger, t1);
      PrecedesIffAhead(policy, waiting, config, older, younger, t2);
    } else {
      forall t1: real, t2: real | t1 <= t2 && Precedes(OrderWaiting(waiting, policy, t1, config), younger, older)
        ensures Precedes(OrderWaiting(waiting, policy, t2, config), younger, older)
      {
        PrecedesIffAhead(policy, waiting, config, older, younger, t1);
        PrecedesIffAhead(policy, waiting, config, older, younger, t2);
        AheadStays(policy, config, older, younger, t1, t2);
      }
    }
  }
}
