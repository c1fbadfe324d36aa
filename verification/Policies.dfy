/** The queue-ordering policies shared by the tests and the vLLM adapter. */
module Policies {
  import opened Orders
  import opened Sorting
  import Workload

  /** A predictor's answer; lower scores schedule earlier. */
  datatype Prediction = Prediction(score: real, confidence: real, ood: bool, latencyMs: real) {
    /** What `__post_init__` accepts. */
    predicate Valid() {
      0.0 <= score <= 1.0 && 0.0 <= confidence <= 1.0 && latencyMs >= 0.0
    }
  }

  datatype RequestContext = RequestContext(
    requestId: string,
    arrival: real,
    prediction: Prediction,
    kind: string,
    category: string,
    promptTokenCount: nat)

  datatype PolicyConfig = PolicyConfig(
    deadlineMs: real,
    tailWeight: real,
    confidenceThreshold: real,
    ltrScale: real)

  const DEFAULT_CONFIG := PolicyConfig(2000.0, 0.35, 0.5, 400.0)

  datatype Policy = Fcfs | PolicyFcfs | PureLtr | TailSafe | GatedHybrid | GatedRuleC | PromptSjf | LtrAging

  // ----- scores -----

  function AgeMs(item: RequestContext, now: real): (age: real)
    ensures age >= 0.0
  {
    RMax(0.0, (now - item.arrival) * 1000.0)
  }

  /** The divisor that ages a score. */
  function AgeDiscount(item: RequestContext, now: real, config: PolicyConfig): (d: real)
    requires config.deadlineMs > 0.0
    ensures d >= 1.0
  {
    assert AgeMs(item, now) / config.deadlineMs >= 0.0;
    1.0 + AgeMs(item, now) / config.deadlineMs
  }

  function TailSafeCost(item: RequestContext, config: PolicyConfig): real {
    Workload.CategoryCost(item.kind, item.category)
    * (1.0 + config.tailWeight * Workload.TailRiskMultiplier(item.kind, item.category))
  }

  function LtrCost(item: RequestContext, config: PolicyConfig): real {
    item.prediction.score * config.ltrScale
  }

  function TailSafeScore(item: RequestContext, now: real, config: PolicyConfig): real
    requires config.deadlineMs > 0.0
  {
    TailSafeCost(item, config) / AgeDiscount(item, now, config)
  }

  function LtrScore(item: RequestContext, now: real, config: PolicyConfig): real
    requires config.deadlineMs > 0.0
  {
    LtrCost(item, config) / AgeDiscount(item, now, config)
  }

  function Abs(x: real): real { if x < 0.0 then -x else x }

  predicate HasLtrOpportunity(item: RequestContext, queueDepth: nat, config: PolicyConfig) {
    queueDepth >= 2
    && Abs(Workload.CategoryCost(item.kind, item.category) - LtrCost(item, config)) * (queueDepth - 1) as real
       > item.prediction.latencyMs
  }

  /** Whether the reliability gate vouches for this request's prediction. */
  predicate Eligible(item: RequestContext, config: PolicyConfig) {
    !item.prediction.ood && item.prediction.confidence >= config.confidenceThreshold
  }

  function GatedScore(item: RequestContext, now: real, queueDepth: nat, config: PolicyConfig): real
    requires config.deadlineMs > 0.0
  {
    if Eligible(item, config) && HasLtrOpportunity(item, queueDepth, config)
    then LtrScore(item, now, config)
    else TailSafeScore(item, now, config)
  }

  // ----- orders -----

  /** First come, first served; ties by request id. */
  function FcfsKey(item: RequestContext): Key { Key(item.arrival, 0.0, item.requestId) }

  /** The ranker's order: score, then arrival, then request id. */
  function LtrKey(item: RequestContext): Key { Key(item.prediction.score, item.arrival, item.requestId) }

  function PolicyScore(item: RequestContext, policy: Policy, now: real, queueDepth: nat, config: PolicyConfig): real
    requires config.deadlineMs > 0.0
  {
    match policy
    case Fcfs => item.arrival
    case PolicyFcfs => item.arrival
    case PureLtr => item.prediction.score
    case TailSafe => TailSafeScore(item, now, config)
    case GatedHybrid => GatedScore(item, now, queueDepth, config)
    case PromptSjf => item.promptTokenCount as real
    case LtrAging => LtrScore(item, now, config)
    case GatedRuleC => LtrScore(item, now, config)
  }

  /** The sort key of the key-sorted policies. */
  function PolicyKey(policy: Policy, now: real, queueDepth: nat, config: PolicyConfig): RequestContext -> Key
    requires config.deadlineMs > 0.0
  {
    (item: RequestContext) => Key(PolicyScore(item, policy, now, queueDepth, config), item.arrival, item.requestId)
  }

  /** The requests the gate vouches for, in order. */
  function TrustedOf(s: seq<RequestContext>, config: PolicyConfig): (r: seq<RequestContext>)
    ensures |r| <= |s|
  {
    if s == [] then []
    else
      var n := |s| - 1;
      TrustedOf(s[..n], config) + if Eligible(s[n], config) then [s[n]] else []
  }

  lemma {:induction false} TrustedOfMonotone(s: seq<RequestContext>, config: PolicyConfig, i: nat, j: nat)
    requires i <= j <= |s|
    ensures TrustedOf(s[..i], config) <= TrustedOf(s[..j], config)
    decreases j
  {
    if i < j {
      TrustedOfMonotone(s, config, i, j - 1);
      assert s[..j][..j - 1] == s[..j - 1];
    }
  }

  /** The trusted request at position `i` is number `|TrustedOf(s[..i])|` among the trusted ones. */
  lemma TrustedRank(s: seq<RequestContext>, config: PolicyConfig, i: nat)
    requires i < |s| && Eligible(s[i], config)
    ensures |TrustedOf(s[..i], config)| < |TrustedOf(s, config)|
    ensures TrustedOf(s, config)[|TrustedOf(s[..i], config)|] == s[i]
  {
    assert s[..i + 1][..i] == s[..i];
    TrustedOfMonotone(s, config, i + 1, |s|);
    assert s[..|s|] == s;
  }

  /** Trusted requests taken from `trusted` in turn; abstained ones stay where they are. */
  function Fill(base: seq<RequestContext>, trusted: seq<RequestContext>, config: PolicyConfig): (r: seq<RequestContext>)
    requires |trusted| == |TrustedOf(base, config)|
    ensures |r| == |base|
  {
    seq(|base|, i requires 0 <= i < |base| =>
      if Eligible(base[i], config) then
        TrustedRank(base, config, i);
        trusted[|TrustedOf(base[..i], config)|]
      else base[i])
  }

  /** What `gated_rule_c` returns. */
  function RuleC(waiting: seq<RequestContext>, config: PolicyConfig): (r: seq<RequestContext>)
    ensures |r| == |waiting|
  {
    var fcfs := Sort(FcfsKey, waiting);
    Fill(fcfs, Sort(LtrKey, TrustedOf(fcfs, config)), config)
  }

  function OrderWaiting(waiting: seq<RequestContext>, policy: Policy, now: real, config: PolicyConfig): seq<RequestContext>
    requires config.deadlineMs > 0.0
  {
    if policy == GatedRuleC then RuleC(waiting, config)
    else if policy == PromptSjf && exists i :: 0 <= i < |waiting| && waiting[i].promptTokenCount <= 0 then
      Sort(FcfsKey, waiting)
    else Sort(PolicyKey(policy, now, |waiting|, config), waiting)
  }

  // ----- `_slot_preserving_rule_c` -----

  /** Slot `r` of the list is where the trusted request number `r` stands. */
  ghost predicate SlotsOf(base: seq<RequestContext>, config: PolicyConfig, slots: seq<nat>) {
    && |slots| == |TrustedOf(base, config)|
    && (forall r :: 0 <= r < |slots| ==> slots[r] < |base| && Eligible(base[slots[r]], config))
    && (forall r :: 0 <= r < |slots| ==> |TrustedOf(base[..slots[r]], config)| == r)
    && (forall i :: 0 <= i < |base| && Eligible(base[i], config) ==> i in slots)
  }

  method TrustedSlots(fcfs: seq<RequestContext>, config: PolicyConfig) returns (slots: seq<nat>)
    ensures SlotsOf(fcfs, config, slots)
  {
    hide SlotsOf, Eligible;
    slots := [];
    var index := 0;
    SlotsStart(fcfs, config);
    while index < |fcfs|
      invariant index <= |fcfs|
      invariant SlotsOf(fcfs[..index], config, slots)
    {
      SlotsExtend(fcfs, config, index, slots);
      if Eligible(fcfs[index], config) {
        slots := slots + [index];
      }
      index := index + 1;
    }
    assert fcfs[..|fcfs|] == fcfs;
  }

  lemma SlotsStart(fcfs: seq<RequestContext>, config: PolicyConfig)
    ensures SlotsOf(fcfs[..0], config, [])
  {
  }

  lemma SlotsExtend(fcfs: seq<RequestContext>, config: PolicyConfig, index: nat, slots: seq<nat>)
    requires index < |fcfs| && SlotsOf(fcfs[..index], config, slots)
    ensures SlotsOf(fcfs[..index + 1], config, if Eligible(fcfs[index], config) then slots + [index] else slots)
  {
    hide SlotsOf, Eligible;
    assert fcfs[..index + 1] == fcfs[..index] + [fcfs[index]];
    OneMoreSlot(fcfs[..index], fcfs[index], config, slots);
  }

  lemma OneMoreSlot(base: seq<RequestContext>, x: RequestContext, config: PolicyConfig, slots: seq<nat>)
    requires SlotsOf(base, config, slots)
    ensures SlotsOf(base + [x], config, if Eligible(x, config) then slots + [|base|] else slots)
  {
    hide Eligible;
    var longer := base + [x];
    assert longer[..|base|] == base && longer[|base|] == x;
    assert TrustedOf(longer, config) == TrustedOf(base, config) + if Eligible(x, config) then [x] else [];
    hide TrustedOf;
    PrefixesKept(base, x);
    assert forall i :: 0 <= i < |base| ==> longer[i] == base[i];
    if Eligible(x, config) {
      var more := slots + [|base|];
      assert forall r :: 0 <= r < |slots| ==> more[r] == slots[r];
      assert more[|slots|] == |base|;
      assert forall i :: i in slots ==> i in more;
    }
  }

  lemma PrefixesKept(base: seq<RequestContext>, x: RequestContext)
    ensures forall i :: 0 <= i <= |base| ==> (base + [x])[..i] == base[..i]
  {
  }

  lemma FillInstead(base: seq<RequestContext>, trusted: seq<RequestContext>, config: PolicyConfig)
    requires |trusted| == |TrustedOf(base, config)|
    requires trusted == TrustedOf(base, config)
    ensures Fill(base, trusted, config) == base
  {
    forall i | 0 <= i < |base| ensures Fill(base, trusted, config)[i] == base[i] {
      if Eligible(base[i], config) { TrustedRank(base, config, i); }
    }
  }

  /** With fewer than two trusted requests there is nothing to permute. */
  lemma FewTrusted(fcfs: seq<RequestContext>, config: PolicyConfig)
    requires |TrustedOf(fcfs, config)| < 2
    ensures Fill(fcfs, Sort(LtrKey, TrustedOf(fcfs, config)), config) == fcfs
  {
    var trusted := TrustedOf(fcfs, config);
    assert SortedBy(LtrKey, trusted);
    SortOfSorted(LtrKey, trusted);
    FillInstead(fcfs, trusted, config);
  }

  method SlotPreservingRuleC(waiting: seq<RequestContext>, config: PolicyConfig) returns (result: seq<RequestContext>)
    ensures result == RuleC(waiting, config)
  {
    hide Sort, TrustedOf, Eligible;
    var fcfs := Sort(FcfsKey, waiting);
    var slots := TrustedSlots(fcfs, config);
    if |slots| < 2 {
      FewTrusted(fcfs, config);
      return fcfs;
    }
    var trusted := TrustedAt(fcfs, config, slots);
    var reordered := Sort(LtrKey, trusted);
    ghost var target := Fill(fcfs, reordered, config);
    result := fcfs;
    var r := 0;
    while r < |slots|
      invariant r <= |slots| && |result| == |fcfs|
      invariant forall i :: 0 <= i < |fcfs| ==>
        result[i] == (if Eligible(fcfs[i], config) && |TrustedOf(fcfs[..i], config)| < r then target[i] else fcfs[i])
    {
      SlotValue(fcfs, config, slots, reordered, r);
      result := result[slots[r] := reordered[r]];
      r := r + 1;
    }
    RanksBelowCount(fcfs, config);
    assert result == target;
  }

  lemma SlotValue(fcfs: seq<RequestContext>, config: PolicyConfig, slots: seq<nat>, reordered: seq<RequestContext>, r: nat)
    requires SlotsOf(fcfs, config, slots) && |reordered| == |TrustedOf(fcfs, config)| && r < |slots|
    ensures slots[r] < |fcfs|
    ensures Fill(fcfs, reordered, config)[slots[r]] == reordered[r]
    ensures forall i :: 0 <= i < |fcfs| && Eligible(fcfs[i], config) ==>
      (|TrustedOf(fcfs[..i], config)| == r <==> i == slots[r])
  {
    hide Eligible, TrustedOf;
    forall i | 0 <= i < |fcfs| && Eligible(fcfs[i], config)
      ensures |TrustedOf(fcfs[..i], config)| == r <==> i == slots[r]
    {
      assert i in slots;
      var q :| 0 <= q < |slots| && slots[q] == i;
    }
  }

  lemma RanksBelowCount(fcfs: seq<RequestContext>, config: PolicyConfig)
    ensures forall i :: 0 <= i < |fcfs| && Eligible(fcfs[i], config) ==>
      |TrustedOf(fcfs[..i], config)| < |TrustedOf(fcfs, config)|
  {
    forall i | 0 <= i < |fcfs| && Eligible(fcfs[i], config)
      ensures |TrustedOf(fcfs[..i], config)| < |TrustedOf(fcfs, config)|
    {
      TrustedRank(fcfs, config, i);
    }
  }

  /** `(fcfs[index] for index in trusted_slots)`. */
  method TrustedAt(fcfs: seq<RequestContext>, config: PolicyConfig, slots: seq<nat>) returns (trusted: seq<RequestContext>)
    requires SlotsOf(fcfs, config, slots)
    ensures trusted == TrustedOf(fcfs, config)
  {
    hide TrustedOf, Eligible;
    trusted := [];
    var r := 0;
    while r < |slots|
      invariant r <= |slots| == |TrustedOf(fcfs, config)|
      invariant trusted == TrustedOf(fcfs, config)[..r]
    {
      TrustedRank(fcfs, config, slots[r]);
      trusted := trusted + [fcfs[slots[r]]];
      r := r + 1;
    }
  }
}
