/** The engine's queue after a reordering, in terms of the engine's own requests and what the adapter has stored for them. */
module SchedulerOrders {
  import opened Orders
  import opened Policies
  import opened PolicyOrders
  import opened SchedulerAdapter
  import Workload

  /** Came no later; ties by id. */
  predicate CameNoLater(x: Request, y: Request) {
    x.arrivalTime < y.arrivalTime || (x.arrivalTime == y.arrivalTime && StringLe(x.requestId, y.requestId))
  }

  /** What a request costs under `tail_safe`. */
  function RaisedCost(x: Request): real {
    var cost := Workload.CategoryCost(x.kind, x.category);
    cost + cost * 0.35 * Workload.TailRiskMultiplier(x.kind, x.category)
  }

  /** Milliseconds waited. */
  function WaitedMs(x: Request, now: real): real {
    if now < x.arrivalTime then 0.0 else (now - x.arrivalTime) * 1000.0
  }

  /**
   A queue that a policy has ordered. `before` is the queue as it was, `after` what
   `reorder_request_queue` has made of it; the contexts in between are gone.
   */
  lemma QueueFollowsPolicy(
      before: seq<Request>, after: seq<Request>, predictions: map<string, Prediction>, policy: Policy, now: real, i: nat, j: nat)
    requires AllPredicted(before, predictions) && AllPredicted(after, predictions)
    requires ContextsOf(after, predictions) == OrderWaiting(ContextsOf(before, predictions), policy, now, DEFAULT_CONFIG)
    requires i < j < |after|
    ensures var x, y := after[i], after[j];
      var s, t := predictions[x.requestId].score, predictions[y.requestId].score;
      && (policy == Fcfs || policy == PolicyFcfs ==> CameNoLater(x, y))
      && (policy == PureLtr ==> s < t || (s == t && CameNoLater(x, y)))
      && (policy == PromptSjf && (forall k :: 0 <= k < |before| ==> before[k].promptTokenCount > 0) ==>
            || x.promptTokenCount < y.promptTokenCount
            || (x.promptTokenCount == y.promptTokenCount && CameNoLater(x, y)))
      && (policy == TailSafe ==>
            var p, q := RaisedCost(x) * (2000.0 + WaitedMs(y, now)), RaisedCost(y) * (2000.0 + WaitedMs(x, now));
            p < q || (p == q && CameNoLater(x, y)))
      && (policy == LtrAging ==>
            var p, q := s * 400.0 * (2000.0 + WaitedMs(y, now)), t * 400.0 * (2000.0 + WaitedMs(x, now));
            p < q || (p == q && CameNoLater(x, y)))
  {
    hide OrderWaiting, StringLe, Workload.CategoryCost, Workload.TailRiskMultiplier;
    var contexts := ContextsOf(before, predictions);
    match policy
    case Fcfs => FcfsOrders(contexts, policy, now, DEFAULT_CONFIG, i, j);
    case PolicyFcfs => FcfsOrders(contexts, policy, now, DEFAULT_CONFIG, i, j);
    case PureLtr => SortedQueue(contexts, policy, now, DEFAULT_CONFIG, i, j);
    case PromptSjf => PromptLengthOrders(contexts, now, DEFAULT_CONFIG, i, j);
    case TailSafe => AgeingOrders(contexts, policy, now, DEFAULT_CONFIG, i, j);
    case LtrAging => AgeingOrders(contexts, policy, now, DEFAULT_CONFIG, i, j);
    case _ =>
  }
}
