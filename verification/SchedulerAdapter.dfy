/** The vLLM adapter: what it stores per request, and how it rewrites the engine's waiting queue. */
module SchedulerAdapter {
  import opened Optional
  import opened Orders
  import opened Sorting
  import opened Policies
  import opened RuleCTheorems

  /** The parts of an engine request the adapter reads. */
  datatype Request = Request(requestId: string, arrivalTime: real, kind: string, category: string, promptTokenCount: nat)

  /** How a predictor call ends; a failure carries the time it took. */
  datatype PredictorOutcome = Predicted(prediction: Prediction) | Failed(message: string, latencyMs: real)

  function PredictOrFallback(outcome: PredictorOutcome): (r: (Prediction, Option<string>)) {
    match outcome
    case Predicted(p) => (p, None)
    case Failed(message, latencyMs) => (Prediction(1.0, 0.0, true, latencyMs), Some(message))
  }

  ghost predicate OutcomeOk(outcome: PredictorOutcome) {
    match outcome
    case Predicted(p) => p.Valid()
    case Failed(_, latencyMs) => latencyMs >= 0.0
  }

  function ContextOf(r: Request, p: Prediction): RequestContext {
    RequestContext(r.requestId, r.arrivalTime, p, r.kind, r.category, r.promptTokenCount)
  }

  ghost predicate AllPredicted(queue: seq<Request>, predictions: map<string, Prediction>) {
    forall i :: 0 <= i < |queue| ==> queue[i].requestId in predictions
  }

  function ContextsOf(queue: seq<Request>, predictions: map<string, Prediction>): (r: seq<RequestContext>)
    requires AllPredicted(queue, predictions)
    ensures |r| == |queue|
    ensures forall i :: 0 <= i < |r| ==> r[i] == ContextOf(queue[i], predictions[queue[i].requestId])
  {
    seq(|queue|, i requires 0 <= i < |queue| => ContextOf(queue[i], predictions[queue[i].requestId]))
  }

  ghost predicate DistinctRequestIds(queue: seq<Request>) {
    forall i, j :: 0 <= i < j < |queue| ==> queue[i].requestId != queue[j].requestId
  }

  lemma OrderPermutes(waiting: seq<RequestContext>, policy: Policy, now: real, config: PolicyConfig)
    requires config.deadlineMs > 0.0
    ensures multiset(OrderWaiting(waiting, policy, now, config)) == multiset(waiting)
  {
    hide RuleC, Sort, PolicyKey;
    RuleCIsRuleCOrder(waiting, config);
  }

  /** A queue of fewer than two requests is its own order, which is why the adapter leaves it alone. */
  lemma ShortQueueIsOrdered(waiting: seq<RequestContext>, policy: Policy, now: real, config: PolicyConfig)
    requires config.deadlineMs > 0.0 && |waiting| < 2
    ensures OrderWaiting(waiting, policy, now, config) == waiting
  {
    hide OrderWaiting;
    OrderPermutes(waiting, policy, now, config);
    SameElements(OrderWaiting(waiting, policy, now, config), waiting);
    if |waiting| == 1 {
      assert OrderWaiting(waiting, policy, now, config)[0] in waiting;
    }
  }

  class PolicyScheduler {
    const policy: Policy
    const usesPredictor: bool
    var waiting: seq<Request>
    var predictions: map<string, Prediction>
    var errors: map<string, string>

    /** Every waiting request has a prediction, and ids are unique in the queue. */
    ghost predicate Valid()
      reads this
    {
      && DistinctRequestIds(waiting)
      && AllPredicted(waiting, predictions)
      && (forall id :: id in predictions ==> predictions[id].Valid())
      && errors.Keys <= predictions.Keys
    }

    /** The queue as the policies see it. */
    ghost function Contexts(): (r: seq<RequestContext>)
      requires Valid()
      reads this
      ensures DistinctIds(r) && |r| == |waiting|
    {
      ContextsOf(waiting, predictions)
    }

    constructor (policy: Policy, usesPredictor: bool)
      ensures Valid() && waiting == [] && predictions == map[] && errors == map[]
      ensures this.policy == policy && this.usesPredictor == usesPredictor
    {
      this.policy, this.usesPredictor := policy, usesPredictor;
      waiting, predictions, errors := [], map[], map[];
    }

    /**
     `add_request`: a request seen before keeps its stored prediction; a new one is
     predicted once, with the safe fallback if the predictor fails.
     */
    method AddRequest(request: Request, outcome: PredictorOutcome)
      requires Valid() && OutcomeOk(outcome)
      requires forall i :: 0 <= i < |waiting| ==> waiting[i].requestId != request.requestId
      modifies this
      ensures Valid()
      ensures waiting == old(waiting) + [request]
      ensures request.requestId in old(predictions) ==> predictions == old(predictions) && errors == old(errors)
      ensures request.requestId !in old(predictions) ==>
        && request.requestId in predictions
        && predictions == old(predictions)[request.requestId := predictions[request.requestId]]
        && if usesPredictor && outcome.Failed? then
             && predictions[request.requestId] == Prediction(1.0, 0.0, true, outcome.latencyMs)
             && errors == old(errors)[request.requestId := outcome.message]
           else
             && predictions[request.requestId] == (if usesPredictor then outcome.prediction else Prediction(1.0, 0.0, true, 0.0))
             && errors == old(errors)
      ensures Contexts()[..|old(waiting)|] == old(Contexts())
    {
      if request.requestId !in predictions {
        var prediction, error := Prediction(1.0, 0.0, true, 0.0), None;
        if usesPredictor {
          var r := PredictOrFallback(outcome);
          prediction, error := r.0, r.1;
        }
        predictions := predictions[request.requestId := prediction];
        if error.Some? {
          errors := errors[request.requestId := error.value];
        }
      }
      waiting := waiting + [request];
    }

    /** `reorder_request_queue` on the scheduler's own queue. */
    method Reorder(now: real)
      requires Valid()
      modifies this`waiting
      ensures Valid()
      ensures multiset(waiting) == multiset(old(waiting))
      ensures Contexts() == OrderWaiting(old(Contexts()), policy, now, DEFAULT_CONFIG)
    {
      hide OrderWaiting;
      ghost var contexts0 := Contexts();
      if |waiting| < 2 {
        ShortQueueIsOrdered(contexts0, policy, now, DEFAULT_CONFIG);
        return;
      }
      var requests := waiting;
      var contexts := ContextsOf(requests, predictions);
      OrderPermutes(contexts, policy, now, DEFAULT_CONFIG);
      var ordered := Order(contexts, policy, now);
      var byId := IndexById(requests);
      waiting := PutBack(requests, predictions, byId, ordered);
    }

    /** `schedule`: reorder, then the engine takes `taken` requests from the front. */
    method Schedule(now: real, taken: nat) returns (served: seq<Request>)
      requires Valid() && taken <= |waiting|
      modifies this`waiting
      ensures Valid()
      ensures multiset(served) + multiset(waiting) == multiset(old(waiting)) && |served| == taken
      ensures var ordered := OrderWaiting(old(Contexts()), policy, now, DEFAULT_CONFIG);
        && |ordered| == |old(waiting)| && Contexts() == ordered[taken..]
        && AllPredicted(served, predictions) && ContextsOf(served, predictions) == ordered[..taken]
    {
      hide OrderWaiting;
      ghost var before := waiting;
      Reorder(now);
      SameElements(waiting, before);
      assert waiting == waiting[..taken] + waiting[taken..];
      served := waiting[..taken];
      waiting := waiting[taken..];
    }
  }

  method Order(contexts: seq<RequestContext>, policy: Policy, now: real) returns (ordered: seq<RequestContext>)
    ensures ordered == OrderWaiting(contexts, policy, now, DEFAULT_CONFIG)
  {
    hide RuleC, Sort, PolicyKey;
    if policy == GatedRuleC {
      ordered := SlotPreservingRuleC(contexts, DEFAULT_CONFIG);
    } else {
      ordered := OrderWaiting(contexts, policy, now, DEFAULT_CONFIG);
    }
  }

  /** `{request.request_id: request for request in requests}`. */
  method IndexById(requests: seq<Request>) returns (byId: map<string, Request>)
    requires DistinctRequestIds(requests)
    ensures forall i :: 0 <= i < |requests| ==> requests[i].requestId in byId && byId[requests[i].requestId] == requests[i]
  {
    byId := map[];
    for k := 0 to |requests|
      invariant forall i :: 0 <= i < k ==> requests[i].requestId in byId && byId[requests[i].requestId] == requests[i]
    {
      byId := byId[requests[k].requestId := requests[k]];
    }
  }

  /** Put the requests back in the order of their contexts; each context finds its own request. */
  method PutBack(requests: seq<Request>, predictions: map<string, Prediction>, byId: map<string, Request>, ordered: seq<RequestContext>)
      returns (queue: seq<Request>)
    requires DistinctRequestIds(requests) && AllPredicted(requests, predictions)
    requires forall i :: 0 <= i < |requests| ==> requests[i].requestId in byId && byId[requests[i].requestId] == requests[i]
    requires multiset(ordered) == multiset(ContextsOf(requests, predictions))
    ensures multiset(queue) == multiset(requests)
    ensures DistinctRequestIds(queue) && AllPredicted(queue, predictions)
    ensures ContextsOf(queue, predictions) == ordered
  {
    queue := [];
    ghost var contexts := ContextsOf(requests, predictions);
    SameElements(ordered, contexts);
    DistinctIdsPermuted(contexts, ordered);
    for k := 0 to |ordered|
      invariant |queue| == k
      invariant forall i :: 0 <= i < k ==> queue[i] in requests && queue[i].requestId in predictions
      invariant forall i :: 0 <= i < k ==> ordered[i] == ContextOf(queue[i], predictions[queue[i].requestId])
    {
      assert ordered[k] in contexts;
      ghost var i :| 0 <= i < |contexts| && contexts[i] == ordered[k];
      assert requests[i].requestId == ordered[k].requestId;
      queue := queue + [byId[ordered[k].requestId]];
    }
    PermutedBack(requests, queue, predictions, ordered);
  }

  function RequestKey(r: Request): Key { Key(0.0, 0.0, r.requestId) }

  lemma PermutedBack(requests: seq<Request>, queue: seq<Request>, predictions: map<string, Prediction>, ordered: seq<RequestContext>)
    requires DistinctRequestIds(requests) && |queue| == |ordered| == |requests| && DistinctIds(ordered)
    requires forall i :: 0 <= i < |queue| ==> queue[i] in requests && queue[i].requestId in predictions
    requires forall i :: 0 <= i < |queue| ==> ordered[i] == ContextOf(queue[i], predictions[queue[i].requestId])
    ensures DistinctRequestIds(queue) && multiset(queue) == multiset(requests)
  {
    forall i, j | 0 <= i < j < |queue| ensures queue[i].requestId != queue[j].requestId {
      assert ordered[i].requestId != ordered[j].requestId;
    }
    assert DistinctKeys(RequestKey, queue);
    forall x ensures multiset(queue)[x] <= multiset(requests)[x] {
      DistinctKeysGiveCountOne(RequestKey, queue, x);
      if x in multiset(queue) {
        assert x in queue;
        assert x in requests;
      }
    }
    assert multiset(requests) == (multiset(requests) - multiset(queue)) + multiset(queue);
    assert |multiset(requests) - multiset(queue)| == 0;
  }
}
