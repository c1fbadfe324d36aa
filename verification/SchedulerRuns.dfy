/** The adapter over whole runs: what is proved of rule C over rounds holds of the scheduler's own queue. */
module SchedulerRuns {
  import opened Orders
  import opened Sorting
  import opened Policies
  import opened RuleCTheorems
  import opened RuleCRuns
  import opened SchedulerAdapter

  /** A request handed to `add_request`, and how the predictor call for it ends. */
  datatype Addition = Addition(request: Request, outcome: PredictorOutcome)

  /** New requests, then one `schedule` call in which the engine takes `take` requests, or all there are. */
  datatype Turn = Turn(additions: seq<Addition>, now: real, take: nat)

  function RequestsOf(additions: seq<Addition>): (r: seq<Request>)
    ensures |r| == |additions|
    ensures forall i :: 0 <= i < |r| ==> r[i] == additions[i].request
  {
    seq(|additions|, i requires 0 <= i < |additions| => additions[i].request)
  }

  function AllRequests(turns: seq<Turn>): seq<Request> {
    if turns == [] then []
    else
      var n := |turns| - 1;
      AllRequests(turns[..n]) + RequestsOf(turns[n].additions)
  }

  ghost predicate OutcomesOk(additions: seq<Addition>) {
    forall i :: 0 <= i < |additions| ==> OutcomeOk(additions[i].outcome)
  }

  /** Nothing stored is forgotten or changed. */
  ghost predicate Keeps(before: map<string, Prediction>, after: map<string, Prediction>) {
    forall id :: id in before ==> id in after && after[id] == before[id]
  }

  lemma SameContexts(queue: seq<Request>, before: map<string, Prediction>, after: map<string, Prediction>)
    requires AllPredicted(queue, before) && Keeps(before, after)
    ensures AllPredicted(queue, after) && ContextsOf(queue, after) == ContextsOf(queue, before)
  {
  }

  // ----- what the turns make of a queue -----

  ghost predicate TurnsPredicted(turns: seq<Turn>, predictions: map<string, Prediction>) {
    forall k :: 0 <= k < |turns| ==> AllPredicted(RequestsOf(turns[k].additions), predictions)
  }

  function AddsOf(turn: Turn, predictions: map<string, Prediction>): (r: seq<RequestContext>)
    requires AllPredicted(RequestsOf(turn.additions), predictions)
    ensures |r| == |turn.additions|
  {
    ContextsOf(RequestsOf(turn.additions), predictions)
  }

  /** The turn as a round of rule C. */
  function RoundOf(q: seq<RequestContext>, turn: Turn, predictions: map<string, Prediction>): (r: Round)
    requires AllPredicted(RequestsOf(turn.additions), predictions)
    ensures r.take <= |q| + |r.adds|
  {
    var adds := AddsOf(turn, predictions);
    Round(adds, if turn.take <= |q| + |adds| then turn.take else |q| + |adds|)
  }

  /** What is waiting after the turns. */
  function AfterTurns(q: seq<RequestContext>, turns: seq<Turn>, predictions: map<string, Prediction>): seq<RequestContext>
    requires TurnsPredicted(turns, predictions)
  {
    if turns == [] then q
    else
      var n := |turns| - 1;
      var before := AfterTurns(q, turns[..n], predictions);
      Play(before, RoundOf(before, turns[n], predictions), DEFAULT_CONFIG)
  }

  /** The contexts of all additions, in order. */
  function AllAdds(turns: seq<Turn>, predictions: map<string, Prediction>): (r: seq<RequestContext>)
    requires TurnsPredicted(turns, predictions)
    ensures |r| == |AllRequests(turns)|
    ensures forall i :: 0 <= i < |r| ==> var x := AllRequests(turns)[i];
      r[i].requestId == x.requestId && r[i].arrival == x.arrivalTime
  {
    if turns == [] then []
    else
      var n := |turns| - 1;
      AllAdds(turns[..n], predictions) + AddsOf(turns[n], predictions)
  }

  /** `x` is strictly ahead of `y` in FCFS order. */
  predicate Earlier(x: Request, y: Request) {
    var k, l := Key(x.arrivalTime, 0.0, x.requestId), Key(y.arrivalTime, 0.0, y.requestId);
    KeyLe(k, l) && k != l
  }

  ghost predicate AllEarlier(queue: seq<Request>, additions: seq<Request>) {
    forall i, j :: 0 <= i < |queue| && 0 <= j < |additions| ==> Earlier(queue[i], additions[j])
  }

  /** Requests are added in the order they arrive: each turn's after all that were there before it. */
  ghost predicate InOrder(queue: seq<Request>, turns: seq<Turn>) {
    forall k :: 0 <= k < |turns| ==> AllEarlier(queue + AllRequests(turns[..k]), RequestsOf(turns[k].additions))
  }

  /** The same of contexts. */
  ghost predicate JoinInOrder(q: seq<RequestContext>, turns: seq<Turn>, predictions: map<string, Prediction>)
    requires TurnsPredicted(turns, predictions)
  {
    forall k :: 0 <= k < |turns| ==> Later(q + AllAdds(turns[..k], predictions), AddsOf(turns[k], predictions))
  }

  lemma ContextsJoinInOrder(queue: seq<Request>, turns: seq<Turn>, predictions: map<string, Prediction>)
    requires AllPredicted(queue, predictions) && TurnsPredicted(turns, predictions) && InOrder(queue, turns)
    ensures JoinInOrder(ContextsOf(queue, predictions), turns, predictions)
  {
    hide KeyLe;
    var q := ContextsOf(queue, predictions);
    forall k | 0 <= k < |turns| ensures Later(q + AllAdds(turns[..k], predictions), AddsOf(turns[k], predictions)) {
      var before, adds := queue + AllRequests(turns[..k]), RequestsOf(turns[k].additions);
      assert AllEarlier(before, adds);
      forall i, j | 0 <= i < |before| && 0 <= j < |adds|
        ensures Older((q + AllAdds(turns[..k], predictions))[i], AddsOf(turns[k], predictions)[j])
      {
        assert Earlier(before[i], adds[j]);
      }
    }
  }

  lemma ContextsAreDistinct(queue: seq<Request>, turns: seq<Turn>, predictions: map<string, Prediction>)
    requires AllPredicted(queue, predictions) && TurnsPredicted(turns, predictions)
    requires DistinctRequestIds(queue + AllRequests(turns))
    ensures DistinctIds(ContextsOf(queue, predictions) + AllAdds(turns, predictions))
  {
    hide AllRequests, AllAdds, TurnsPredicted;
    var all := queue + AllRequests(turns);
    var contexts := ContextsOf(queue, predictions) + AllAdds(turns, predictions);
    assert |contexts| == |all|;
    forall i | 0 <= i < |all| ensures contexts[i].requestId == all[i].requestId {
    }
  }

  // ----- one turn after others -----

  /** Whatever still waits joined earlier, and ids stay unique. */
  lemma {:induction false} TurnsKeepRequests(q: seq<RequestContext>, turns: seq<Turn>, predictions: map<string, Prediction>)
    requires TurnsPredicted(turns, predictions) && DistinctIds(q + AllAdds(turns, predictions))
    ensures multiset(AfterTurns(q, turns, predictions)) <= multiset(q + AllAdds(turns, predictions))
    ensures DistinctIds(AfterTurns(q, turns, predictions))
    decreases |turns|, 1
  {
    hide RuleC, Play, DistinctIds;
    if turns == [] {
      assert q + AllAdds(turns, predictions) == q;
    } else {
      var n := |turns| - 1;
      NextTurnIsDistinct(q, turns, predictions);
      var before := AfterTurns(q, turns[..n], predictions);
      RoundKeepsRequests(before, RoundOf(before, turns[n], predictions), DEFAULT_CONFIG);
    }
  }

  lemma {:induction false} NextTurnIsDistinct(q: seq<RequestContext>, turns: seq<Turn>, predictions: map<string, Prediction>)
    requires turns != [] && TurnsPredicted(turns, predictions) && DistinctIds(q + AllAdds(turns, predictions))
    ensures var n := |turns| - 1;
      var before, adds := AfterTurns(q, turns[..n], predictions), AddsOf(turns[n], predictions);
      && DistinctIds(q + AllAdds(turns[..n], predictions))
      && multiset(before) <= multiset(q + AllAdds(turns[..n], predictions))
      && multiset(before + adds) <= multiset(q + AllAdds(turns, predictions))
      && DistinctIds(before) && DistinctIds(before + adds)
    decreases |turns|, 0
  {
    hide RuleC, Play, DistinctIds, AddsOf;
    var n := |turns| - 1;
    var adds, earlier := AddsOf(turns[n], predictions), AllAdds(turns[..n], predictions);
    var all := q + AllAdds(turns, predictions);
    assert all == (q + earlier) + adds;
    DistinctIdsOfPart(all, q + earlier);
    TurnsKeepRequests(q, turns[..n], predictions);
    DistinctIdsOfPart(all, AfterTurns(q, turns[..n], predictions) + adds);
  }

  lemma LaterThanPart(all: seq<RequestContext>, part: seq<RequestContext>, adds: seq<RequestContext>)
    requires Later(all, adds) && multiset(part) <= multiset(all)
    ensures Later(part, adds)
  {
    hide Older;
    forall i | 0 <= i < |part| ensures part[i] in all {
      assert part[i] in multiset(part);
    }
  }

  lemma NextTurnIsLater(q: seq<RequestContext>, turns: seq<Turn>, predictions: map<string, Prediction>)
    requires turns != [] && TurnsPredicted(turns, predictions) && DistinctIds(q + AllAdds(turns, predictions))
    requires JoinInOrder(q, turns, predictions)
    ensures var n := |turns| - 1;
      && JoinInOrder(q, turns[..n], predictions)
      && Later(AfterTurns(q, turns[..n], predictions), AddsOf(turns[n], predictions))
  {
    hide DistinctIds, AddsOf, Later, AfterTurns, AllAdds;
    var n := |turns| - 1;
    forall k | 0 <= k < n ensures Later(q + AllAdds(turns[..n][..k], predictions), AddsOf(turns[..n][k], predictions)) {
      assert turns[..n][..k] == turns[..k];
    }
    NextTurnIsDistinct(q, turns, predictions);
    LaterThanPart(q + AllAdds(turns[..n], predictions), AfterTurns(q, turns[..n], predictions), AddsOf(turns[n], predictions));
  }

  /** An id waiting at the start is in no addition. */
  lemma {:induction false} AdditionsAreNew(q: seq<RequestContext>, turns: seq<Turn>, predictions: map<string, Prediction>, a: RequestContext)
    requires turns != [] && TurnsPredicted(turns, predictions) && DistinctIds(q + AllAdds(turns, predictions)) && a in q
    ensures forall x :: x in AddsOf(turns[|turns| - 1], predictions) ==> x.requestId != a.requestId
  {
    hide AddsOf;
    var n := |turns| - 1;
    var earlier, adds := AllAdds(turns[..n], predictions), AddsOf(turns[n], predictions);
    var all := q + AllAdds(turns, predictions);
    var i :| 0 <= i < |q| && q[i] == a;
    assert all[i] == a;
    forall x | x in adds ensures x.requestId != a.requestId {
      var j :| 0 <= j < |adds| && adds[j] == x;
      assert all[|q| + |earlier| + j] == x;
    }
  }

  lemma SameId(q: seq<RequestContext>, x: RequestContext, y: RequestContext)
    requires DistinctIds(q) && x in q && y in q && x.requestId == y.requestId
    ensures x == y
  {
  }

  // ----- over all turns -----

  /** Nothing waiting has this id. */
  ghost predicate Gone(q: seq<RequestContext>, id: string) {
    forall x :: x in q ==> x.requestId != id
  }

  /** A request waiting at first has left, or is still there with no more requests older than it. */
  ghost predicate KeepsPlace(before: seq<RequestContext>, after: seq<RequestContext>, a: RequestContext) {
    Gone(after, a.requestId) || (a in after && OlderCount(after, a) <= OlderCount(before, a))
  }

  /**
   Over any turns whose requests are added in order, a waiting request leaves for good
   or keeps its place: the number of older requests, which is the index that rule C
   gives it if it is abstained, never grows.
   */
  lemma {:induction false} PlaceIsKept(q: seq<RequestContext>, turns: seq<Turn>, predictions: map<string, Prediction>, a: RequestContext)
    requires TurnsPredicted(turns, predictions) && DistinctIds(q + AllAdds(turns, predictions))
    requires JoinInOrder(q, turns, predictions) && a in q
    ensures KeepsPlace(q, AfterTurns(q, turns, predictions), a)
  {
    hide RuleC, Play, DistinctIds, AddsOf, Older, OlderCount, JoinInOrder, Later;
    if turns != [] {
      var n := |turns| - 1;
      var before := AfterTurns(q, turns[..n], predictions);
      var round := RoundOf(before, turns[n], predictions);
      var after := AfterTurns(q, turns, predictions);
      NextTurnIsDistinct(q, turns, predictions);
      NextTurnIsLater(q, turns, predictions);
      AdditionsAreNew(q, turns, predictions, a);
      PlaceIsKept(q, turns[..n], predictions, a);
      RoundKeepsRequests(before, round, DEFAULT_CONFIG);
      if a in after {
        RoundIndex(before, round, a, DEFAULT_CONFIG);
      } else {
        forall x | x in after ensures x.requestId != a.requestId {
          if x in before && x.requestId == a.requestId { SameId(before, x, a); }
        }
      }
    }
  }

  ghost predicate EachTakes(turns: seq<Turn>) {
    forall k :: 0 <= k < |turns| ==> turns[k].take >= 1
  }

  ghost predicate AllValid(predictions: map<string, Prediction>) {
    forall id :: id in predictions ==> predictions[id].Valid()
  }

  /** When each turn takes somebody, an unblocked abstained request waits for no more turns than there are older requests. */
  lemma {:induction false} ServedInTime(q: seq<RequestContext>, turns: seq<Turn>, predictions: map<string, Prediction>, a: RequestContext)
    requires TurnsPredicted(turns, predictions) && DistinctIds(q + AllAdds(turns, predictions))
    requires JoinInOrder(q, turns, predictions) && EachTakes(turns)
    requires ValidPredictions(q) && AllValid(predictions)
    requires a in q && !Eligible(a, DEFAULT_CONFIG) && Unblocked(q, a, DEFAULT_CONFIG)
    ensures var e := AfterTurns(q, turns, predictions);
      a in e ==>
        && ValidPredictions(e) && Unblocked(e, a, DEFAULT_CONFIG)
        && OlderCount(e, a) + |turns| <= OlderCount(q, a)
  {
    hide RuleC, Play, DistinctIds, Older, OlderCount, JoinInOrder, Later, Eligible, Unblocked;
    if turns != [] {
      var n := |turns| - 1;
      var before := AfterTurns(q, turns[..n], predictions);
      var round := RoundOf(before, turns[n], predictions);
      var after := AfterTurns(q, turns, predictions);
      NextTurnIsDistinct(q, turns, predictions);
      NextTurnIsLater(q, turns, predictions);
      AdditionsAreNew(q, turns, predictions, a);
      ServedInTime(q, turns[..n], predictions, a);
      RoundKeepsRequests(before, round, DEFAULT_CONFIG);
      if a in after {
        assert a in before;
        UnblockedRound(before, round, DEFAULT_CONFIG, a);
      }
    }
  }

  lemma {:induction false} TurnsWithKept(q: seq<RequestContext>, turns: seq<Turn>, before: map<string, Prediction>, after: map<string, Prediction>)
    requires TurnsPredicted(turns, before) && Keeps(before, after)
    ensures TurnsPredicted(turns, after) && AfterTurns(q, turns, after) == AfterTurns(q, turns, before)
  {
    hide RuleC, Play;
    if turns != [] {
      var n := |turns| - 1;
      TurnsWithKept(q, turns[..n], before, after);
      SameContexts(RequestsOf(turns[n].additions), before, after);
      forall k | 0 <= k < n ensures AllPredicted(RequestsOf(turns[k].additions), after) {
        assert turns[..n][k] == turns[k];
      }
    }
  }

  // ----- the adapter -----

  /** All additions of a turn, one `add_request` after another. */
  method AddAll(scheduler: PolicyScheduler, additions: seq<Addition>)
    requires scheduler.Valid() && OutcomesOk(additions)
    requires DistinctRequestIds(scheduler.waiting + RequestsOf(additions))
    modifies scheduler
    ensures scheduler.Valid() && Keeps(old(scheduler.predictions), scheduler.predictions)
    ensures scheduler.waiting == old(scheduler.waiting) + RequestsOf(additions)
    ensures AllPredicted(RequestsOf(additions), scheduler.predictions)
    ensures scheduler.Contexts() == old(scheduler.Contexts()) + ContextsOf(RequestsOf(additions), scheduler.predictions)
  {
    ghost var queue0, stored0 := scheduler.waiting, scheduler.predictions;
    ghost var requests := RequestsOf(additions);
    for k := 0 to |additions|
      invariant scheduler.Valid() && Keeps(stored0, scheduler.predictions)
      invariant scheduler.waiting == queue0 + requests[..k]
    {
      assert (queue0 + requests)[|queue0| + k] == additions[k].request;
      forall i | 0 <= i < |scheduler.waiting| ensures scheduler.waiting[i].requestId != additions[k].request.requestId {
        assert scheduler.waiting[i] == (queue0 + requests)[i];
      }
      scheduler.AddRequest(additions[k].request, additions[k].outcome);
      assert requests[..k + 1] == requests[..k] + [additions[k].request];
    }
    assert requests[..|additions|] == requests;
    SameContexts(queue0, stored0, scheduler.predictions);
    ContextsOfConcat(queue0, requests, scheduler.predictions);
  }

  lemma ContextsOfConcat(a: seq<Request>, b: seq<Request>, predictions: map<string, Prediction>)
    requires AllPredicted(a + b, predictions)
    ensures AllPredicted(a, predictions) && AllPredicted(b, predictions)
    ensures ContextsOf(a + b, predictions) == ContextsOf(a, predictions) + ContextsOf(b, predictions)
  {
    forall i | 0 <= i < |a| ensures a[i].requestId in predictions { assert (a + b)[i] == a[i]; }
    forall i | 0 <= i < |b| ensures b[i].requestId in predictions { assert (a + b)[|a| + i] == b[i]; }
  }

  /** One turn is one round of rule C on the contexts, and keeps every stored prediction. */
  method PlayTurn(scheduler: PolicyScheduler, turn: Turn) returns (served: seq<Request>)
    requires scheduler.Valid() && scheduler.policy == GatedRuleC && OutcomesOk(turn.additions)
    requires DistinctRequestIds(scheduler.waiting + RequestsOf(turn.additions))
    modifies scheduler
    ensures scheduler.Valid() && Keeps(old(scheduler.predictions), scheduler.predictions)
    ensures multiset(served) + multiset(scheduler.waiting)
      == multiset(old(scheduler.waiting)) + multiset(RequestsOf(turn.additions))
    ensures AllPredicted(RequestsOf(turn.additions), scheduler.predictions)
    ensures var q := old(scheduler.Contexts());
      scheduler.Contexts() == Play(q, RoundOf(q, turn, scheduler.predictions), DEFAULT_CONFIG)
  {
    hide RuleC;
    ghost var queue := scheduler.waiting;
    AddAll(scheduler, turn.additions);
    assert multiset(queue + RequestsOf(turn.additions)) == multiset(queue) + multiset(RequestsOf(turn.additions));
    var take := if turn.take <= |scheduler.waiting| then turn.take else |scheduler.waiting|;
    served := scheduler.Schedule(turn.now, take);
  }

  lemma {:induction false} EarlierRequests(turns: seq<Turn>, k: nat)
    requires k <= |turns|
    ensures AllRequests(turns[..k]) <= AllRequests(turns)
  {
    if k == |turns| {
      assert turns[..k] == turns;
    } else {
      var n := |turns| - 1;
      EarlierRequests(turns[..n], k);
      assert turns[..n][..k] == turns[..k];
    }
  }

  lemma OneMoreTurnsRequests(turns: seq<Turn>, k: nat)
    requires k < |turns|
    ensures AllRequests(turns[..k + 1]) == AllRequests(turns[..k]) + RequestsOf(turns[k].additions)
  {
    assert turns[..k + 1][..k] == turns[..k];
  }

  lemma DistinctRequestsOfPart(a: seq<Request>, b: seq<Request>)
    requires DistinctRequestIds(a) && multiset(b) <= multiset(a)
    ensures DistinctRequestIds(b)
  {
    assert DistinctKeys(RequestKey, a);
    DistinctKeysOfPart(RequestKey, a, b);
    forall i, j | 0 <= i < j < |b| ensures b[i].requestId != b[j].requestId {
      assert RequestKey(b[i]) != RequestKey(b[j]);
    }
  }

  lemma PartOfAll<T>(queue: seq<T>, earlier: seq<T>, adds: seq<T>, later: seq<T>, waiting: seq<T>)
    requires multiset(waiting) <= multiset(queue + earlier)
    ensures multiset(waiting + adds) <= multiset(queue + (earlier + adds + later))
  {
  }

  /** The requests of the next turn are new to what the earlier turns left. */
  lemma NextAdditionsAreNew(queue: seq<Request>, turns: seq<Turn>, k: nat, waiting: seq<Request>)
    requires k < |turns| && DistinctRequestIds(queue + AllRequests(turns))
    requires multiset(waiting) <= multiset(queue + AllRequests(turns[..k]))
    ensures DistinctRequestIds(waiting + RequestsOf(turns[k].additions))
  {
    hide DistinctRequestIds, AllRequests, RequestsOf;
    var adds, earlier := RequestsOf(turns[k].additions), AllRequests(turns[..k]);
    EarlierRequests(turns, k + 1);
    OneMoreTurnsRequests(turns, k);
    var later := AllRequests(turns)[|earlier + adds|..];
    assert AllRequests(turns) == earlier + adds + later;
    PartOfAll(queue, earlier, adds, later, waiting);
    DistinctRequestsOfPart(queue + AllRequests(turns), waiting + adds);
  }

  lemma NoTurns(q: seq<RequestContext>, predictions: map<string, Prediction>)
    ensures AllRequests([]) == [] && TurnsPredicted([], predictions) && AfterTurns(q, [], predictions) == q
  {
  }

  lemma OneMoreTurnsQueue(q: seq<RequestContext>, turns: seq<Turn>, k: nat, predictions: map<string, Prediction>)
    requires k < |turns| && TurnsPredicted(turns[..k], predictions)
    requires AllPredicted(RequestsOf(turns[k].additions), predictions)
    ensures TurnsPredicted(turns[..k + 1], predictions)
    ensures var before := AfterTurns(q, turns[..k], predictions);
      AfterTurns(q, turns[..k + 1], predictions) == Play(before, RoundOf(before, turns[k], predictions), DEFAULT_CONFIG)
  {
    hide RuleC, Play, RoundOf, RequestsOf, AllPredicted;
    forall i | 0 <= i < k + 1 ensures AllPredicted(RequestsOf(turns[i].additions), predictions) {
      if i < k { assert turns[..k][i] == turns[i]; }
    }
    assert turns[..k + 1][..k] == turns[..k];
  }

  /** What joins and what leaves in one more turn. */
  lemma OneMoreTurn(queue: seq<Request>, turns: seq<Turn>, k: nat, served: seq<Request>, between: seq<Request>, taken: seq<Request>, waiting: seq<Request>)
    requires k < |turns|
    requires multiset(served) + multiset(between) == multiset(queue) + multiset(AllRequests(turns[..k]))
    requires multiset(taken) + multiset(waiting) == multiset(between) + multiset(RequestsOf(turns[k].additions))
    ensures multiset(served + taken) + multiset(waiting) == multiset(queue) + multiset(AllRequests(turns[..k + 1]))
  {
    hide AllRequests, RequestsOf;
    OneMoreTurnsRequests(turns, k);
    Balance(multiset(served), multiset(between), multiset(queue), multiset(AllRequests(turns[..k])),
            multiset(taken), multiset(waiting), multiset(RequestsOf(turns[k].additions)));
  }

  /** What a run of turns does for every request that waits at first. */
  ghost predicate RunIsFair(before: seq<RequestContext>, after: seq<RequestContext>, turns: seq<Turn>) {
    && (forall a :: a in before ==> KeepsPlace(before, after, a))
    && (EachTakes(turns) ==>
          forall a :: a in before && a in after && !Eligible(a, DEFAULT_CONFIG) && Unblocked(before, a, DEFAULT_CONFIG) ==>
            |turns| <= OlderCount(before, a))
  }

  lemma TurnsAreFair(queue: seq<Request>, turns: seq<Turn>, predictions: map<string, Prediction>)
    requires AllPredicted(queue, predictions) && TurnsPredicted(turns, predictions) && AllValid(predictions)
    requires DistinctRequestIds(queue + AllRequests(turns)) && InOrder(queue, turns)
    ensures var q := ContextsOf(queue, predictions);
      RunIsFair(q, AfterTurns(q, turns, predictions), turns)
  {
    hide AfterTurns, JoinInOrder, InOrder, DistinctIds, OlderCount, Eligible, Unblocked, DistinctRequestIds, KeepsPlace;
    var q := ContextsOf(queue, predictions);
    var e := AfterTurns(q, turns, predictions);
    ContextsJoinInOrder(queue, turns, predictions);
    ContextsAreDistinct(queue, turns, predictions);
    forall a | a in q ensures KeepsPlace(q, e, a) {
      PlaceIsKept(q, turns, predictions, a);
    }
    forall a | EachTakes(turns) && a in q && a in e && !Eligible(a, DEFAULT_CONFIG) && Unblocked(q, a, DEFAULT_CONFIG)
      ensures |turns| <= OlderCount(q, a)
    {
      ServedInTime(q, turns, predictions, a);
    }
  }

  /**
   A whole run of the adapter under rule C. What waits is what playing the turns as
   rounds leaves; the served and the waiting requests are those there were and those
   added; no stored prediction changes. If requests are added in the order they arrive,
   every request that waits at first leaves for good or keeps its place, and when each
   turn takes somebody, an unblocked abstained one is served in time.
   */
  method PlayTurns(scheduler: PolicyScheduler, turns: seq<Turn>) returns (served: seq<Request>)
    requires scheduler.Valid() && scheduler.policy == GatedRuleC
    requires forall k :: 0 <= k < |turns| ==> OutcomesOk(turns[k].additions)
    requires DistinctRequestIds(scheduler.waiting + AllRequests(turns))
    modifies scheduler
    ensures scheduler.Valid() && Keeps(old(scheduler.predictions), scheduler.predictions)
    ensures TurnsPredicted(turns, scheduler.predictions)
    ensures scheduler.Contexts() == AfterTurns(old(scheduler.Contexts()), turns, scheduler.predictions)
    ensures multiset(served) + multiset(scheduler.waiting) == multiset(old(scheduler.waiting)) + multiset(AllRequests(turns))
    ensures InOrder(old(scheduler.waiting), turns) ==>
      RunIsFair(old(scheduler.Contexts()), scheduler.Contexts(), turns)
  {
    hide RuleC, Play, RoundOf, RunIsFair, InOrder, AfterTurns, TurnsPredicted, AllRequests, RequestsOf, DistinctRequestIds;
    ghost var queue0, start, stored := scheduler.waiting, scheduler.Contexts(), scheduler.predictions;
    served := [];
    NoTurns(start, stored);
    assert turns[..0] == [];
    for k := 0 to |turns|
      invariant scheduler.Valid() && Keeps(stored, scheduler.predictions)
      invariant TurnsPredicted(turns[..k], scheduler.predictions)
      invariant scheduler.Contexts() == AfterTurns(start, turns[..k], scheduler.predictions)
      invariant multiset(served) + multiset(scheduler.waiting) == multiset(queue0) + multiset(AllRequests(turns[..k]))
    {
      ghost var between, predicted := scheduler.waiting, scheduler.predictions;
      assert multiset(queue0 + AllRequests(turns[..k])) == multiset(queue0) + multiset(AllRequests(turns[..k]));
      NextAdditionsAreNew(queue0, turns, k, scheduler.waiting);
      var taken := PlayTurn(scheduler, turns[k]);
      TurnsWithKept(start, turns[..k], predicted, scheduler.predictions);
      OneMoreTurn(queue0, turns, k, served, between, taken, scheduler.waiting);
      OneMoreTurnsQueue(start, turns, k, scheduler.predictions);
      served := served + taken;
    }
    assert turns[..|turns|] == turns;
    SameContexts(queue0, stored, scheduler.predictions);
    if InOrder(queue0, turns) {
      TurnsAreFair(queue0, turns, scheduler.predictions);
    }
  }
}
