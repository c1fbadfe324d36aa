/**
 Rule C over whole runs. In each round new requests join the queue, the
 scheduler reorders it, and the engine takes a prefix of the result.
 */
module RuleCRuns {
  import opened Orders
  import opened Sorting
  import opened Policies
  import opened RuleCTheorems

  /** `x` is strictly ahead of `y` in FCFS order. */
  predicate Older(x: RequestContext, y: RequestContext) {
    KeyLe(FcfsKey(x), FcfsKey(y)) && FcfsKey(x) != FcfsKey(y)
  }

  /** How many requests of `q` are older than `a`. */
  function OlderCount(q: seq<RequestContext>, a: RequestContext): (n: nat)
    ensures n <= |q|
  {
    if q == [] then 0 else (if Older(q[0], a) then 1 else 0) + OlderCount(q[1..], a)
  }

  datatype Round = Round(adds: seq<RequestContext>, take: nat)

  /** What a round leaves waiting. */
  function Play(q: seq<RequestContext>, round: Round, config: PolicyConfig): seq<RequestContext>
    requires round.take <= |q| + |round.adds|
  {
    RuleC(q + round.adds, config)[round.take..]
  }

  /** Every request of `adds` is later than every request of `q`. */
  ghost predicate Later(q: seq<RequestContext>, adds: seq<RequestContext>) {
    forall i, j :: 0 <= i < |q| && 0 <= j < |adds| ==> Older(q[i], adds[j])
  }

  ghost predicate ValidPredictions(q: seq<RequestContext>) {
    forall i :: 0 <= i < |q| ==> q[i].prediction.Valid()
  }

  // ----- counting -----

  lemma {:induction false} OlderCountConcat(p: seq<RequestContext>, q: seq<RequestContext>, a: RequestContext)
    ensures OlderCount(p + q, a) == OlderCount(p, a) + OlderCount(q, a)
  {
    hide Older;
    if p == [] {
      assert p + q == q;
    } else {
      OlderCountConcat(p[1..], q, a);
      assert (p + q)[1..] == p[1..] + q;
    }
  }

  lemma {:induction false} OlderCountPermuted(p: seq<RequestContext>, q: seq<RequestContext>, a: RequestContext)
    requires multiset(p) == multiset(q)
    ensures OlderCount(p, a) == OlderCount(q, a)
  {
    hide Older;
    SameElements(p, q);
    if p != [] {
      assert p[0] in q;
      var k :| 0 <= k < |q| && q[k] == p[0];
      RemoveOne(p, q, k);
      OlderCountPermuted(p[1..], q[..k] + q[k + 1..], a);
      OlderCountConcat(q[..k], q[k + 1..], a);
      OlderCountConcat(q[..k], q[k..], a);
      assert q[..k] + q[k..] == q && q[k..][1..] == q[k + 1..];
    }
  }

  lemma RemoveOne(p: seq<RequestContext>, q: seq<RequestContext>, k: nat)
    requires p != [] && k < |q| && q[k] == p[0] && multiset(p) == multiset(q)
    ensures multiset(p[1..]) == multiset(q[..k] + q[k + 1..])
  {
    assert p == [p[0]] + p[1..];
    assert q == q[..k] + [q[k]] + q[k + 1..];
    assert multiset(p[1..]) == multiset(p) - multiset{p[0]};
    assert multiset(q[..k] + q[k + 1..]) == multiset(q) - multiset{p[0]};
  }

  lemma {:induction false} AllOlder(q: seq<RequestContext>, a: RequestContext)
    requires forall i :: 0 <= i < |q| ==> Older(q[i], a)
    ensures OlderCount(q, a) == |q|
  {
    hide Older;
    if q != [] { AllOlder(q[1..], a); }
  }

  lemma {:induction false} NoneOlder(q: seq<RequestContext>, a: RequestContext)
    requires forall i :: 0 <= i < |q| ==> !Older(q[i], a)
    ensures OlderCount(q, a) == 0
  {
    hide Older;
    if q != [] { NoneOlder(q[1..], a); }
  }

  lemma OlderAsymmetric(x: RequestContext, y: RequestContext)
    requires Older(x, y)
    ensures !Older(y, x)
  {
    if KeyLe(FcfsKey(y), FcfsKey(x)) { KeyLeAntisymmetric(FcfsKey(x), FcfsKey(y)); }
  }

  lemma SortedByAge(fcfs: seq<RequestContext>, i: nat)
    requires SortedBy(FcfsKey, fcfs) && DistinctIds(fcfs) && i < |fcfs|
    ensures forall p :: 0 <= p < i ==> Older(fcfs[p], fcfs[i])
    ensures forall p :: i < p < |fcfs| ==> Older(fcfs[i], fcfs[p])
    ensures forall p :: i <= p < |fcfs| ==> !Older(fcfs[p], fcfs[i])
  {
    hide KeyLe;
    var a := fcfs[i];
    forall p | i < p < |fcfs| ensures Older(a, fcfs[p]) && !Older(fcfs[p], a) {
      OlderAsymmetric(a, fcfs[p]);
    }
  }

  /** In an FCFS-sorted queue, a request's index is the number of older ones. */
  lemma SortedIndex(fcfs: seq<RequestContext>, i: nat)
    requires SortedBy(FcfsKey, fcfs) && DistinctIds(fcfs) && i < |fcfs|
    ensures OlderCount(fcfs, fcfs[i]) == i
    ensures forall p :: 0 <= p < i ==> Older(fcfs[p], fcfs[i])
    ensures forall p :: i < p < |fcfs| ==> Older(fcfs[i], fcfs[p])
  {
    hide Older, OlderCount;
    SortedByAge(fcfs, i);
    hide SortedBy, DistinctIds;
    AllOlder(fcfs[..i], fcfs[i]);
    NoneOlder(fcfs[i..], fcfs[i]);
    OlderCountConcat(fcfs[..i], fcfs[i..], fcfs[i]);
    assert fcfs == fcfs[..i] + fcfs[i..];
  }

  /** Rule C puts an abstained request at the number of requests older than it. */
  lemma AbstainedIndex(q: seq<RequestContext>, config: PolicyConfig, a: RequestContext)
    requires DistinctIds(q) && a in q && !Eligible(a, config)
    ensures var i := OlderCount(q, a);
      && i < |q| && RuleC(q, config)[i] == a
      && Sort(FcfsKey, q)[i] == a
  {
    hide Eligible, Sort, RuleC, TrustedOf;
    var fcfs := Sort(FcfsKey, q);
    SortIsSorted(FcfsKey, q);
    SameElements(fcfs, q);
    DistinctIdsPermuted(q, fcfs);
    assert a in fcfs;
    var i :| 0 <= i < |fcfs| && fcfs[i] == a;
    SortedIndex(fcfs, i);
    OlderCountPermuted(fcfs, q, a);
    RuleCIsRuleCOrder(q, config);
  }

  // ----- one round -----

  lemma RoundKeepsRequests(q: seq<RequestContext>, round: Round, config: PolicyConfig)
    requires round.take <= |q| + |round.adds| && DistinctIds(q + round.adds)
    ensures var r := RuleC(q + round.adds, config);
      && multiset(r[..round.take]) + multiset(Play(q, round, config)) == multiset(q) + multiset(round.adds)
      && DistinctIds(r) && DistinctIds(Play(q, round, config))
      && (forall x :: x in Play(q, round, config) ==> x in q || x in round.adds)
  {
    hide RuleC;
    var w := q + round.adds;
    var r := RuleC(w, config);
    RuleCIsRuleCOrder(w, config);
    DistinctIdsPermuted(w, r);
    SameElements(r, w);
    assert r == r[..round.take] + r[round.take..];
    assert multiset(w) == multiset(q) + multiset(round.adds);
    forall x | x in Play(q, round, config) ensures x in q || x in round.adds {
      assert x in r;
      assert x in w;
    }
  }

  /** Later requests do not count. */
  lemma LaterDoNotCount(q: seq<RequestContext>, adds: seq<RequestContext>, a: RequestContext)
    requires Later(q, adds) && a in q
    ensures OlderCount(q + adds, a) == OlderCount(q, a)
  {
    hide Older;
    var i :| 0 <= i < |q| && q[i] == a;
    forall j | 0 <= j < |adds| ensures !Older(adds[j], a) {
      OlderAsymmetric(q[i], adds[j]);
    }
    NoneOlder(adds, a);
    OlderCountConcat(q, adds, a);
  }

  /**
   Where an abstained request stands, exactly. After a round that takes `n`
   requests from ahead of it, it has moved up by `n`; the next reordering moves it
   back by the number of those `n` that were younger than it. So its index right
   after a reordering never increases, but its index in the queue can.
   */
  lemma IndexAccounting(q: seq<RequestContext>, n: nat, adds: seq<RequestContext>, config: PolicyConfig, a: RequestContext)
    requires DistinctIds(q) && a in q && !Eligible(a, config)
    requires n <= OlderCount(q, a)
    requires var left := RuleC(q, config)[n..]; DistinctIds(left + adds) && Later(left, adds)
    ensures var r := RuleC(q, config);
      var left := r[n..];
      var before, now := OlderCount(q, a), OlderCount(left + adds, a);
      var overtakers := n - OlderCount(r[..n], a);
      && before < |r| && r[before] == a
      && left[before - n] == a
      && now < |left + adds| && RuleC(left + adds, config)[now] == a
      && now == (before - n) + overtakers
      && now <= before
  {
    hide Eligible, RuleC, Older;
    var r := RuleC(q, config);
    AbstainedIndex(q, config, a);
    RuleCIsRuleCOrder(q, config);
    OlderCountPermuted(r, q, a);
    assert r == r[..n] + r[n..];
    OlderCountConcat(r[..n], r[n..], a);
    assert r[n..][OlderCount(q, a) - n] == a;
    LaterDoNotCount(r[n..], adds, a);
    AbstainedIndex(r[n..] + adds, config, a);
  }

  // ----- whole runs -----

  /** A round of a run in which `a` waits: additions are later and new, and the engine makes progress. */
  ghost predicate ValidRound(q: seq<RequestContext>, round: Round, a: RequestContext) {
    && DistinctIds(q + round.adds) && Later(q, round.adds)
    && ValidPredictions(round.adds) && a !in round.adds
    && 1 <= round.take <= |q| + |round.adds|
  }

  ghost predicate ValidRun(q: seq<RequestContext>, rounds: seq<Round>, a: RequestContext, config: PolicyConfig)
    decreases |rounds|
  {
    rounds == [] ||
    (ValidRound(q, rounds[0], a) && ValidRun(Play(q, rounds[0], config), rounds[1..], a, config))
  }

  function PlayAll(q: seq<RequestContext>, rounds: seq<Round>, a: RequestContext, config: PolicyConfig): seq<RequestContext>
    requires ValidRun(q, rounds, a, config)
    decreases |rounds|
  {
    if rounds == [] then q else PlayAll(Play(q, rounds[0], config), rounds[1..], a, config)
  }

  /** `a` is still waiting after these rounds. */
  ghost predicate WaitsThrough(q: seq<RequestContext>, rounds: seq<Round>, a: RequestContext, config: PolicyConfig) {
    ValidRun(q, rounds, a, config) && a in PlayAll(q, rounds, a, config)
  }

  ghost predicate CanWait(q: seq<RequestContext>, a: RequestContext, config: PolicyConfig, n: nat) {
    exists rounds :: |rounds| == n && WaitsThrough(q, rounds, a, config)
  }

  /** For every number of rounds there is a run that keeps `a` waiting, although each round serves somebody. */
  ghost predicate CanStarve(q: seq<RequestContext>, a: RequestContext, config: PolicyConfig) {
    forall n: nat :: CanWait(q, a, config, n)
  }

  /** A trusted request ahead of `a` that the ranker does not put first. */
  ghost predicate Blocks(u: RequestContext, a: RequestContext, config: PolicyConfig) {
    Eligible(u, config) && Older(u, a) && u.prediction.score > 0.0
  }

  ghost predicate Unblocked(q: seq<RequestContext>, a: RequestContext, config: PolicyConfig) {
    forall u :: u in q ==> !Blocks(u, a, config)
  }

  /** Without a blocking request, ranks agree across `a` whatever joins the queue. */
  lemma UnblockedRanksAgree(w: seq<RequestContext>, config: PolicyConfig, a: RequestContext, i: nat)
    requires DistinctIds(w) && ValidPredictions(w) && Unblocked(w, a, config)
    requires i < |w| && Sort(FcfsKey, w)[i] == a
    ensures RanksAgreeAcross(Sort(FcfsKey, w), config, i)
  {
    hide Eligible, Sort;
    var fcfs := Sort(FcfsKey, w);
    SortIsSorted(FcfsKey, w);
    SameElements(fcfs, w);
    DistinctIdsPermuted(w, fcfs);
    SortedIndex(fcfs, i);
    forall k, l | 0 <= k < i < l < |fcfs| && Eligible(fcfs[k], config) && Eligible(fcfs[l], config)
      ensures KeyLe(LtrKey(fcfs[k]), LtrKey(fcfs[l]))
    {
      assert fcfs[k] in w && fcfs[l] in w;
      assert !Blocks(fcfs[k], a, config);
      assert fcfs[l].prediction.Valid();
      assert KeyLe(FcfsKey(fcfs[k]), FcfsKey(fcfs[l]));
    }
  }

  /** Then everything ahead of `a` in rule C's order is older than `a`. */
  lemma UnblockedPrefixIsOlder(w: seq<RequestContext>, config: PolicyConfig, a: RequestContext, p: nat)
    requires DistinctIds(w) && ValidPredictions(w) && Unblocked(w, a, config)
    requires a in w && !Eligible(a, config)
    requires p < OlderCount(w, a)
    ensures Older(RuleC(w, config)[p], a)
  {
    hide Eligible, Sort, RuleC, TrustedOf, Older;
    var i := OlderCount(w, a);
    AbstainedIndex(w, config, a);
    var fcfs, r := Sort(FcfsKey, w), RuleC(w, config);
    SortIsSorted(FcfsKey, w);
    DistinctIdsPermuted(w, fcfs);
    SortedIndex(fcfs, i);
    RuleCIsRuleCOrder(w, config);
    if Eligible(r[p], config) {
      UnblockedRanksAgree(w, config, a, i);
      TrustedAhead(w, config, i);
      AgreementKeepsSides(fcfs, config, i);
      var older := TrustedOf(fcfs[..i], config);
      SameElements(Sort(LtrKey, older), older);
      assert r[p] == r[..i][p];
      TrustedOfElements(r[..i], config, r[p]);
      var k := OlderTrustedIndex(fcfs, config, i, r[p]);
    }
  }

  /** Taking a prefix of rule C's order either takes `a` or brings it closer by as many places as it takes. */
  lemma UnblockedTake(w: seq<RequestContext>, take: nat, config: PolicyConfig, a: RequestContext)
    requires DistinctIds(w) && ValidPredictions(w) && Unblocked(w, a, config)
    requires a in w && !Eligible(a, config) && take <= |w|
    ensures var q' := RuleC(w, config)[take..];
      && (a in q' <==> take <= OlderCount(w, a))
      && (a in q' ==> OlderCount(q', a) == OlderCount(w, a) - take)
  {
    hide Eligible, RuleC, Older, Unblocked, ValidPredictions, OlderCount;
    var r := RuleC(w, config);
    AbstainedIndex(w, config, a);
    RuleCIsRuleCOrder(w, config);
    DistinctIdsPermuted(w, r);
    SuffixHolds(r, OlderCount(w, a), take);
    if take <= OlderCount(w, a) {
      OlderCountPermuted(r, w, a);
      forall p | 0 <= p < take ensures Older(r[p], a) {
        UnblockedPrefixIsOlder(w, config, a, p);
      }
      OlderPrefixTaken(r, take, a);
    }
  }

  lemma OlderPrefixTaken(r: seq<RequestContext>, take: nat, a: RequestContext)
    requires take <= |r| && forall p :: 0 <= p < take ==> Older(r[p], a)
    ensures OlderCount(r[take..], a) == OlderCount(r, a) - take
  {
    hide Older, OlderCount;
    AllOlder(r[..take], a);
    OlderCountConcat(r[..take], r[take..], a);
    assert r == r[..take] + r[take..];
  }

  lemma SuffixHolds(r: seq<RequestContext>, i: nat, take: nat)
    requires DistinctIds(r) && i < |r| && take <= |r|
    ensures r[i] in r[take..] <==> take <= i
  {
    if take <= i {
      assert r[take..][i - take] == r[i];
    } else {
      forall p | 0 <= p < |r| - take ensures r[take..][p] != r[i] {
        assert r[take + p].requestId != r[i].requestId;
      }
    }
  }

  /** So every round either serves `a` or brings it closer by as many places as it serves. */
  lemma UnblockedRound(q: seq<RequestContext>, round: Round, config: PolicyConfig, a: RequestContext)
    requires DistinctIds(q) && ValidPredictions(q) && Unblocked(q, a, config)
    requires a in q && !Eligible(a, config) && ValidRound(q, round, a)
    ensures var q' := Play(q, round, config);
      && DistinctIds(q') && ValidPredictions(q') && Unblocked(q', a, config)
      && (a in q' <==> round.take <= OlderCount(q, a))
      && (a in q' ==> OlderCount(q', a) == OlderCount(q, a) - round.take)
  {
    hide Eligible, RuleC, Older, Blocks;
    var q' := Play(q, round, config);
    RoundKeepsRequests(q, round, config);
    LaterDoNotCount(q, round.adds, a);
    AdditionsDoNotBlock(q, round.adds, config, a);
    UnblockedTake(q + round.adds, round.take, config, a);
    forall k | 0 <= k < |q'| ensures q'[k].prediction.Valid() { assert q'[k] in q || q'[k] in round.adds; }
    forall u | u in q' ensures !Blocks(u, a, config) { assert u in q || u in round.adds; }
  }

  lemma AdditionsDoNotBlock(q: seq<RequestContext>, adds: seq<RequestContext>, config: PolicyConfig, a: RequestContext)
    requires a in q && Later(q, adds) && Unblocked(q, a, config)
    requires ValidPredictions(q) && ValidPredictions(adds)
    ensures Unblocked(q + adds, a, config) && Unblocked(adds, a, config) && ValidPredictions(q + adds)
  {
    hide Eligible, Older;
    var i :| 0 <= i < |q| && q[i] == a;
    forall u | u in adds ensures !Blocks(u, a, config) {
      var j :| 0 <= j < |adds| && adds[j] == u;
      OlderAsymmetric(q[i], adds[j]);
    }
    forall u | u in q + adds ensures !Blocks(u, a, config) {
      assert u in q || u in adds;
    }
  }

  lemma {:induction false} GoneStaysGone(q: seq<RequestContext>, rounds: seq<Round>, a: RequestContext, config: PolicyConfig)
    requires a !in q && ValidRun(q, rounds, a, config)
    ensures a !in PlayAll(q, rounds, a, config)
    decreases |rounds|
  {
    hide RuleC;
    if rounds != [] {
      RoundKeepsRequests(q, rounds[0], config);
      GoneStaysGone(Play(q, rounds[0], config), rounds[1..], a, config);
    }
  }

  /** An unblocked request is served within one round more than there are requests ahead of it. */
  lemma {:induction false} UnblockedIsServed(q: seq<RequestContext>, rounds: seq<Round>, a: RequestContext, config: PolicyConfig)
    requires DistinctIds(q) && ValidPredictions(q) && Unblocked(q, a, config)
    requires a in q && !Eligible(a, config) && ValidRun(q, rounds, a, config)
    ensures a in PlayAll(q, rounds, a, config) ==> |rounds| <= OlderCount(q, a)
    decreases |rounds|
  {
    hide Eligible, RuleC, Play, Older;
    if rounds != [] {
      UnblockedRound(q, rounds[0], config, a);
      var q' := Play(q, rounds[0], config);
      if a in q' {
        UnblockedIsServed(q', rounds[1..], a, config);
      } else {
        GoneStaysGone(q', rounds[1..], a, config);
      }
    }
  }

  function Added(rounds: seq<Round>): seq<RequestContext> {
    if rounds == [] then [] else rounds[0].adds + Added(rounds[1..])
  }

  /** What the engine takes in the course of a run, in order. */
  function Taken(q: seq<RequestContext>, rounds: seq<Round>, a: RequestContext, config: PolicyConfig): seq<RequestContext>
    requires ValidRun(q, rounds, a, config)
    decreases |rounds|
  {
    if rounds == [] then []
    else RuleC(q + rounds[0].adds, config)[..rounds[0].take] + Taken(Play(q, rounds[0], config), rounds[1..], a, config)
  }

  /** Over any run no request is lost or duplicated: what joined is what was taken and what still waits. */
  lemma {:induction false} RunKeepsRequests(q: seq<RequestContext>, rounds: seq<Round>, a: RequestContext, config: PolicyConfig)
    requires DistinctIds(q) && ValidRun(q, rounds, a, config)
    ensures multiset(Taken(q, rounds, a, config)) + multiset(PlayAll(q, rounds, a, config)) == multiset(q) + multiset(Added(rounds))
    ensures DistinctIds(PlayAll(q, rounds, a, config))
    decreases |rounds|
  {
    hide RuleC, Play, Later, ValidPredictions;
    if rounds != [] {
      RoundKeepsRequests(q, rounds[0], config);
      var q1 := Play(q, rounds[0], config);
      RunKeepsRequests(q1, rounds[1..], a, config);
      var first, rest := RuleC(q + rounds[0].adds, config)[..rounds[0].take], Taken(q1, rounds[1..], a, config);
      assert Taken(q, rounds, a, config) == first + rest;
      assert PlayAll(q, rounds, a, config) == PlayAll(q1, rounds[1..], a, config);
      assert multiset(first + rest) == multiset(first) + multiset(rest);
      assert multiset(rounds[0].adds + Added(rounds[1..])) == multiset(rounds[0].adds) + multiset(Added(rounds[1..]));
      Balance(multiset(first), multiset(q1), multiset(q), multiset(rounds[0].adds),
              multiset(rest), multiset(PlayAll(q1, rounds[1..], a, config)), multiset(Added(rounds[1..])));
    }
  }

  lemma Balance<T>(first: multiset<T>, between: multiset<T>, start: multiset<T>, joined: multiset<T>,
                   rest: multiset<T>, end: multiset<T>, later: multiset<T>)
    requires first + between == start + joined && rest + end == between + later
    ensures (first + rest) + end == start + (joined + later)
  {
    assert (first + rest) + end == first + (rest + end) == (first + between) + later;
  }

  /**
   While an abstained request waits, the place each reordering gives it never gets
   worse, however many rounds are played: the number of older requests is that place.
   */
  lemma {:induction false} IndexNeverGrows(q: seq<RequestContext>, rounds: seq<Round>, a: RequestContext, config: PolicyConfig)
    requires DistinctIds(q) && a in q && !Eligible(a, config)
    requires WaitsThrough(q, rounds, a, config)
    ensures var q' := PlayAll(q, rounds, a, config);
      && OlderCount(q', a) <= OlderCount(q, a) < |q|
      && OlderCount(q', a) < |q'|
      && RuleC(q, config)[OlderCount(q, a)] == a
      && RuleC(q', config)[OlderCount(q', a)] == a
    decreases |rounds|
  {
    hide RuleC, Older, Eligible, Later, OlderCount, ValidPredictions, Play;
    AbstainedIndex(q, config, a);
    if rounds != [] {
      var q1 := Play(q, rounds[0], config);
      RoundKeepsRequests(q, rounds[0], config);
      if a !in q1 {
        GoneStaysGone(q1, rounds[1..], a, config);
        assert false;
      }
      IndexNeverGrows(q1, rounds[1..], a, config);
      RoundIndex(q, rounds[0], a, config);
    }
  }

  lemma RoundIndex(q: seq<RequestContext>, round: Round, a: RequestContext, config: PolicyConfig)
    requires DistinctIds(q + round.adds) && Later(q, round.adds) && round.take <= |q| + |round.adds|
    requires a in q
    ensures OlderCount(Play(q, round, config), a) <= OlderCount(q, a)
  {
    hide RuleC, Older, OlderCount, ValidPredictions;
    var w := q + round.adds;
    var r := RuleC(w, config);
    RuleCIsRuleCOrder(w, config);
    OlderCountPermuted(r, w, a);
    LaterDoNotCount(q, round.adds, a);
    SameElements(r, w);
    assert r == r[..round.take] + r[round.take..];
    OlderCountConcat(r[..round.take], r[round.take..], a);
  }

  // ----- starvation -----

  function LatestArrival(q: seq<RequestContext>): (t: real)
    ensures forall i :: 0 <= i < |q| ==> q[i].arrival <= t
  {
    if q == [] then 0.0
    else
      var t := LatestArrival(q[1..]);
      assert forall i :: 1 <= i < |q| ==> q[i] == q[1..][i - 1];
      RMax(q[0].arrival, t)
  }

  /** An identifier longer than any in the queue. */
  function NewId(q: seq<RequestContext>): (id: string)
    ensures forall i :: 0 <= i < |q| ==> |q[i].requestId| < |id|
  {
    if q == [] then "r"
    else
      var id := NewId(q[1..]);
      assert forall i :: 1 <= i < |q| ==> q[i] == q[1..][i - 1];
      if |q[0].requestId| < |id| then id else q[0].requestId + "r"
  }

  /** A newcomer the ranker puts first. */
  function Favourite(q: seq<RequestContext>): RequestContext {
    RequestContext(NewId(q), LatestArrival(q) + 1.0, Prediction(0.0, 1.0, false, 0.0), "chat", "", 1)
  }

  lemma FavouriteIsValid(q: seq<RequestContext>, a: RequestContext)
    requires DistinctIds(q) && a in q
    ensures ValidRound(q, Round([Favourite(q)], 1), a)
  {
    hide StringLe, NewId, LatestArrival;
  }

  /** While a blocking request waits, the favourite is served instead of it and of the abstained request. */
  lemma FavouriteKeepsBothWaiting(q: seq<RequestContext>, a: RequestContext, u: RequestContext, config: PolicyConfig)
    requires DistinctIds(q) && a in q && u in q && !Eligible(a, config) && Blocks(u, a, config)
    requires config.confidenceThreshold <= 1.0
    ensures var round := Round([Favourite(q)], 1);
      && ValidRound(q, round, a)
      && DistinctIds(Play(q, round, config)) && a in Play(q, round, config) && u in Play(q, round, config)
  {
    var f := Favourite(q);
    var round := Round([f], 1);
    FavouriteIsValid(q, a);
    assert Eligible(f, config) && f.prediction.score == 0.0;
    hide Eligible, RuleC, Older, Favourite, TrustedOf;
    var w := q + [f];
    var r := RuleC(w, config);
    RoundKeepsRequests(q, round, config);
    RuleCIsRuleCOrder(w, config);
    SameElements(r, w);
    assert a in w && u in w && f in w;
    AbstainedIndex(w, config, a);
    SomeOlder(w, u, a);
    assert r[0] != a;
    if r[0] == u {
      TrustedRank(r, config, 0);
      assert TrustedOf(r[..0], config) == [] by { NoneTrusted(r[..0], config); }
      TrustedOfElements(r, config, f);
      HeadIsLeast(LtrKey, TrustedOf(r, config), f);
    }
    StillThere(r, a);
    StillThere(r, u);
  }

  lemma StillThere(r: seq<RequestContext>, x: RequestContext)
    requires x in r && r[0] != x
    ensures x in r[1..]
  {
    var i :| 0 <= i < |r| && r[i] == x;
    assert r[1..][i - 1] == x;
  }

  lemma SomeOlder(q: seq<RequestContext>, u: RequestContext, a: RequestContext)
    requires u in q && Older(u, a)
    ensures OlderCount(q, a) >= 1
  {
    hide Older;
    var i :| 0 <= i < |q| && q[i] == u;
    assert q == q[..i] + q[i..];
    OlderCountConcat(q[..i], q[i..], a);
  }

  lemma {:induction false} BlockedCanWait(q: seq<RequestContext>, a: RequestContext, u: RequestContext, config: PolicyConfig, n: nat)
      returns (rounds: seq<Round>)
    requires DistinctIds(q) && a in q && u in q && !Eligible(a, config) && Blocks(u, a, config)
    requires config.confidenceThreshold <= 1.0
    ensures |rounds| == n && ValidRun(q, rounds, a, config) && a in PlayAll(q, rounds, a, config)
    decreases n
  {
    hide Eligible, Play, ValidRound, Favourite, Blocks;
    if n == 0 {
      rounds := [];
    } else {
      FavouriteKeepsBothWaiting(q, a, u, config);
      var round := Round([Favourite(q)], 1);
      var rest := BlockedCanWait(Play(q, round, config), a, u, config, n - 1);
      rounds := [round] + rest;
      assert rounds[1..] == rest;
    }
  }

  /**
   Starvation, exactly. The documentation says the rule cannot starve a request by
   failing to understand it. It can: an abstained request may be kept waiting
   through any number of rounds if and only if some older waiting request is
   trusted with a positive score.
   */
  lemma StarvesIffBlocked(q: seq<RequestContext>, a: RequestContext, config: PolicyConfig)
    requires DistinctIds(q) && ValidPredictions(q) && a in q && !Eligible(a, config)
    ensures CanStarve(q, a, config) <==> exists u :: u in q && Blocks(u, a, config)
  {
    hide Eligible, Blocks;
    if exists u :: u in q && Blocks(u, a, config) {
      var u :| u in q && Blocks(u, a, config);
      BlockerBoundsThreshold(q, u, a, config);
      forall n: nat ensures CanWait(q, a, config, n) {
        var rounds := BlockedCanWait(q, a, u, config, n);
        assert WaitsThrough(q, rounds, a, config);
      }
    } else if CanStarve(q, a, config) {
      var n := OlderCount(q, a) + 1;
      assert CanWait(q, a, config, n);
      var rounds :| |rounds| == n && WaitsThrough(q, rounds, a, config);
      UnblockedIsServed(q, rounds, a, config);
    }
  }

  lemma BlockerBoundsThreshold(q: seq<RequestContext>, u: RequestContext, a: RequestContext, config: PolicyConfig)
    requires ValidPredictions(q) && u in q && Blocks(u, a, config)
    ensures config.confidenceThreshold <= 1.0
  {
    assert u.prediction.Valid();
  }
}
