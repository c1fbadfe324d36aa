/** What slot-preserving reordering does, what determines it, and where its documentation overstates it. */
module RuleCTheorems {
  import opened Orders
  import opened Sorting
  import opened Policies

  ghost predicate DistinctIds(s: seq<RequestContext>) {
    forall i, j :: 0 <= i < j < |s| ==> s[i].requestId != s[j].requestId
  }

  lemma DistinctIdsGiveDistinctKeys(s: seq<RequestContext>)
    requires DistinctIds(s)
    ensures DistinctKeys(FcfsKey, s) && DistinctKeys(LtrKey, s)
  {
  }

  function IdKey(item: RequestContext): Key { Key(0.0, 0.0, item.requestId) }

  lemma DistinctIdsOfPart(a: seq<RequestContext>, b: seq<RequestContext>)
    requires DistinctIds(a) && multiset(b) <= multiset(a)
    ensures DistinctIds(b)
  {
    assert DistinctKeys(IdKey, a);
    DistinctKeysOfPart(IdKey, a, b);
    forall i, j | 0 <= i < j < |b| ensures b[i].requestId != b[j].requestId {
      assert IdKey(b[i]) != IdKey(b[j]);
    }
  }

  lemma DistinctIdsPermuted(a: seq<RequestContext>, b: seq<RequestContext>)
    requires DistinctIds(a) && multiset(a) == multiset(b)
    ensures DistinctIds(b)
  {
    DistinctIdsOfPart(a, b);
  }

  // ----- trusted and abstained requests -----

  function AbstainedOf(s: seq<RequestContext>, config: PolicyConfig): seq<RequestContext> {
    if s == [] then []
    else
      var n := |s| - 1;
      AbstainedOf(s[..n], config) + if Eligible(s[n], config) then [] else [s[n]]
  }

  lemma JoinsOne<T>(a: seq<T>, b: seq<T>, x: T)
    ensures multiset(a + [x]) + multiset(b + []) == multiset(a) + multiset(b) + multiset{x}
    ensures multiset(a + []) + multiset(b + [x]) == multiset(a) + multiset(b) + multiset{x}
  {
    assert a + [] == a && b + [] == b;
  }

  lemma {:induction false} TrustedAndAbstained(s: seq<RequestContext>, config: PolicyConfig)
    ensures multiset(TrustedOf(s, config)) + multiset(AbstainedOf(s, config)) == multiset(s)
  {
    hide Eligible;
    if s != [] {
      var n := |s| - 1;
      TrustedAndAbstained(s[..n], config);
      assert s == s[..n] + [s[n]];
      JoinsOne(TrustedOf(s[..n], config), AbstainedOf(s[..n], config), s[n]);
    }
  }

  lemma {:induction false} TrustedOfElements(s: seq<RequestContext>, config: PolicyConfig, x: RequestContext)
    ensures x in TrustedOf(s, config) <==> x in s && Eligible(x, config)
  {
    hide Eligible;
    if s != [] {
      var n := |s| - 1;
      TrustedOfElements(s[..n], config, x);
      assert s == s[..n] + [s[n]];
    }
  }

  lemma {:induction false} TrustedOfAppend(a: seq<RequestContext>, b: seq<RequestContext>, config: PolicyConfig)
    ensures TrustedOf(a + b, config) == TrustedOf(a, config) + TrustedOf(b, config)
  {
    hide Eligible;
    if b == [] {
      assert a + b == a && TrustedOf(a, config) + [] == TrustedOf(a, config);
    } else {
      var n := |b| - 1;
      TrustedOfAppend(a, b[..n], config);
      assert (a + b)[..|a| + n] == a + b[..n];
    }
  }

  lemma {:induction false} TrustedOfDistinct(s: seq<RequestContext>, config: PolicyConfig)
    requires DistinctIds(s)
    ensures DistinctIds(TrustedOf(s, config))
  {
    hide Eligible;
    if s != [] {
      var n := |s| - 1;
      TrustedOfDistinct(s[..n], config);
      var t := TrustedOf(s[..n], config);
      forall i | 0 <= i < |t| ensures t[i].requestId != s[n].requestId {
        TrustedOfElements(s[..n], config, t[i]);
      }
    }
  }

  // ----- filling -----

  /** `r` keeps the slots of `base`: abstained requests in place, trusted requests in trusted slots. */
  ghost predicate SlotPreserving(base: seq<RequestContext>, r: seq<RequestContext>, config: PolicyConfig) {
    && |r| == |base|
    && (forall i :: 0 <= i < |base| ==> (Eligible(r[i], config) <==> Eligible(base[i], config)))
    && (forall i :: 0 <= i < |base| && !Eligible(base[i], config) ==> r[i] == base[i])
  }

  lemma {:induction false} SameTrustedCount(base: seq<RequestContext>, r: seq<RequestContext>, config: PolicyConfig)
    requires SlotPreserving(base, r, config)
    ensures |TrustedOf(r, config)| == |TrustedOf(base, config)|
    ensures AbstainedOf(r, config) == AbstainedOf(base, config)
  {
    hide Eligible;
    if base != [] {
      var n := |base| - 1;
      SameTrustedCount(base[..n], r[..n], config);
    }
  }

  /** A slot-preserving list is the filling of the slots with its own trusted requests. */
  lemma SlotPreservingIsFill(base: seq<RequestContext>, r: seq<RequestContext>, config: PolicyConfig)
    requires SlotPreserving(base, r, config)
    ensures |TrustedOf(r, config)| == |TrustedOf(base, config)|
    ensures r == Fill(base, TrustedOf(r, config), config)
  {
    hide Eligible, TrustedOf;
    SameTrustedCount(base, r, config);
    forall i | 0 <= i < |base| ensures r[i] == Fill(base, TrustedOf(r, config), config)[i] {
      if Eligible(base[i], config) {
        TrustedRank(r, config, i);
        SameTrustedCount(base[..i], r[..i], config);
      }
    }
  }

  lemma FillIsSlotPreserving(base: seq<RequestContext>, trusted: seq<RequestContext>, config: PolicyConfig)
    requires |trusted| == |TrustedOf(base, config)|
    requires forall k :: 0 <= k < |trusted| ==> Eligible(trusted[k], config)
    ensures SlotPreserving(base, Fill(base, trusted, config), config)
  {
    hide Eligible, TrustedOf;
    forall i | 0 <= i < |base| && Eligible(base[i], config) ensures Eligible(Fill(base, trusted, config)[i], config) {
      TrustedRank(base, config, i);
    }
  }

  /** The trusted requests of a filling are those it was filled with, in that order. */
  lemma TrustedOfFill(base: seq<RequestContext>, trusted: seq<RequestContext>, config: PolicyConfig)
    requires |trusted| == |TrustedOf(base, config)|
    requires forall k :: 0 <= k < |trusted| ==> Eligible(trusted[k], config)
    ensures TrustedOf(Fill(base, trusted, config), config) == trusted
  {
    TrustedOfFillPrefix(base, trusted, config, |base|);
    var r := Fill(base, trusted, config);
    assert r[..|base|] == r && base[..|base|] == base;
    assert trusted[..|trusted|] == trusted;
  }

  lemma {:induction false} TrustedOfFillPrefix(base: seq<RequestContext>, trusted: seq<RequestContext>, config: PolicyConfig, n: nat)
    requires |trusted| == |TrustedOf(base, config)| && n <= |base|
    requires forall k :: 0 <= k < |trusted| ==> Eligible(trusted[k], config)
    ensures |TrustedOf(base[..n], config)| <= |trusted|
    ensures TrustedOf(Fill(base, trusted, config)[..n], config) == trusted[..|TrustedOf(base[..n], config)|]
    decreases n
  {
    hide Eligible;
    TrustedOfMonotone(base, config, n, |base|);
    assert base[..|base|] == base;
    if n > 0 {
      var r := Fill(base, trusted, config);
      TrustedOfFillPrefix(base, trusted, config, n - 1);
      assert r[..n][..n - 1] == r[..n - 1] && base[..n][..n - 1] == base[..n - 1];
      if Eligible(base[n - 1], config) {
        TrustedRank(base, config, n - 1);
      }
    }
  }

  // ----- what rule C returns -----

  lemma SortedTrusted(waiting: seq<RequestContext>, config: PolicyConfig)
      returns (fcfs: seq<RequestContext>, trusted: seq<RequestContext>)
    ensures fcfs == Sort(FcfsKey, waiting) && SortedBy(FcfsKey, fcfs)
    ensures trusted == Sort(LtrKey, TrustedOf(fcfs, config)) && SortedBy(LtrKey, trusted)
    ensures forall k :: 0 <= k < |trusted| ==> Eligible(trusted[k], config) && trusted[k] in fcfs
    ensures RuleC(waiting, config) == Fill(fcfs, trusted, config)
  {
    hide Eligible, Fill;
    fcfs := Sort(FcfsKey, waiting);
    trusted := Sort(LtrKey, TrustedOf(fcfs, config));
    SortIsSorted(FcfsKey, waiting);
    SortIsSorted(LtrKey, TrustedOf(fcfs, config));
    SameElements(trusted, TrustedOf(fcfs, config));
    hide Sort, TrustedOf;
    forall k | 0 <= k < |trusted| ensures Eligible(trusted[k], config) && trusted[k] in fcfs {
      assert trusted[k] in trusted;
      TrustedOfElements(fcfs, config, trusted[k]);
    }
  }

  /** `r` is a rule-C order of `waiting`: same requests, FCFS slots kept, trusted ones in the ranker's order. */
  ghost predicate RuleCOrder(waiting: seq<RequestContext>, r: seq<RequestContext>, config: PolicyConfig) {
    && multiset(r) == multiset(waiting)
    && SlotPreserving(Sort(FcfsKey, waiting), r, config)
    && SortedBy(LtrKey, TrustedOf(r, config))
  }

  /** No request is lost, each abstained one sits at its FCFS index, the trusted ones fill the trusted slots by rank. */
  lemma RuleCIsRuleCOrder(waiting: seq<RequestContext>, config: PolicyConfig)
    ensures RuleCOrder(waiting, RuleC(waiting, config), config)
  {
    hide Eligible, Sort, Fill, TrustedOf, AbstainedOf, RuleC;
    var fcfs, trusted := SortedTrusted(waiting, config);
    var r := RuleC(waiting, config);
    FillIsSlotPreserving(fcfs, trusted, config);
    TrustedOfFill(fcfs, trusted, config);
    SameTrustedCount(fcfs, r, config);
    TrustedAndAbstained(r, config);
    TrustedAndAbstained(fcfs, config);
    assert multiset(trusted) == multiset(TrustedOf(fcfs, config));
  }

  /** These three facts determine the order: nothing else about the implementation matters. */
  lemma RuleCOrderIsUnique(waiting: seq<RequestContext>, r: seq<RequestContext>, config: PolicyConfig)
    requires DistinctIds(waiting) && RuleCOrder(waiting, r, config)
    ensures r == RuleC(waiting, config)
  {
    hide Eligible, Sort, Fill, TrustedOf, AbstainedOf, RuleC;
    var fcfs, trusted := SortedTrusted(waiting, config);
    SlotPreservingIsFill(fcfs, r, config);
    SameTrustedCount(fcfs, r, config);
    TrustedAndAbstained(r, config);
    TrustedAndAbstained(fcfs, config);
    var own := TrustedOf(r, config);
    assert multiset(own) == multiset(r) - multiset(AbstainedOf(r, config));
    assert multiset(TrustedOf(fcfs, config)) == multiset(fcfs) - multiset(AbstainedOf(fcfs, config));
    DistinctIdsPermuted(waiting, r);
    TrustedOfDistinct(r, config);
    DistinctIdsGiveDistinctKeys(own);
    SortedArrangementUnique(LtrKey, own, trusted);
  }

  /** The input order of the queue does not matter. */
  lemma RuleCIgnoresInputOrder(a: seq<RequestContext>, b: seq<RequestContext>, config: PolicyConfig)
    requires DistinctIds(a) && multiset(a) == multiset(b)
    ensures RuleC(a, config) == RuleC(b, config)
  {
    hide Fill, TrustedOf, Sort;
    DistinctIdsGiveDistinctKeys(a);
    SortIgnoresInputOrder(FcfsKey, a, b);
  }

  lemma {:induction false} AllTrusted(s: seq<RequestContext>, config: PolicyConfig)
    requires forall i :: 0 <= i < |s| ==> Eligible(s[i], config)
    ensures TrustedOf(s, config) == s
  {
    hide Eligible;
    if s != [] {
      AllTrusted(s[..|s| - 1], config);
      assert s == s[..|s| - 1] + [s[|s| - 1]];
    }
  }

  lemma {:induction false} NoneTrusted(s: seq<RequestContext>, config: PolicyConfig)
    requires forall i :: 0 <= i < |s| ==> !Eligible(s[i], config)
    ensures TrustedOf(s, config) == []
  {
    hide Eligible;
    if s != [] { NoneTrusted(s[..|s| - 1], config); }
  }

  /** With nobody trusted, rule C is first come, first served. */
  lemma RuleCWithoutTrust(waiting: seq<RequestContext>, config: PolicyConfig)
    requires forall i :: 0 <= i < |waiting| ==> !Eligible(waiting[i], config)
    ensures RuleC(waiting, config) == Sort(FcfsKey, waiting)
  {
    hide Eligible, Sort, Fill;
    var fcfs := Sort(FcfsKey, waiting);
    SameElements(fcfs, waiting);
    forall i | 0 <= i < |fcfs| ensures !Eligible(fcfs[i], config) { assert fcfs[i] in waiting; }
    NoneTrusted(fcfs, config);
    FewTrusted(fcfs, config);
  }

  /** With everybody trusted, it is the pure ranker order. */
  lemma RuleCWithFullTrust(waiting: seq<RequestContext>, now: real, config: PolicyConfig)
    requires DistinctIds(waiting) && config.deadlineMs > 0.0
    requires forall i :: 0 <= i < |waiting| ==> Eligible(waiting[i], config)
    ensures RuleC(waiting, config) == OrderWaiting(waiting, PureLtr, now, config)
  {
    hide Eligible, Sort, Fill, TrustedOf, RuleC;
    var fcfs, trusted := SortedTrusted(waiting, config);
    SameElements(fcfs, waiting);
    forall i | 0 <= i < |fcfs| ensures Eligible(fcfs[i], config) { assert fcfs[i] in waiting; }
    AllTrusted(fcfs, config);
    DistinctIdsGiveDistinctKeys(waiting);
    SortIgnoresInputOrder(LtrKey, waiting, fcfs);
    FillIsSlotPreserving(fcfs, trusted, config);
    TrustedOfFill(fcfs, trusted, config);
    RuleCIsRuleCOrder(waiting, config);
    var r := RuleC(waiting, config);
    assert forall i :: 0 <= i < |r| ==> Eligible(r[i], config);
    AllTrusted(r, config);
    PureLtrSortsByRank(waiting, now, config);
  }

  lemma PureLtrSortsByRank(waiting: seq<RequestContext>, now: real, config: PolicyConfig)
    requires DistinctIds(waiting) && config.deadlineMs > 0.0
    ensures OrderWaiting(waiting, PureLtr, now, config) == Sort(LtrKey, waiting)
  {
    hide Sort;
    var key := PolicyKey(PureLtr, now, |waiting|, config);
    SortIsSorted(key, waiting);
    SortIsSorted(LtrKey, waiting);
    var a, b := Sort(key, waiting), Sort(LtrKey, waiting);
    forall i, j | 0 <= i < j < |a| ensures KeyLe(LtrKey(a[i]), LtrKey(a[j])) {
      assert key(a[i]) == LtrKey(a[i]) && key(a[j]) == LtrKey(a[j]);
    }
    DistinctIdsPermuted(waiting, a);
    DistinctIdsGiveDistinctKeys(a);
    SortedArrangementUnique(LtrKey, a, b);
  }

  // ----- overtaking -----

  /** No trusted request that arrived after the abstained one at FCFS index `a` is ahead of it in `r`. */
  ghost predicate NotOvertaken(fcfs: seq<RequestContext>, r: seq<RequestContext>, config: PolicyConfig, a: nat)
    requires a < |fcfs| == |r|
  {
    forall j :: a < j < |fcfs| && Eligible(fcfs[j], config) ==> fcfs[j] !in r[..a]
  }

  /** Every trusted request ahead of index `a` ranks no worse than every trusted one behind it. */
  ghost predicate RanksAgreeAcross(fcfs: seq<RequestContext>, config: PolicyConfig, a: nat)
    requires a < |fcfs|
  {
    forall i, j :: 0 <= i < a < j < |fcfs| && Eligible(fcfs[i], config) && Eligible(fcfs[j], config) ==>
      KeyLe(LtrKey(fcfs[i]), LtrKey(fcfs[j]))
  }

  lemma MultisetOfDistinct(a: seq<RequestContext>, b: seq<RequestContext>)
    requires DistinctIds(a) && |a| == |b|
    requires forall x :: x in a ==> x in b
    ensures multiset(a) == multiset(b)
  {
    forall x ensures multiset(a)[x] <= multiset(b)[x] {
      assert DistinctKeys(IdKey, a);
      DistinctKeysGiveCountOne(IdKey, a, x);
      if x in multiset(a) { assert x in b; }
    }
    assert multiset(a) <= multiset(b);
    assert multiset(b) == (multiset(b) - multiset(a)) + multiset(a);
    assert |multiset(b) - multiset(a)| == 0;
  }

  /** What is trusted ahead of an abstained request, and behind it. */
  lemma SplitAtAbstained(fcfs: seq<RequestContext>, config: PolicyConfig, a: nat)
    requires a < |fcfs| && !Eligible(fcfs[a], config) && DistinctIds(fcfs)
    ensures TrustedOf(fcfs, config) == TrustedOf(fcfs[..a], config) + TrustedOf(fcfs[a + 1..], config)
    ensures DistinctIds(TrustedOf(fcfs, config))
    ensures DistinctIds(TrustedOf(fcfs[..a], config)) && DistinctIds(TrustedOf(fcfs[a + 1..], config))
  {
    hide Eligible, TrustedOf;
    assert fcfs == fcfs[..a] + ([fcfs[a]] + fcfs[a + 1..]);
    TrustedOfAppend(fcfs[..a], [fcfs[a]] + fcfs[a + 1..], config);
    TrustedOfAppend([fcfs[a]], fcfs[a + 1..], config);
    NoneTrusted([fcfs[a]], config);
    TrustedOfDistinct(fcfs, config);
    TrustedOfDistinct(fcfs[..a], config);
    TrustedOfDistinct(fcfs[a + 1..], config);
  }

  lemma OlderTrustedIndex(fcfs: seq<RequestContext>, config: PolicyConfig, a: nat, x: RequestContext) returns (i: nat)
    requires a <= |fcfs| && x in TrustedOf(fcfs[..a], config)
    ensures i < a && fcfs[i] == x && Eligible(x, config)
  {
    hide Eligible, TrustedOf;
    TrustedOfElements(fcfs[..a], config, x);
    i :| 0 <= i < a && fcfs[..a][i] == x;
  }

  lemma YoungerTrustedIndex(fcfs: seq<RequestContext>, config: PolicyConfig, a: nat, x: RequestContext) returns (j: nat)
    requires a < |fcfs| && x in TrustedOf(fcfs[a + 1..], config)
    ensures a < j < |fcfs| && fcfs[j] == x && Eligible(x, config)
  {
    hide Eligible, TrustedOf;
    TrustedOfElements(fcfs[a + 1..], config, x);
    var k :| 0 <= k < |fcfs| - a - 1 && fcfs[a + 1..][k] == x;
    j := a + 1 + k;
  }

  /** Two sorted halves, the first entirely ranked before the second, make one sorted list. */
  lemma SortedHalves(a: seq<RequestContext>, b: seq<RequestContext>)
    requires SortedBy(LtrKey, a) && SortedBy(LtrKey, b)
    requires forall i, j :: 0 <= i < |a| && 0 <= j < |b| ==> KeyLe(LtrKey(a[i]), LtrKey(b[j]))
    ensures SortedBy(LtrKey, a + b)
  {
  }

  /** If ranks agree across an abstained request, the trusted requests ahead of it stay ahead of it. */
  lemma AgreementKeepsSides(fcfs: seq<RequestContext>, config: PolicyConfig, a: nat)
    requires a < |fcfs| && !Eligible(fcfs[a], config) && DistinctIds(fcfs)
    requires RanksAgreeAcross(fcfs, config, a)
    ensures var older := TrustedOf(fcfs[..a], config);
      var trusted := Sort(LtrKey, TrustedOf(fcfs, config));
      |older| <= |trusted| && trusted[..|older|] == Sort(LtrKey, older)
  {
    hide Eligible, TrustedOf, Sort;
    SplitAtAbstained(fcfs, config, a);
    var older, younger := TrustedOf(fcfs[..a], config), TrustedOf(fcfs[a + 1..], config);
    var trusted := Sort(LtrKey, TrustedOf(fcfs, config));
    var p, q := Sort(LtrKey, older), Sort(LtrKey, younger);
    SortIsSorted(LtrKey, older);
    SortIsSorted(LtrKey, younger);
    SortIsSorted(LtrKey, TrustedOf(fcfs, config));
    SameElements(p, older);
    SameElements(q, younger);
    forall i, j | 0 <= i < |p| && 0 <= j < |q| ensures KeyLe(LtrKey(p[i]), LtrKey(q[j])) {
      assert p[i] in older && q[j] in younger;
      var k := OlderTrustedIndex(fcfs, config, a, p[i]);
      var l := YoungerTrustedIndex(fcfs, config, a, q[j]);
    }
    SortedHalves(p, q);
    DistinctIdsPermuted(TrustedOf(fcfs, config), trusted);
    DistinctIdsGiveDistinctKeys(trusted);
    assert multiset(p + q) == multiset(older) + multiset(younger) == multiset(older + younger);
    SortedArrangementUnique(LtrKey, trusted, p + q);
  }

  lemma SecondHalves(all: seq<RequestContext>, first: seq<RequestContext>, second: seq<RequestContext>)
    requires multiset(all) == multiset(first + second) && |first| <= |all|
    requires DistinctIds(all) && forall x :: x in all[..|first|] ==> x in first
    ensures forall x :: x in first ==> x in all[..|first|]
    ensures forall x :: x in second ==> x in all[|first|..]
  {
    var a, b := all[..|first|], all[|first|..];
    assert all == a + b;
    MultisetOfDistinct(a, first);
    SameElements(a, first);
    assert multiset(b) == multiset(all) - multiset(a);
    assert multiset(second) == multiset(first + second) - multiset(first);
    SameElements(b, second);
  }

  /** If no younger trusted request got ahead, the first trusted slots hold exactly the older trusted requests. */
  lemma SidesKeptGivesAgreement(fcfs: seq<RequestContext>, config: PolicyConfig, a: nat)
    requires a < |fcfs| && !Eligible(fcfs[a], config) && DistinctIds(fcfs)
    requires var older := TrustedOf(fcfs[..a], config);
      var trusted := Sort(LtrKey, TrustedOf(fcfs, config));
      |older| <= |trusted| && forall x :: x in trusted[..|older|] ==> x in older
    ensures RanksAgreeAcross(fcfs, config, a)
  {
    hide Eligible, TrustedOf, Sort;
    SplitAtAbstained(fcfs, config, a);
    var older, younger := TrustedOf(fcfs[..a], config), TrustedOf(fcfs[a + 1..], config);
    var trusted := Sort(LtrKey, TrustedOf(fcfs, config));
    SortIsSorted(LtrKey, TrustedOf(fcfs, config));
    DistinctIdsPermuted(TrustedOf(fcfs, config), trusted);
    var first, second := trusted[..|older|], trusted[|older|..];
    SecondHalves(trusted, older, younger);
    forall i, j | 0 <= i < a < j < |fcfs| && Eligible(fcfs[i], config) && Eligible(fcfs[j], config)
      ensures KeyLe(LtrKey(fcfs[i]), LtrKey(fcfs[j]))
    {
      assert fcfs[i] == fcfs[..a][i] && fcfs[j] == fcfs[a + 1..][j - a - 1];
      TrustedOfElements(fcfs[..a], config, fcfs[i]);
      TrustedOfElements(fcfs[a + 1..], config, fcfs[j]);
      var k :| 0 <= k < |first| && first[k] == fcfs[i];
      var l :| 0 <= l < |second| && second[l] == fcfs[j];
      assert trusted[k] == fcfs[i] && trusted[|older| + l] == fcfs[j];
    }
  }

  /** The trusted requests that rule C puts ahead of an FCFS index. */
  lemma TrustedAhead(waiting: seq<RequestContext>, config: PolicyConfig, a: nat)
    requires a <= |waiting|
    ensures var fcfs := Sort(FcfsKey, waiting);
      var trusted := Sort(LtrKey, TrustedOf(fcfs, config));
      && |TrustedOf(fcfs[..a], config)| <= |trusted|
      && TrustedOf(RuleC(waiting, config)[..a], config) == trusted[..|TrustedOf(fcfs[..a], config)|]
  {
    hide Eligible, TrustedOf, Sort, Fill, RuleC;
    var fcfs, trusted := SortedTrusted(waiting, config);
    TrustedOfFillPrefix(fcfs, trusted, config, a);
  }

  /**
   When rule C meets its documentation. An abstained request is overtaken by no
   younger trusted one exactly when every trusted request ahead of it in FCFS
   order also ranks before every trusted request behind it.
   */
  lemma NotOvertakenIffRanksAgree(waiting: seq<RequestContext>, config: PolicyConfig, a: nat)
    requires DistinctIds(waiting) && a < |waiting|
    requires !Eligible(Sort(FcfsKey, waiting)[a], config)
    ensures var fcfs := Sort(FcfsKey, waiting);
      NotOvertaken(fcfs, RuleC(waiting, config), config, a) <==> RanksAgreeAcross(fcfs, config, a)
  {
    hide Eligible, TrustedOf, Sort, RuleC;
    var fcfs := Sort(FcfsKey, waiting);
    var r := RuleC(waiting, config);
    DistinctIdsPermuted(waiting, fcfs);
    TrustedAhead(waiting, config, a);
    var older := TrustedOf(fcfs[..a], config);
    var trusted := Sort(LtrKey, TrustedOf(fcfs, config));
    if RanksAgreeAcross(fcfs, config, a) {
      AgreementKeepsSides(fcfs, config, a);
      forall j | a < j < |fcfs| && Eligible(fcfs[j], config) ensures fcfs[j] !in r[..a] {
        TrustedOfElements(r[..a], config, fcfs[j]);
        SameElements(Sort(LtrKey, older), older);
        TrustedOfElements(fcfs[..a], config, fcfs[j]);
        assert fcfs[j] !in fcfs[..a];
      }
    }
    if NotOvertaken(fcfs, r, config, a) {
      SplitAtAbstained(fcfs, config, a);
      SameElements(trusted, TrustedOf(fcfs, config));
      forall x | x in trusted[..|older|] ensures x in older {
        assert x in TrustedOf(fcfs, config);
        TrustedOfElements(r[..a], config, x);
        if x !in older {
          var j := YoungerTrustedIndex(fcfs, config, a, x);
        }
      }
      SidesKeptGivesAgreement(fcfs, config, a);
    }
  }

  lemma TrustedOfThree(x: RequestContext, y: RequestContext, z: RequestContext, config: PolicyConfig)
    requires Eligible(x, config) && !Eligible(y, config) && Eligible(z, config)
    ensures TrustedOf([x, y, z], config) == [x, z]
  {
    hide Eligible, TrustedOf;
    AllTrusted([x], config);
    NoneTrusted([y], config);
    AllTrusted([z], config);
    TrustedOfAppend([y], [z], config);
    TrustedOfAppend([x], [y] + [z], config);
    assert [x] + ([y] + [z]) == [x, y, z] && [x] + ([] + [z]) == [x, z];
  }

  /** Three requests suffice: a trusted one behind an abstained one, with a better score than the one ahead of it. */
  lemma OvertakingHappens(t1: RequestContext, a: RequestContext, t2: RequestContext, config: PolicyConfig)
    requires Eligible(t1, config) && !Eligible(a, config) && Eligible(t2, config)
    requires t1.arrival < a.arrival < t2.arrival && t2.prediction.score < t1.prediction.score
    requires DistinctIds([t1, a, t2])
    ensures RuleC([t1, a, t2], config) == [t2, a, t1]
  {
    hide Eligible, Sort, RuleC, TrustedOf, SortedBy, KeyLe, SlotPreserving;
    var waiting, r := [t1, a, t2], [t2, a, t1];
    InOrder3(t1, a, t2);
    SortOfSorted(FcfsKey, waiting);
    TrustedOfThree(t2, a, t1, config);
    Swapped3(t1, a, t2, config);
    assert multiset(r) == multiset(waiting);
    RuleCOrderIsUnique(waiting, r, config);
  }

  lemma InOrder3(x: RequestContext, y: RequestContext, z: RequestContext)
    requires x.arrival < y.arrival < z.arrival
    ensures SortedBy(FcfsKey, [x, y, z])
  {
    hide StringLe;
  }

  lemma Swapped3(t1: RequestContext, a: RequestContext, t2: RequestContext, config: PolicyConfig)
    requires Eligible(t1, config) && !Eligible(a, config) && Eligible(t2, config)
    requires t2.prediction.score < t1.prediction.score
    ensures SortedBy(LtrKey, [t2, t1])
    ensures SlotPreserving([t1, a, t2], [t2, a, t1], config)
  {
    hide StringLe, Eligible;
  }

  /** The documented claim fails on `[T1(.9), A, T2(.1)]` under the default configuration. */
  lemma OvertakingExample()
    ensures var t1 := RequestContext("t1", 1.0, Prediction(0.9, 1.0, false, 0.0), "chat", "", 1);
      var a := RequestContext("a", 2.0, Prediction(0.5, 0.0, false, 0.0), "chat", "", 1);
      var t2 := RequestContext("t2", 3.0, Prediction(0.1, 1.0, false, 0.0), "chat", "", 1);
      RuleC([t1, a, t2], DEFAULT_CONFIG) == [t2, a, t1]
  {
    hide RuleC;
    var t1 := RequestContext("t1", 1.0, Prediction(0.9, 1.0, false, 0.0), "chat", "", 1);
    var a := RequestContext("a", 2.0, Prediction(0.5, 0.0, false, 0.0), "chat", "", 1);
    var t2 := RequestContext("t2", 3.0, Prediction(0.1, 1.0, false, 0.0), "chat", "", 1);
    OvertakingHappens(t1, a, t2, DEFAULT_CONFIG);
  }
}
