/** Filling splits in turn, seen through the sizes of the sessions alone. */
module SplitSizes {
  import opened Sorting
  import opened SessionSplit

  function Sum(s: seq<nat>): nat {
    if s == [] then 0 else Sum(s[..|s| - 1]) + s[|s| - 1]
  }

  /** Each count takes the selection of the table from what the earlier ones left. */
  predicate Fills(sizes: seq<nat>, counts: seq<nat>)
    decreases |counts|
  {
    counts == [] ||
    (Reach(sizes, counts[0]) && Fills(Pick(sizes, Chosen(sizes, counts[0]), false), counts[1..]))
  }

  /** `part` and `rest` make up the sizes, and `part` sums to `count`. */
  ghost predicate SplitsOff(sizes: seq<nat>, part: seq<nat>, rest: seq<nat>, count: nat) {
    multiset(part) + multiset(rest) == multiset(sizes) && Sum(part) == count
  }

  /** Disjoint selections with these sums exist. */
  ghost predicate CanSplit(sizes: seq<nat>, counts: seq<nat>)
    decreases |counts|
  {
    counts == [] ||
    exists part, rest :: SplitsOff(sizes, part, rest, counts[0]) && CanSplit(rest, counts[1..])
  }

  /** A selection of positive sizes. */
  ghost predicate Selection(a: seq<nat>, sizes: seq<nat>) {
    multiset(a) <= multiset(sizes) && 0 !in a
  }

  /** Selections of positive sizes with equal sums hold the same sizes. */
  ghost predicate SumsDecide(sizes: seq<nat>) {
    forall a, b :: Selection(a, sizes) && Selection(b, sizes) && Sum(a) == Sum(b) ==> multiset(a) == multiset(b)
  }

  // ----- sums and selections -----

  lemma {:induction false} SumConcat(a: seq<nat>, b: seq<nat>)
    ensures Sum(a + b) == Sum(a) + Sum(b)
  {
    if b == [] {
      assert a + b == a;
    } else {
      var n := |b| - 1;
      SumConcat(a, b[..n]);
      assert (a + b)[..|a| + n] == a + b[..n];
    }
  }

  lemma SumNothing()
    ensures Sum([]) == 0
  {
  }

  lemma SumOne(x: nat)
    ensures Sum([x]) == x
  {
    assert [x][..0] == [];
  }

  lemma {:induction false} SumPermuted(a: seq<nat>, b: seq<nat>)
    requires multiset(a) == multiset(b)
    ensures Sum(a) == Sum(b)
  {
    hide Sum;
    SameElements(a, b);
    if a != [] {
      var n := |a| - 1;
      assert a == a[..n] + [a[n]];
      assert a[n] in a && a[n] in b;
      var k :| 0 <= k < |b| && b[k] == a[n];
      assert b == b[..k] + ([b[k]] + b[k + 1..]);
      assert multiset(a[..n]) == multiset(a) - multiset{a[n]} == multiset(b[..k] + b[k + 1..]);
      SumPermuted(a[..n], b[..k] + b[k + 1..]);
      SumConcat(a[..n], [a[n]]);
      SumConcat(b[..k], b[k + 1..]);
      SumConcat(b[..k], [b[k]] + b[k + 1..]);
      SumConcat([b[k]], b[k + 1..]);
    } else {
      assert b == [];
    }
  }

  lemma {:induction false} SeqOf(m: multiset<nat>) returns (s: seq<nat>)
    ensures multiset(s) == m
    decreases |m|
  {
    if m == multiset{} {
      s := [];
    } else {
      var x :| x in m;
      s := SeqOf(m - multiset{x});
      s := s + [x];
    }
  }

  lemma {:induction false} ZeroSum(s: seq<nat>)
    requires Sum(s) == 0 && 0 !in s
    ensures s == []
  {
  }

  /** Whatever can be selected can be reached by the table. */
  lemma {:induction false} SubsetReaches(sizes: seq<nat>, part: seq<nat>)
    requires multiset(part) <= multiset(sizes)
    ensures Reach(sizes, Sum(part))
    decreases |sizes|
  {
    hide Sum;
    if sizes == [] {
      assert |multiset(part)| == 0 && part == [];
      SumNothing();
    } else {
      var n := |sizes| - 1;
      assert sizes == sizes[..n] + [sizes[n]];
      if sizes[n] in part {
        var less := SeqOf(multiset(part) - multiset{sizes[n]});
        SubsetReaches(sizes[..n], less);
        SumPermuted(part, less + [sizes[n]]);
        SumConcat(less, [sizes[n]]);
        SumOne(sizes[n]);
      } else {
        assert sizes[n] !in multiset(part);
        SubsetReaches(sizes[..n], part);
      }
    }
  }

  lemma {:induction false} SumOfPick(sizes: seq<nat>, chosen: set<nat>)
    ensures Sum(Pick(sizes, chosen, true)) == SumAt(sizes, chosen)
  {
    hide Pick, Sum;
    if sizes == [] {
      PickNothing(sizes, chosen, true);
      assert sizes[..0] == sizes;
      SumNothing();
    } else {
      var n := |sizes| - 1;
      SumOfPick(sizes[..n], chosen);
      PickPrefix(sizes, n, chosen, true);
      assert sizes[..n + 1] == sizes;
      var before := Pick(sizes[..n], chosen, true);
      assert before + [] == before;
      SumConcat(before, [sizes[n]]);
      SumOne(sizes[n]);
    }
  }

  /** The table never selects an empty session. */
  lemma {:induction false} ChosenArePositive(sizes: seq<nat>, total: nat, i: nat)
    requires Reach(sizes, total) && i in Chosen(sizes, total)
    ensures i < |sizes| && sizes[i] > 0
    decreases |sizes|
  {
    var n := |sizes| - 1;
    if Reach(sizes[..n], total) {
      ChosenArePositive(sizes[..n], total, i);
    } else if i != n {
      ChosenArePositive(sizes[..n], total - sizes[n], i);
    }
  }

  lemma ChosenIsSelection(sizes: seq<nat>, total: nat)
    requires Reach(sizes, total)
    ensures var kept := Pick(sizes, Chosen(sizes, total), true);
      Selection(kept, sizes) && Sum(kept) == total
  {
    hide Reach, Chosen, Sum;
    var chosen := Chosen(sizes, total);
    var kept := Pick(sizes, chosen, true);
    PickPartitions(sizes, chosen);
    SumOfPick(sizes, chosen);
    ChosenSums(sizes, total);
    forall k | 0 <= k < |kept| ensures kept[k] != 0 {
      ChosenArePositive(sizes, total, Positions(|sizes|, chosen, true)[k]);
    }
  }

  // ----- the positive sizes -----

  function Positive(s: seq<nat>): (r: seq<nat>)
    ensures 0 !in r
  {
    if s == [] then [] else Positive(s[..|s| - 1]) + if s[|s| - 1] == 0 then [] else [s[|s| - 1]]
  }

  function NonZero(m: multiset<nat>): multiset<nat> { m[0 := 0] }

  lemma NonZeroAdd(m: multiset<nat>, n: multiset<nat>)
    ensures NonZero(m + n) == NonZero(m) + NonZero(n)
  {
  }

  lemma NonZeroOne(x: nat)
    ensures NonZero(multiset{x}) == if x == 0 then multiset{} else multiset{x}
  {
  }

  lemma {:induction false} PositiveElements(s: seq<nat>)
    ensures multiset(Positive(s)) == NonZero(multiset(s))
  {
    if s != [] {
      hide NonZero;
      var n := |s| - 1;
      PositiveElements(s[..n]);
      assert s == s[..n] + [s[n]];
      NonZeroAdd(multiset(s[..n]), multiset{s[n]});
      NonZeroOne(s[n]);
    }
  }

  lemma {:induction false} PositiveSum(s: seq<nat>)
    ensures Sum(Positive(s)) == Sum(s)
  {
    if s != [] {
      var n := |s| - 1;
      PositiveSum(s[..n]);
      var before := Positive(s[..n]);
      assert before + [] == before;
      SumConcat(before, [s[n]]);
      SumOne(s[n]);
    }
  }

  /** A part and its rest share out the positive sizes too. */
  lemma PositiveParts(sizes: seq<nat>, part: seq<nat>, rest: seq<nat>)
    requires multiset(part) + multiset(rest) == multiset(sizes)
    ensures multiset(Positive(part)) + multiset(Positive(rest)) == multiset(Positive(sizes))
    ensures |Positive(part)| + |Positive(rest)| == |Positive(sizes)|
  {
    hide Positive, NonZero;
    PositiveElements(part);
    PositiveElements(rest);
    PositiveElements(sizes);
    NonZeroAdd(multiset(part), multiset(rest));
    assert |multiset(Positive(part)) + multiset(Positive(rest))| == |Positive(part)| + |Positive(rest)|;
  }

  lemma PositiveOfPositive(a: seq<nat>)
    requires 0 !in a
    ensures multiset(Positive(a)) == multiset(a) && |Positive(a)| == |a|
  {
    PositiveElements(a);
    assert 0 !in multiset(a);
    assert |multiset(Positive(a))| == |multiset(a)|;
  }

  // ----- when greedy filling is complete -----

  /** More sizes never hurt. */
  lemma {:induction false} CanSplitMore(sizes: seq<nat>, more: seq<nat>, counts: seq<nat>)
    requires multiset(sizes) <= multiset(more) && CanSplit(sizes, counts)
    ensures CanSplit(more, counts)
    decreases |counts|
  {
    if counts != [] {
      var part, rest :| SplitsOff(sizes, part, rest, counts[0]) && CanSplit(rest, counts[1..]);
      var extra := SeqOf(multiset(more) - multiset(sizes));
      assert multiset(rest + extra) == multiset(rest) + multiset(extra);
      assert multiset(more) == multiset(sizes) + multiset(extra);
      CanSplitMore(rest, rest + extra, counts[1..]);
      assert SplitsOff(more, part, rest + extra, counts[0]);
    }
  }

  lemma SumsDecideLess(less: seq<nat>, sizes: seq<nat>)
    requires multiset(less) <= multiset(sizes) && SumsDecide(sizes)
    ensures SumsDecide(less)
  {
    hide Sum;
    forall a, b | Selection(a, less) && Selection(b, less) && Sum(a) == Sum(b) ensures multiset(a) == multiset(b) {
      assert Selection(a, sizes) && Selection(b, sizes);
    }
  }

  /** If sums decide, the first greedy pick leaves at least what any possible first part leaves. */
  lemma GreedyLeavesEnough(sizes: seq<nat>, part: seq<nat>, rest: seq<nat>, count: nat)
    requires SumsDecide(sizes) && SplitsOff(sizes, part, rest, count)
    ensures Reach(sizes, count)
    ensures var left := Pick(sizes, Chosen(sizes, count), false);
      multiset(rest) <= multiset(left) <= multiset(sizes)
  {
    hide Reach, Chosen, Pick, Sum, Positive, NonZero;
    SubsetReaches(sizes, part);
    var chosen := Chosen(sizes, count);
    var kept, left := Pick(sizes, chosen, true), Pick(sizes, chosen, false);
    ChosenIsSelection(sizes, count);
    PickPartitions(sizes, chosen);
    PositiveSum(part);
    PositiveLess(part);
    assert Selection(Positive(part), sizes);
    assert multiset(kept) == multiset(Positive(part));
    assert multiset(left) == multiset(sizes) - multiset(kept);
  }

  lemma PositiveLess(s: seq<nat>)
    ensures multiset(Positive(s)) <= multiset(s)
  {
    PositiveElements(s);
  }

  /** If sums decide, filling in turn succeeds whenever disjoint selections exist. */
  lemma {:induction false} GreedyIsComplete(sizes: seq<nat>, counts: seq<nat>)
    requires SumsDecide(sizes) && CanSplit(sizes, counts)
    ensures Fills(sizes, counts)
    decreases |counts|
  {
    hide Reach, Chosen, Pick, SumsDecide, SplitsOff;
    if counts != [] {
      var part, rest :| SplitsOff(sizes, part, rest, counts[0]) && CanSplit(rest, counts[1..]);
      GreedyLeavesEnough(sizes, part, rest, counts[0]);
      var left := Pick(sizes, Chosen(sizes, counts[0]), false);
      CanSplitMore(rest, left, counts[1..]);
      SumsDecideLess(left, sizes);
      GreedyIsComplete(left, counts[1..]);
    }
  }

  /** What greedy filling finds exists. */
  lemma {:induction false} FillsCanSplit(sizes: seq<nat>, counts: seq<nat>)
    requires Fills(sizes, counts)
    ensures CanSplit(sizes, counts)
    decreases |counts|
  {
    hide Reach, Chosen, Pick;
    if counts != [] {
      var chosen := Chosen(sizes, counts[0]);
      var kept, left := Pick(sizes, chosen, true), Pick(sizes, chosen, false);
      ChosenIsSelection(sizes, counts[0]);
      PickPartitions(sizes, chosen);
      FillsCanSplit(left, counts[1..]);
      assert SplitsOff(sizes, kept, left, counts[0]);
    }
  }

  // ----- when it is not -----

  lemma {:induction false} PickOfConcat(a: seq<nat>, r: seq<nat>, chosen: set<nat>)
    requires forall i :: i in chosen ==> i < |a|
    ensures Pick(a + r, chosen, true) == Pick(a, chosen, true)
    ensures Pick(a + r, chosen, false) == Pick(a, chosen, false) + r
  {
    hide Pick;
    if r == [] {
      assert a + r == a && Pick(a, chosen, false) + r == Pick(a, chosen, false);
    } else {
      var n := |r| - 1;
      PickOfConcat(a, r[..n], chosen);
      var s := a + r;
      assert s[..|a| + n] == a + r[..n] && s[..|a| + n + 1] == s;
      PickPrefix(s, |a| + n, chosen, true);
      PickPrefix(s, |a| + n, chosen, false);
      assert Pick(a, chosen, true) + [] == Pick(a, chosen, true);
      assert Pick(a, chosen, false) + r == Pick(a, chosen, false) + r[..n] + [r[n]];
    }
  }

  lemma ChosenWithin(sizes: seq<nat>, total: nat, n: nat)
    requires n <= |sizes| && Reach(sizes[..n], total)
    ensures Reach(sizes, total) && forall i :: i in Chosen(sizes, total) ==> i < n
  {
    ReachMonotone(sizes, n, |sizes|, total);
    assert sizes[..|sizes|] == sizes;
    ChosenUsesShortestPrefix(sizes, total, n);
  }

  /** Asked for the sum of its first sizes, the table selects exactly those. */
  lemma PrefixIsSelected(a: seq<nat>, r: seq<nat>)
    requires 0 !in a
    ensures Reach(a + r, Sum(a)) && Pick(a + r, Chosen(a + r, Sum(a)), false) == r
  {
    hide Reach, Chosen, Pick, Sum;
    var s, total := a + r, Sum(a);
    assert s[..|a|] == a;
    SubsetReaches(a, a);
    ChosenWithin(s, total, |a|);
    var chosen := Chosen(s, total);
    PickOfConcat(a, r, chosen);
    ChosenIsSelection(s, total);
    var kept, left := Pick(a, chosen, true), Pick(a, chosen, false);
    PickPartitions(a, chosen);
    assert multiset(kept + left) == multiset(a);
    SumPermuted(kept + left, a);
    SumConcat(kept, left);
    forall k | 0 <= k < |left| ensures left[k] != 0 { assert left[k] in multiset(a); }
    ZeroSum(left);
    assert [] + r == r;
  }

  /** Every size can be split off on its own. */
  lemma {:induction false} SinglesSplit(sizes: seq<nat>, counts: seq<nat>)
    requires multiset(counts) <= multiset(sizes)
    ensures CanSplit(sizes, counts)
    decreases |counts|
  {
    if counts != [] {
      assert counts == [counts[0]] + counts[1..];
      var rest := SeqOf(multiset(sizes) - multiset{counts[0]});
      SinglesSplit(rest, counts[1..]);
      SumOne(counts[0]);
      assert SplitsOff(sizes, [counts[0]], rest, counts[0]);
    }
  }

  /** Positive counts need as many positive sizes, and with no more than that they need exactly those sizes. */
  lemma {:induction false} CountsNeedSizes(sizes: seq<nat>, counts: seq<nat>)
    requires CanSplit(sizes, counts) && 0 !in counts
    ensures |counts| <= |Positive(sizes)|
    ensures |counts| == |Positive(sizes)| ==> multiset(counts) == multiset(Positive(sizes))
    decreases |counts|
  {
    hide Sum, Positive;
    if counts != [] {
      assert counts[0] != 0;
      var part, rest :| SplitsOff(sizes, part, rest, counts[0]) && CanSplit(rest, counts[1..]);
      CountsNeedSizes(rest, counts[1..]);
      PositiveParts(sizes, part, rest);
      PositiveSum(part);
      SumNothing();
      assert Positive(part) != [];
      if |counts| == |Positive(sizes)| {
        var p := Positive(part);
        assert p == [p[0]];
        SumOne(p[0]);
        assert counts == [counts[0]] + counts[1..];
      }
    } else if |Positive(sizes)| == 0 {
      assert Positive(sizes) == [];
    }
  }

  /** Two different selections with equal sums, the second no longer than the first. */
  lemma UndecidedSelections(sizes: seq<nat>) returns (a: seq<nat>, b: seq<nat>)
    requires !SumsDecide(sizes)
    ensures Selection(a, sizes) && Selection(b, sizes) && Sum(a) == Sum(b)
    ensures |b| <= |a| && multiset(a) != multiset(b)
  {
    a, b :| Selection(a, sizes) && Selection(b, sizes) && Sum(a) == Sum(b) && multiset(a) != multiset(b);
    if |a| < |b| {
      a, b := b, a;
    }
  }

  /** What two selections leave of the positive sizes tells the selections apart. */
  lemma SameRestSameSelection(sizes: seq<nat>, a: seq<nat>, restA: seq<nat>, b: seq<nat>, restB: seq<nat>)
    requires Selection(a, sizes) && multiset(a) + multiset(restA) == multiset(sizes)
    requires Selection(b, sizes) && multiset(b) + multiset(restB) == multiset(sizes)
    ensures |a| + |Positive(restA)| == |b| + |Positive(restB)|
    ensures multiset(Positive(restA)) == multiset(Positive(restB)) ==> multiset(a) == multiset(b)
  {
    hide Positive;
    PositiveParts(sizes, a, restA);
    PositiveParts(sizes, b, restB);
    PositiveOfPositive(a);
    PositiveOfPositive(b);
    assert multiset(a) == multiset(Positive(sizes)) - multiset(Positive(restA));
    assert multiset(b) == multiset(Positive(sizes)) - multiset(Positive(restB));
  }

  /**
   Otherwise some order of the sizes is filled greedily into a dead end: ask for the
   sum of one selection, then for each of the sizes that the other one leaves.
   */
  lemma GreedyFails(sizes: seq<nat>) returns (order: seq<nat>, counts: seq<nat>)
    requires !SumsDecide(sizes)
    ensures multiset(order) == multiset(sizes) && CanSplit(sizes, counts) && !Fills(order, counts)
  {
    hide Reach, Chosen, Pick, Sum, Positive, SumsDecide;
    var a, b := UndecidedSelections(sizes);
    var withoutA := SeqOf(multiset(sizes) - multiset(a));
    var withoutB := SeqOf(multiset(sizes) - multiset(b));
    var singles := Positive(withoutB);
    order, counts := a + withoutA, [Sum(a)] + singles;
    PositiveLess(withoutB);
    SinglesSplit(withoutB, singles);
    assert counts[1..] == singles;
    assert SplitsOff(sizes, b, withoutB, counts[0]);
    PrefixIsSelected(a, withoutA);
    SameRestSameSelection(sizes, a, withoutA, b, withoutB);
    if Fills(order, counts) {
      FillsCanSplit(withoutA, singles);
      CountsNeedSizes(withoutA, singles);
      assert false;
    }
  }
}
