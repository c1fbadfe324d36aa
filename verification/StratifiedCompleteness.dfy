/**
 When filling the splits in turn is complete: exactly when equal sums of session
 sizes come from equal sizes. Otherwise some order of the sessions leads it into a
 dead end although the splits exist.
 */
module StratifiedCompleteness {
  import opened Orders
  import opened Sorting
  import opened SessionSplit
  import opened SplitSizes
  import opened StratifiedSplits
  import opened StratifiedBuild

  function CountsOf(counts: seq<SplitCount>): (r: seq<nat>)
    ensures |r| == |counts| && forall k :: 0 <= k < |r| ==> r[k] == counts[k].count
  {
    seq(|counts|, k requires 0 <= k < |counts| => counts[k].count)
  }

  /** Disjoint selections of whole sessions with exactly the requested rows. */
  ghost predicate Splits(candidates: seq<Session<Row>>, counts: seq<SplitCount>, parts: seq<seq<Session<Row>>>, left: seq<Session<Row>>) {
    && |parts| == |counts|
    && (forall k :: 0 <= k < |parts| ==> RowCount(parts[k]) == counts[k].count)
    && multiset(Flatten(parts)) + multiset(left) == multiset(candidates)
  }

  ghost predicate Possible(candidates: seq<Session<Row>>, counts: seq<SplitCount>) {
    exists parts, left :: Splits(candidates, counts, parts, left)
  }

  // ----- sessions and their sizes -----

  lemma {:induction false} RowCountIsSum(sessions: seq<Session<Row>>)
    ensures RowCount(sessions) == Sum(Sizes(sessions))
  {
    if sessions != [] {
      var n := |sessions| - 1;
      RowCountIsSum(sessions[..n]);
      assert Sizes(sessions)[..n] == Sizes(sessions[..n]);
    }
  }

  lemma SizesConcat(a: seq<Session<Row>>, b: seq<Session<Row>>)
    ensures Sizes(a + b) == Sizes(a) + Sizes(b)
  {
  }

  lemma OneSizeLess(candidates: seq<Session<Row>>, k: nat)
    requires k < |candidates|
    ensures multiset(Sizes(candidates)) == multiset(Sizes(candidates[..k] + candidates[k + 1..])) + multiset{|candidates[k].rows|}
  {
    assert candidates == candidates[..k] + [candidates[k]] + candidates[k + 1..];
    assert Sizes([candidates[k]]) == [|candidates[k].rows|];
    hide Sizes;
    SizesConcat(candidates[..k], candidates[k + 1..]);
    SizesConcat(candidates[..k], [candidates[k]]);
    SizesConcat(candidates[..k] + [candidates[k]], candidates[k + 1..]);
  }

  lemma DropLast<T>(a: seq<T>, b: seq<T>, k: nat)
    requires a != [] && k < |b| && b[k] == a[|a| - 1] && multiset(a) == multiset(b)
    ensures multiset(a[..|a| - 1]) == multiset(b[..k] + b[k + 1..])
  {
    TakeOutLast(a);
    TakeOut(b, k);
    CancelOne(multiset(a[..|a| - 1]), multiset(b[..k] + b[k + 1..]), b[k]);
  }

  lemma LastSize(a: seq<Session<Row>>)
    requires a != []
    ensures multiset(Sizes(a)) == multiset(Sizes(a[..|a| - 1])) + multiset{|a[|a| - 1].rows|}
  {
    var n := |a| - 1;
    assert a == a[..n] + [a[n]];
    assert Sizes([a[n]]) == [|a[n].rows|];
    hide Sizes;
    SizesConcat(a[..n], [a[n]]);
  }

  lemma {:induction false} SizesElements(a: seq<Session<Row>>, b: seq<Session<Row>>)
    requires multiset(a) == multiset(b)
    ensures multiset(Sizes(a)) == multiset(Sizes(b))
  {
    hide Sizes;
    SameElements(a, b);
    if a == [] {
      assert b == [];
    } else {
      var n := |a| - 1;
      assert a[n] in a && a[n] in b;
      var k :| 0 <= k < |b| && b[k] == a[n];
      DropLast(a, b, k);
      SizesElements(a[..n], b[..k] + b[k + 1..]);
      OneSizeLess(b, k);
      LastSize(a);
    }
  }

  lemma TakeOut<T>(s: seq<T>, k: nat)
    requires k < |s|
    ensures multiset(s) == multiset(s[..k] + s[k + 1..]) + multiset{s[k]}
  {
    assert s == s[..k] + [s[k]] + s[k + 1..];
  }

  lemma TakeOutLast<T>(s: seq<T>)
    requires s != []
    ensures multiset(s) == multiset(s[..|s| - 1]) + multiset{s[|s| - 1]}
  {
    assert s == s[..|s| - 1] + [s[|s| - 1]];
  }

  lemma CancelOne<T>(m: multiset<T>, n: multiset<T>, x: T)
    requires m + multiset{x} == n + multiset{x}
    ensures m == n
  {
    assert m == (m + multiset{x}) - multiset{x};
    assert n == (n + multiset{x}) - multiset{x};
  }

  /** Sessions can be put in any order that their sizes can be put in. */
  lemma {:induction false} Arrange(candidates: seq<Session<Row>>, sizes: seq<nat>) returns (order: seq<Session<Row>>)
    requires multiset(sizes) == multiset(Sizes(candidates))
    ensures multiset(order) == multiset(candidates) && Sizes(order) == sizes
    decreases |sizes|
  {
    SameElements(sizes, Sizes(candidates));
    if sizes == [] {
      order := [];
      assert candidates == [];
    } else {
      var n := |sizes| - 1;
      assert sizes[n] in sizes && sizes[n] in Sizes(candidates);
      var k :| 0 <= k < |candidates| && Sizes(candidates)[k] == sizes[n];
      var x := candidates[k];
      assert Sizes([x]) == [sizes[n]] && |x.rows| == sizes[n];
      hide Sizes;
      var less := candidates[..k] + candidates[k + 1..];
      OneSizeLess(candidates, k);
      TakeOutLast(sizes);
      CancelOne(multiset(sizes[..n]), multiset(Sizes(less)), sizes[n]);
      var most := Arrange(less, sizes[..n]);
      SizesConcat(most, [x]);
      TakeOut(candidates, k);
      order := most + [x];
      assert sizes == sizes[..n] + [sizes[n]];
    }
  }

  lemma PickSizes(candidates: seq<Session<Row>>, chosen: set<nat>)
    ensures Sizes(Pick(candidates, chosen, false)) == Pick(Sizes(candidates), chosen, false)
  {
  }

  /** Filling depends on the sizes alone. */
  lemma {:induction false} FillsBySizes(candidates: seq<Session<Row>>, counts: seq<SplitCount>)
    ensures FillSplits(candidates, counts).Some? <==> Fills(Sizes(candidates), CountsOf(counts))
    decreases |counts|
  {
    hide Pick, Chosen, Reach, Sizes;
    if counts != [] && Reach(Sizes(candidates), counts[0].count) {
      var chosen := Chosen(Sizes(candidates), counts[0].count);
      PickSizes(candidates, chosen);
      assert CountsOf(counts)[1..] == CountsOf(counts[1..]);
      FillsBySizes(Pick(candidates, chosen, false), counts[1..]);
    }
  }

  /** And so does whether the splits exist. */
  lemma {:induction false} PossibleBySizes(candidates: seq<Session<Row>>, counts: seq<SplitCount>)
    ensures Possible(candidates, counts) <==> CanSplit(Sizes(candidates), CountsOf(counts))
    decreases |counts|
  {
    if Possible(candidates, counts) { PossibleGivesSizes(candidates, counts); }
    if CanSplit(Sizes(candidates), CountsOf(counts)) { SizesGivePossible(candidates, counts); }
  }

  lemma {:induction false} PossibleGivesSizes(candidates: seq<Session<Row>>, counts: seq<SplitCount>)
    requires Possible(candidates, counts)
    ensures CanSplit(Sizes(candidates), CountsOf(counts))
    decreases |counts|
  {
    hide Sizes, RowCount, Flatten;
    if counts != [] {
      var parts, left :| Splits(candidates, counts, parts, left);
      var first, more := parts[0], Flatten(parts[1..]) + left;
      assert parts == [first] + parts[1..];
      FlattenFront(first, parts[1..]);
      assert multiset(first + more) == multiset(candidates);
      assert Splits(more, counts[1..], parts[1..], left);
      PossibleGivesSizes(more, counts[1..]);
      RowCountIsSum(first);
      SizesElements(first + more, candidates);
      SizesConcat(first, more);
      assert SplitsOff(Sizes(candidates), Sizes(first), Sizes(more), CountsOf(counts)[0]);
      assert CountsOf(counts)[1..] == CountsOf(counts[1..]);
    }
  }

  /** Sessions realising a part and a rest given by sizes. */
  lemma SplitSessions(candidates: seq<Session<Row>>, part: seq<nat>, rest: seq<nat>)
      returns (first: seq<Session<Row>>, more: seq<Session<Row>>)
    requires multiset(part) + multiset(rest) == multiset(Sizes(candidates))
    ensures multiset(first) + multiset(more) == multiset(candidates)
    ensures Sizes(first) == part && Sizes(more) == rest
  {
    assert multiset(part + rest) == multiset(Sizes(candidates));
    var order := Arrange(candidates, part + rest);
    first, more := order[..|part|], order[|part|..];
    assert order == first + more;
    assert Sizes(first) == Sizes(order)[..|part|] && Sizes(more) == Sizes(order)[|part|..];
  }

  lemma SplitsFirst(candidates: seq<Session<Row>>, counts: seq<SplitCount>, first: seq<Session<Row>>, more: seq<Session<Row>>,
                    parts: seq<seq<Session<Row>>>, left: seq<Session<Row>>)
    requires counts != [] && RowCount(first) == counts[0].count
    requires multiset(first) + multiset(more) == multiset(candidates)
    requires Splits(more, counts[1..], parts, left)
    ensures Splits(candidates, counts, [first] + parts, left)
  {
    hide RowCount, Flatten;
    FlattenFront(first, parts);
  }

  lemma {:induction false} SizesGivePossible(candidates: seq<Session<Row>>, counts: seq<SplitCount>)
    requires CanSplit(Sizes(candidates), CountsOf(counts))
    ensures Possible(candidates, counts)
    decreases |counts|
  {
    hide RowCount, Sum, Sizes, Splits;
    if counts == [] {
      NothingToSplit(candidates, counts);
    } else {
      var c := CountsOf(counts);
      assert c[1..] == CountsOf(counts[1..]);
      var part, rest :| SplitsOff(Sizes(candidates), part, rest, c[0]) && CanSplit(rest, c[1..]);
      var first, more := SplitSessions(candidates, part, rest);
      SizesGivePossible(more, counts[1..]);
      var parts, left :| Splits(more, counts[1..], parts, left);
      RowCountIsSum(first);
      SplitsFirst(candidates, counts, first, more, parts, left);
    }
  }

  lemma NothingToSplit(candidates: seq<Session<Row>>, counts: seq<SplitCount>)
    requires counts == []
    ensures Possible(candidates, counts)
  {
    assert Splits(candidates, counts, [], candidates);
  }

  // ----- the exact condition -----

  /** In every order of the sessions, filling in turn succeeds for all counts that can be met. */
  ghost predicate AlwaysFills(candidates: seq<Session<Row>>) {
    forall order, counts :: multiset(order) == multiset(candidates) && Possible(candidates, counts) ==>
      FillSplits(order, counts).Some?
  }

  lemma PossibleInAnyOrder(candidates: seq<Session<Row>>, order: seq<Session<Row>>, counts: seq<SplitCount>)
    requires multiset(order) == multiset(candidates) && Possible(candidates, counts)
    ensures Possible(order, counts)
  {
    hide RowCount, Flatten;
    var parts, left :| Splits(candidates, counts, parts, left);
    assert Splits(order, counts, parts, left);
  }

  lemma SumsDecideInAnyOrder(a: seq<nat>, b: seq<nat>)
    requires multiset(a) == multiset(b) && SumsDecide(a)
    ensures SumsDecide(b)
  {
    SumsDecideLess(b, a);
  }

  function NamedCounts(counts: seq<nat>): (r: seq<SplitCount>)
    ensures CountsOf(r) == counts
  {
    seq(|counts|, k requires 0 <= k < |counts| => SplitCount("", counts[k]))
  }

  /** Orders and counts on which it fails, if sums do not decide. */
  lemma DeadEnd(candidates: seq<Session<Row>>) returns (order: seq<Session<Row>>, counts: seq<SplitCount>)
    requires !SumsDecide(Sizes(candidates))
    ensures multiset(order) == multiset(candidates) && Possible(candidates, counts) && FillSplits(order, counts).None?
  {
    hide Sizes, SumsDecide, CanSplit, Fills;
    var sizes, numbers := GreedyFails(Sizes(candidates));
    order := Arrange(candidates, sizes);
    counts := NamedCounts(numbers);
    PossibleBySizes(candidates, counts);
    FillsBySizes(order, counts);
  }

  /**
   Completeness, exactly. In every order of the sessions filling in turn meets all
   counts that can be met, if and only if selections of non-empty sessions with equal
   row counts always hold the same session sizes.
   */
  lemma FillingInTurnIsCompleteIff(candidates: seq<Session<Row>>)
    ensures AlwaysFills(candidates) <==> SumsDecide(Sizes(candidates))
  {
    hide Sizes, SumsDecide, CanSplit, Fills, Possible, FillSplits;
    if SumsDecide(Sizes(candidates)) {
      forall order, counts | multiset(order) == multiset(candidates) && Possible(candidates, counts)
        ensures FillSplits(order, counts).Some?
      {
        FillsWhenSumsDecide(candidates, order, counts);
      }
    } else {
      var order, counts := DeadEnd(candidates);
    }
  }

  lemma FillsWhenSumsDecide(candidates: seq<Session<Row>>, order: seq<Session<Row>>, counts: seq<SplitCount>)
    requires SumsDecide(Sizes(candidates))
    requires multiset(order) == multiset(candidates) && Possible(candidates, counts)
    ensures FillSplits(order, counts).Some?
  {
    hide Sizes, SumsDecide, CanSplit, Fills, Possible, FillSplits;
    PossibleInAnyOrder(candidates, order, counts);
    PossibleBySizes(order, counts);
    SizesElements(candidates, order);
    SumsDecideInAnyOrder(Sizes(candidates), Sizes(order));
    GreedyIsComplete(Sizes(order), CountsOf(counts));
    FillsBySizes(order, counts);
  }

  // ----- over the rows -----

  /** Sessions of one row each: sums always decide. */
  lemma SingleRowsDecide(sizes: seq<nat>)
    requires forall i :: 0 <= i < |sizes| ==> sizes[i] == 1
    ensures SumsDecide(sizes)
  {
    hide Sum;
    forall a, b | Selection(a, sizes) && Selection(b, sizes) && Sum(a) == Sum(b) ensures multiset(a) == multiset(b) {
      OnesOnly(a, sizes);
      OnesOnly(b, sizes);
    }
  }

  lemma {:induction false} OnesOnly(a: seq<nat>, sizes: seq<nat>)
    requires multiset(a) <= multiset(sizes) && forall i :: 0 <= i < |sizes| ==> sizes[i] == 1
    ensures Sum(a) == |a| && multiset(a) == multiset{}[1 := |a|]
  {
    if a != [] {
      var n := |a| - 1;
      assert a == a[..n] + [a[n]];
      assert a[n] in multiset(sizes);
      OnesOnly(a[..n], sizes);
    }
  }

  lemma {:induction false} GroupsAreUntagged(rows: seq<Row>)
    ensures forall k :: 0 <= k < |Grouping(rows)| ==> Grouping(rows)[k].bucket == 0
  {
    if rows != [] { GroupsAreUntagged(rows[..|rows| - 1]); }
  }

  lemma TaggedSizes(ranked: seq<Session<Row>>, buckets: nat)
    requires buckets > 0
    ensures Sizes(Tagged(ranked, buckets)) == Sizes(ranked)
  {
    hide BucketIndex;
  }

  /** Ranking, cutting, shuffling and interleaving keep the sizes. */
  lemma CandidateSizes(groups: seq<Session<Row>>, shuffle: Shuffle, buckets: nat)
    requires buckets > 0 && Rearranges(shuffle)
    ensures multiset(Sizes(Candidates(groups, shuffle, buckets))) == multiset(Sizes(groups))
  {
    hide Candidates, Tagged, Sort, Sizes;
    var ranked := Sort(RankKey, groups);
    CandidatesPermuteRanking(groups, shuffle, buckets);
    SizesElements(Candidates(groups, shuffle, buckets), Tagged(ranked, buckets));
    TaggedSizes(ranked, buckets);
    SizesElements(ranked, groups);
  }

  /** If sums decide, the sample is built whenever it exists, for every shuffle and every bucket count. */
  lemma BuildIsComplete(rows: seq<Row>, shuffle: Shuffle, buckets: nat, counts: seq<SplitCount>)
    requires buckets > 0 && Rearranges(shuffle)
    requires SumsDecide(Sizes(Grouping(rows))) && Possible(Grouping(rows), counts)
    ensures FillSplits(Candidates(Grouping(rows), shuffle, buckets), counts).Some?
  {
    hide Grouping, Candidates, Sizes, SumsDecide, CanSplit, Fills, Possible, FillSplits, Rearranges;
    var groups := Grouping(rows);
    var candidates := Candidates(groups, shuffle, buckets);
    PossibleBySizes(groups, counts);
    CandidateSizes(groups, shuffle, buckets);
    SumsDecideLess(Sizes(candidates), Sizes(groups));
    CanSplitMore(Sizes(groups), Sizes(candidates), CountsOf(counts));
    GreedyIsComplete(Sizes(candidates), CountsOf(counts));
    FillsBySizes(candidates, counts);
  }

  lemma {:induction false} OneBucketInterleaved<T>(s: seq<T>, depth: nat)
    requires depth <= |s|
    ensures Interleaved([s], depth) == s[depth..]
    decreases |s| - depth
  {
    assert [s][0] == s && [s][..0] == [];
    if depth < |s| {
      assert AnyDeeper([s], depth);
      OneBucketInterleaved(s, depth + 1);
      assert Column([s], depth) == [s[depth]];
    } else {
      assert !AnyDeeper([s], depth);
    }
  }

  /** With one bucket the candidates are the shuffled ranking. */
  lemma OneBucket(groups: seq<Session<Row>>, shuffle: Shuffle)
    requires forall k :: 0 <= k < |groups| ==> groups[k].bucket == 0
    ensures Candidates(groups, shuffle, 1) == shuffle(0, Sort(RankKey, groups))
  {
    hide Sort, RankKey, Interleaved, BucketStart;
    var ranked := Sort(RankKey, groups);
    SameElements(ranked, groups);
    var tagged := Tagged(ranked, 1);
    forall i | 0 <= i < |ranked| ensures tagged[i] == ranked[i] {
      BucketOfRank(i, |ranked|, 1, 0);
      assert ranked[i] in groups;
    }
    assert tagged == ranked;
    BucketStartsOrdered(|ranked|, 1, 0);
    assert BucketSlice(ranked, 1, 0, |ranked|) == ranked;
    assert ShuffledBuckets(tagged, shuffle, 1) == [shuffle(0, ranked)];
    OneBucketInterleaved(shuffle(0, ranked), 0);
  }

  function Arranging(order: seq<Session<Row>>): Shuffle {
    (b: nat, s: seq<Session<Row>>) => if multiset(s) == multiset(order) then order else s
  }

  /** Every order of the sessions is the outcome of some shuffle. */
  lemma AnyOrderOccurs(rows: seq<Row>, order: seq<Session<Row>>)
    requires multiset(order) == multiset(Grouping(rows))
    ensures Rearranges(Arranging(order)) && Candidates(Grouping(rows), Arranging(order), 1) == order
  {
    hide Grouping, Candidates, Sort;
    GroupsAreUntagged(rows);
    OneBucket(Grouping(rows), Arranging(order));
  }

  /** For every shuffle the sample of one bucket is built whenever it exists. */
  ghost predicate AlwaysBuilds(rows: seq<Row>) {
    forall shuffle: Shuffle, counts :: Rearranges(shuffle) && Possible(Grouping(rows), counts) ==>
      FillSplits(Candidates(Grouping(rows), shuffle, 1), counts).Some?
  }

  /** Over the rows a caller has: the same condition, on the session sizes that the rows group into. */
  lemma BuildIsCompleteIff(rows: seq<Row>)
    ensures AlwaysBuilds(rows) <==> SumsDecide(Sizes(Grouping(rows)))
  {
    hide Grouping, Candidates, Sizes, SumsDecide, Possible, FillSplits, Rearranges;
    if SumsDecide(Sizes(Grouping(rows))) {
      forall shuffle: Shuffle, counts | Rearranges(shuffle) && Possible(Grouping(rows), counts)
        ensures FillSplits(Candidates(Grouping(rows), shuffle, 1), counts).Some?
      {
        BuildIsComplete(rows, shuffle, 1, counts);
      }
    } else {
      var order, counts := DeadEnd(Grouping(rows));
      AnyOrderOccurs(rows, order);
    }
  }

  // ----- a concrete dead end -----

  lemma OnesBeforeTwo(chosen: set<nat>)
    requires Reach([1, 1, 2], 2) && chosen == Chosen([1, 1, 2], 2)
    ensures 0 in chosen && 1 in chosen && 2 !in chosen
  {
    var sizes: seq<nat> := [1, 1, 2];
    assert sizes[..2] == [1, 1];
    ReachOfOnes([1, 1], 2);
    ChosenSums(sizes, 2);
    ChosenUsesShortestPrefix(sizes, 2, 2);
    hide Chosen, Reach;
    assert 2 !in chosen;
    assert SumAt(sizes, chosen) == SumAt([1, 1], chosen);
    assert [1, 1][..1] == [1] && [1][..0] == [];
    assert SumAt([1, 1], chosen) == SumAt([1], chosen) + if 1 in chosen then 1 else 0;
    assert SumAt([1], chosen) == if 0 in chosen then 1 else 0;
  }

  lemma OnlyTwoIsLeft<T>(s: seq<T>, chosen: set<nat>)
    requires |s| == 3 && 0 in chosen && 1 in chosen && 2 !in chosen
    ensures Pick(s, chosen, false) == [s[2]]
  {
    assert Positions(0, chosen, false) == [];
    assert Positions(1, chosen, false) == [];
    assert Positions(2, chosen, false) == [];
    assert Positions(3, chosen, false) == [2];
  }

  lemma TwoDoesNotGiveOne()
    ensures !Reach([2], 1)
    ensures Reach([1, 1, 2], 2)
  {
    assert [2][..0] == [];
    ReachOfOnes([1, 1], 2);
    var sizes: seq<nat> := [1, 1, 2];
    assert sizes[..2] == [1, 1] && sizes[..3] == sizes;
    ReachMonotone(sizes, 2, 3, 2);
  }

  function Unshuffled(): Shuffle { (b: nat, s: seq<Session<Row>>) => s }

  /** Two sessions of one row and one of two, in the order of their prompt lengths. */
  function SmallExample(): seq<Row> {
    [Row("1", "a", 1, 0), Row("2", "b", 2, 0), Row("3", "c", 3, 0), Row("4", "c", 3, 1)]
  }

  lemma SmallExampleGroups()
    ensures var rows := SmallExample();
      Grouping(rows) == [Session("a", [rows[0]], 0), Session("b", [rows[1]], 0), Session("c", [rows[2], rows[3]], 0)]
  {
    var rows := SmallExample();
    assert rows[..3][..2][..1][..0] == [];
    assert rows[..3][..2][..1] == [rows[0]] && rows[..3][..2] == [rows[0], rows[1]];
    assert rows[..3] == [rows[0], rows[1], rows[2]];
    var a, b := Session("a", [rows[0]], 0), Session("b", [rows[1]], 0);
    assert Grouping([]) == [] && Grouping([rows[0]]) == [a];
    assert AddRow([a], rows[1]) == [a, b];
    assert Grouping(rows[..2]) == [a, b];
    var c := Session("c", [rows[2]], 0);
    assert AddRow([a, b], rows[2]) == [a, b, c];
    assert Grouping(rows[..3]) == [a, b, c];
    assert IndexOfId([a, b, c], "c") == 2;
    assert c.rows + [rows[3]] == [rows[2], rows[3]];
    assert AddRow([a, b, c], rows[3]) == [a, b, c.(rows := [rows[2], rows[3]])];
  }

  lemma SmallExampleIsRanked()
    ensures Candidates(Grouping(SmallExample()), Unshuffled(), 1) == Grouping(SmallExample())
  {
    var rows := SmallExample();
    SmallExampleGroups();
    hide Grouping, Candidates;
    var groups := Grouping(rows);
    assert [rows[0]][1..] == [] && [rows[1]][1..] == [];
    assert [rows[2], rows[3]][1..] == [rows[3]] && [rows[3]][1..] == [];
    assert PromptLengthSum([rows[0]]) == 1 && PromptLengthSum([rows[1]]) == 2;
    assert RankKey(groups[0]) == Key(1.0, 0.0, "a");
    assert RankKey(groups[1]) == Key(2.0, 0.0, "b");
    assert PromptLengthSum([rows[3]]) == 3;
    assert RankKey(groups[2]) == Key(3.0, 0.0, "c");
    assert SortedBy(RankKey, groups);
    SortOfSorted(RankKey, groups);
    OneBucket(groups, Unshuffled());
  }

  lemma SmallExampleSplits(candidates: seq<Session<Row>>, counts: seq<SplitCount>)
    requires |candidates| == 3 && Sizes(candidates) == [1, 1, 2]
    requires CountsOf(counts) == [2, 1]
    ensures Possible(candidates, counts)
  {
    hide Sizes, Sum;
    PossibleBySizes(candidates, counts);
    SumOne(1);
    SumOne(2);
    var one: seq<nat>, two: seq<nat>, ones: seq<nat> := [1], [2], [1, 1];
    var c: seq<nat> := CountsOf(counts);
    assert c[1..] == one && one[1..] == [];
    assert SplitsOff(ones, one, one, one[0]);
    assert CanSplit(one, one[1..]);
    assert CanSplit(ones, one);
    assert SplitsOff(Sizes(candidates), two, ones, c[0]);
  }

  lemma SmallExampleFails(candidates: seq<Session<Row>>, counts: seq<SplitCount>)
    requires |candidates| == 3 && Sizes(candidates) == [1, 1, 2]
    requires CountsOf(counts) == [2, 1]
    ensures FillSplits(candidates, counts).None?
  {
    hide Reach, Chosen, Pick;
    TwoDoesNotGiveOne();
    var chosen := Chosen(Sizes(candidates), 2);
    OnesBeforeTwo(chosen);
    OnlyTwoIsLeft(candidates, chosen);
    assert counts[0].count == CountsOf(counts)[0] && counts[1..][0].count == CountsOf(counts)[1];
    assert |candidates[2].rows| == Sizes(candidates)[2];
    assert Sizes([candidates[2]]) == [2];
    assert FillSplits([candidates[2]], counts[1..]).None?;
  }

  /**
   Filling the splits in turn is not complete in general: the four rows above have
   splits of two and of one row (the two-row session, then a one-row session), but the
   first split takes both one-row sessions and the second cannot be filled.
   */
  lemma FillingInTurnCanFail()
    ensures var counts := [SplitCount("first", 2), SplitCount("second", 1)];
      && Possible(Grouping(SmallExample()), counts)
      && Rearranges(Unshuffled())
      && FillSplits(Candidates(Grouping(SmallExample()), Unshuffled(), 1), counts).None?
  {
    SmallExampleGroups();
    SmallExampleIsRanked();
    hide Grouping, Candidates, FillSplits, Possible, SmallExample;
    var counts := [SplitCount("first", 2), SplitCount("second", 1)];
    assert CountsOf(counts) == [2, 1];
    assert Sizes(Grouping(SmallExample())) == [1, 1, 2];
    SmallExampleSplits(Grouping(SmallExample()), counts);
    SmallExampleFails(Grouping(SmallExample()), counts);
  }
}
