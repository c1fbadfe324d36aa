/**
 What the strata are: the buckets of a stratified sample follow the mean prompt length
 of whole sessions, and the rows of a sampled session come out whole and in order.
 */
module StratifiedRanking {
  import opened Orders
  import opened Sorting
  import opened SessionSplit
  import opened StratifiedSplits
  import opened StratifiedBuild

  // ----- mean prompt lengths -----

  /** Prompt lengths add up, row by row. */
  lemma {:induction false} PromptLengthsAdd(a: seq<Row>, b: seq<Row>)
    ensures PromptLengthSum(a + b) == PromptLengthSum(a) + PromptLengthSum(b)
    ensures |a| == 1 ==> PromptLengthSum(a) == a[0].promptLength
  {
    if a == [] {
      assert a + b == b;
    } else {
      assert (a + b)[1..] == a[1..] + b;
      PromptLengthsAdd(a[1..], b);
    }
  }

  /** The rows of `x` have a smaller mean prompt length than those of `y`, both not empty. */
  predicate SmallerMean(x: seq<Row>, y: seq<Row>) {
    PromptLengthSum(x) * |y| < PromptLengthSum(y) * |x|
  }

  predicate SameMean(x: seq<Row>, y: seq<Row>) {
    PromptLengthSum(x) * |y| == PromptLengthSum(y) * |x|
  }

  /** Session `a` of these rows is ranked before session `b`: smaller mean prompt length, ties by id. */
  predicate RankedBefore(rows: seq<Row>, a: string, b: string) {
    var x, y := RowsOf(rows, a), RowsOf(rows, b);
    SmallerMean(x, y) || (SameMean(x, y) && a != b && StringLe(a, b))
  }

  /** The ranking key compares mean prompt lengths, then ids. */
  lemma RankKeyOrder(x: Session<Row>, y: Session<Row>)
    requires x.rows != [] && y.rows != []
    ensures KeyLe(RankKey(x), RankKey(y)) <==>
      SmallerMean(x.rows, y.rows) || (SameMean(x.rows, y.rows) && StringLe(x.id, y.id))
  {
    hide PromptLengthSum;
    var a, b := PromptLengthSum(x.rows), PromptLengthSum(y.rows);
    QuotientsCompare(a as real, |x.rows| as real, b as real, |y.rows| as real);
    assert (a * |y.rows|) as real == a as real * |y.rows| as real;
    assert (b * |x.rows|) as real == b as real * |x.rows| as real;
  }

  // ----- ranks -----

  function SessionIds(rows: seq<Row>): set<string> { set i | 0 <= i < |rows| :: rows[i].sessionId }

  function IdsOf(sessions: seq<Session<Row>>): (r: set<string>) { set i | 0 <= i < |sessions| :: sessions[i].id }

  lemma {:induction false} CountIds(sessions: seq<Session<Row>>)
    requires DistinctKeys(IdKey, sessions)
    ensures |IdsOf(sessions)| == |sessions|
  {
    if sessions == [] {
      assert IdsOf(sessions) == {};
    } else {
      var n := |sessions| - 1;
      CountIds(sessions[..n]);
      LastIdIsNew(sessions);
    }
  }

  /** A ranking of all sessions of the rows. */
  ghost predicate IsRanking(rows: seq<Row>, ranked: seq<Session<Row>>) {
    && WholeSessions(rows, ranked) && SortedBy(RankKey, ranked)
    && (forall k :: 0 <= k < |ranked| ==> ranked[k].rows != [])
    && IdsOf(ranked) == SessionIds(rows)
  }

  /** In the ranking, a session stands before another exactly when it is ranked before it. */
  lemma RankingOrder(rows: seq<Row>, ranked: seq<Session<Row>>, i: nat, j: nat)
    requires IsRanking(rows, ranked) && i < |ranked| && j < |ranked|
    ensures RankedBefore(rows, ranked[i].id, ranked[j].id) <==> i < j
  {
    hide RowsOf, PromptLengthSum, SmallerMean, SameMean, StringLe;
    RankKeyOrder(ranked[i], ranked[j]);
    RankKeyOrder(ranked[j], ranked[i]);
    if i != j {
      assert IdKey(ranked[i]) != IdKey(ranked[j]);
    }
    if i < j {
      assert KeyLe(RankKey(ranked[i]), RankKey(ranked[j]));
    } else {
      if j < i { assert KeyLe(RankKey(ranked[j]), RankKey(ranked[i])); }
      MeansExclude(ranked[i].rows, ranked[j].rows);
      if RankedBefore(rows, ranked[i].id, ranked[j].id) {
        StringLeBoth(ranked[i].id, ranked[j].id);
      }
    }
  }

  lemma MeansExclude(x: seq<Row>, y: seq<Row>)
    ensures !(SmallerMean(x, y) && (SmallerMean(y, x) || SameMean(y, x)))
    ensures SameMean(x, y) ==> !SmallerMean(y, x)
  {
  }

  lemma StringLeBoth(a: string, b: string)
    ensures StringLe(a, b) && StringLe(b, a) ==> a == b
  {
    if StringLe(a, b) && StringLe(b, a) { StringLeAntisymmetric(a, b); }
  }

  /** The number of sessions ranked before a session is its position. */
  lemma RankIsPosition(rows: seq<Row>, ranked: seq<Session<Row>>, k: nat)
    requires IsRanking(rows, ranked) && k < |ranked|
    ensures |set id | id in SessionIds(rows) && RankedBefore(rows, id, ranked[k].id)| == k
    ensures |SessionIds(rows)| == |ranked|
  {
    hide RankedBefore, RowsOf, SortedBy;
    forall i | 0 <= i < |ranked| ensures RankedBefore(rows, ranked[i].id, ranked[k].id) <==> i < k {
      RankingOrder(rows, ranked, i, k);
    }
    var before := set id | id in SessionIds(rows) && RankedBefore(rows, id, ranked[k].id);
    forall id ensures id in before <==> id in IdsOf(ranked[..k]) {
      if id in before {
        assert id in IdsOf(ranked);
        var i :| 0 <= i < |ranked| && ranked[i].id == id;
        assert ranked[..k][i].id == id;
      }
      if id in IdsOf(ranked[..k]) {
        var i :| 0 <= i < k && ranked[..k][i].id == id;
        assert ranked[i].id in IdsOf(ranked);
      }
    }
    assert before == IdsOf(ranked[..k]);
    CountIds(ranked);
    CountIds(ranked[..k]);
  }

  lemma SortOfGroupsIsRanking(rows: seq<Row>, groups: seq<Session<Row>>)
    requires Grouped(rows, groups)
    ensures IsRanking(rows, Sort(RankKey, groups))
  {
    hide RowsOf, Sort, RankKey;
    var ranked := Sort(RankKey, groups);
    SortIsSorted(RankKey, groups);
    WholeSessionsPermuted(rows, groups, ranked);
    SameElements(ranked, groups);
    forall k | 0 <= k < |ranked| ensures ranked[k].rows != [] { assert ranked[k] in groups; }
    forall id ensures id in IdsOf(ranked) <==> id in SessionIds(rows) {
      if id in IdsOf(ranked) {
        var k :| 0 <= k < |ranked| && ranked[k].id == id;
        assert ranked[k] in groups;
        assert ranked[k].rows[0] in RowsOf(rows, id);
        RowsOfHaveId(rows, id, ranked[k].rows[0]);
      }
      if id in SessionIds(rows) {
        var i :| 0 <= i < |rows| && rows[i].sessionId == id;
        assert HasId(groups, id);
        var k :| 0 <= k < |groups| && groups[k].id == id;
        assert groups[k] in ranked;
      }
    }
  }

  // ----- the sample -----

  /** The session that a sampled row comes from is one of the tagged ranking. */
  lemma SampledSession(rows: seq<Row>, buckets: nat, candidates: seq<Session<Row>>, counts: seq<SplitCount>, x: SampledRow)
      returns (ranked: seq<Session<Row>>, k: nat)
    requires CandidatesOf(rows, buckets, candidates) && FillSplits(candidates, counts).Some?
    requires |FillSplits(candidates, counts).value.0| == |counts|
    requires x in Annotate(FillSplits(candidates, counts).value.0, counts)
    ensures IsRanking(rows, ranked) && k < |ranked|
    ensures ranked[k].id == x.row.sessionId && x.bucket == k * buckets / |ranked|
  {
    hide FillSplits, Annotate, RowsOf, Flatten, Sort, Grouped, RankKey, IsRanking;
    var (parts, left) := FillSplits(candidates, counts).value;
    var groups :| Grouped(rows, groups) && multiset(candidates) == multiset(Tagged(Sort(RankKey, groups), buckets));
    SortOfGroupsIsRanking(rows, groups);
    ranked := Sort(RankKey, groups);
    var tagged := Tagged(ranked, buckets);
    FilledSplitsAreExact(candidates, counts);
    var l, j := SampledFrom(parts, counts, x);
    var p := FlattenAt(parts, l, j);
    var all := Flatten(parts) + left;
    SameElements(all, tagged);
    assert all[p] == parts[l][j] && all[p] in tagged;
    k :| 0 <= k < |tagged| && tagged[k] == parts[l][j];
    assert ranked[k].rows == RowsOf(rows, ranked[k].id) by { WholeRows(rows, ranked, k); }
    RowsOfHaveId(rows, ranked[k].id, x.row);
  }

  lemma WholeRows(rows: seq<Row>, ranked: seq<Session<Row>>, k: nat)
    requires IsRanking(rows, ranked) && k < |ranked|
    ensures ranked[k].rows == RowsOf(rows, ranked[k].id)
  {
  }

  /**
   The stratum of every sampled row, from the input rows alone: the share of all
   sessions that have a smaller mean prompt length than its own, or the same and an
   earlier id, scaled to the bucket count and rounded down.
   */
  lemma BucketIsShareOfShorter(
      rows: seq<Row>, buckets: nat, candidates: seq<Session<Row>>, counts: seq<SplitCount>, x: SampledRow)
    requires CandidatesOf(rows, buckets, candidates) && FillSplits(candidates, counts).Some?
    requires |FillSplits(candidates, counts).value.0| == |counts|
    requires x in Annotate(FillSplits(candidates, counts).value.0, counts)
    ensures x.row.sessionId in SessionIds(rows)
    ensures var before := set id | id in SessionIds(rows) && RankedBefore(rows, id, x.row.sessionId);
      x.bucket == |before| * buckets / |SessionIds(rows)|
  {
    hide CandidatesOf, FillSplits, Annotate, RankedBefore;
    var ranked, k := SampledSession(rows, buckets, candidates, counts, x);
    RankIsPosition(rows, ranked, k);
    assert ranked[k].id in IdsOf(ranked);
  }

  lemma QuotientGrows(a: nat, b: nat, m: nat, n: nat)
    requires a <= b && n > 0
    ensures a * m / n <= b * m / n
  {
    assert a * m <= b * m;
    DivisionBelow(b * m, n, a * m / n);
    assert a * m / n * n <= a * m;
  }

  /** So of two sampled rows the one whose session has the smaller mean prompt length is in no higher bucket. */
  lemma ShorterSessionsInLowerBuckets(
      rows: seq<Row>, buckets: nat, candidates: seq<Session<Row>>, counts: seq<SplitCount>, x: SampledRow, y: SampledRow)
    requires CandidatesOf(rows, buckets, candidates) && FillSplits(candidates, counts).Some?
    requires |FillSplits(candidates, counts).value.0| == |counts|
    requires x in Annotate(FillSplits(candidates, counts).value.0, counts)
    requires y in Annotate(FillSplits(candidates, counts).value.0, counts)
    requires SmallerMean(RowsOf(rows, x.row.sessionId), RowsOf(rows, y.row.sessionId))
    ensures x.bucket <= y.bucket
  {
    hide CandidatesOf, FillSplits, Annotate, RowsOf, SmallerMean, SameMean;
    var ranked, i := SampledSession(rows, buckets, candidates, counts, x);
    var ranked', j' := SampledSession(rows, buckets, candidates, counts, y);
    SameRanking(rows, ranked', ranked, j');
    var j :| 0 <= j < |ranked| && ranked[j].id == y.row.sessionId;
    RankingOrder(rows, ranked, i, j);
    RankIsPosition(rows, ranked, j);
    RankIsPosition(rows, ranked', j');
    QuotientGrows(i, j, buckets, |ranked|);
  }

  lemma SameRanking(rows: seq<Row>, a: seq<Session<Row>>, b: seq<Session<Row>>, k: nat)
    requires IsRanking(rows, a) && IsRanking(rows, b) && k < |a|
    ensures exists l :: 0 <= l < |b| && b[l].id == a[k].id
  {
    hide SortedBy, WholeSessions;
    assert a[k].id in IdsOf(a);
    assert a[k].id in IdsOf(b);
  }

  // ----- the rows that come out -----

  function RowsIn(sampled: seq<SampledRow>): (r: seq<Row>)
    ensures |r| == |sampled| && forall i :: 0 <= i < |r| ==> r[i] == sampled[i].row
  {
    seq(|sampled|, i requires 0 <= i < |sampled| => sampled[i].row)
  }

  /** Rows of one session come in the order of their invocations. */
  ghost predicate InvocationOrdered(sampled: seq<SampledRow>) {
    forall i, j :: 0 <= i < j < |sampled| && sampled[i].row.sessionId == sampled[j].row.sessionId ==>
      sampled[i].row.invocationIndex <= sampled[j].row.invocationIndex
  }

  /** No session has rows in both. */
  ghost predicate Apart(a: seq<SampledRow>, b: seq<SampledRow>) {
    forall i, j :: 0 <= i < |a| && 0 <= j < |b| ==> a[i].row.sessionId != b[j].row.sessionId
  }

  lemma OrderedApart(a: seq<SampledRow>, b: seq<SampledRow>)
    requires InvocationOrdered(a) && InvocationOrdered(b) && Apart(a, b)
    ensures InvocationOrdered(a + b)
  {
  }

  /** All rows of these sessions. */
  function AllRows(sessions: seq<Session<Row>>): seq<Row> {
    if sessions == [] then [] else AllRows(sessions[..|sessions| - 1]) + sessions[|sessions| - 1].rows
  }

  lemma {:induction false} AllRowsOf(rows: seq<Row>, sessions: seq<Session<Row>>, r: Row)
    requires WholeSessions(rows, sessions)
    ensures multiset(AllRows(sessions))[r] == if r.sessionId in IdsOf(sessions) then multiset(rows)[r] else 0
  {
    hide RowsOf, IdsOf;
    if sessions == [] {
      assert IdsOf(sessions) == {} by { CountIds(sessions); }
    } else {
      var n := |sessions| - 1;
      assert WholeSessions(rows, sessions[..n]);
      AllRowsOf(rows, sessions[..n], r);
      CountInSession(rows, sessions[n].id, r);
      LastIdIsNew(sessions);
    }
  }

  lemma LastIdIsNew(sessions: seq<Session<Row>>)
    requires sessions != [] && DistinctKeys(IdKey, sessions)
    ensures var n := |sessions| - 1;
      && IdsOf(sessions) == IdsOf(sessions[..n]) + {sessions[n].id}
      && sessions[n].id !in IdsOf(sessions[..n])
  {
    var n := |sessions| - 1;
    forall i | 0 <= i < n ensures sessions[..n][i].id != sessions[n].id {
      assert IdKey(sessions[i]) != IdKey(sessions[n]);
    }
    assert forall i :: 0 <= i < n ==> sessions[..n][i] == sessions[i];
  }

  lemma {:induction false} CountInSession(rows: seq<Row>, id: string, r: Row)
    ensures multiset(RowsOf(rows, id))[r] == if r.sessionId == id then multiset(rows)[r] else 0
  {
    if rows != [] {
      var n := |rows| - 1;
      CountInSession(rows[..n], id, r);
      assert rows == rows[..n] + [rows[n]];
    }
  }

  lemma SessionSampled(name: string, s: Session<Row>)
    ensures multiset(RowsIn(AnnotateSession(name, s))) == multiset(s.rows)
    ensures (forall i :: 0 <= i < |s.rows| ==> s.rows[i].sessionId == s.id) ==>
      && InvocationOrdered(AnnotateSession(name, s))
      && forall i :: 0 <= i < |AnnotateSession(name, s)| ==> AnnotateSession(name, s)[i].row.sessionId == s.id
  {
    hide Sort;
    var sorted := Sort(InvocationKey, s.rows);
    SortIsSorted(InvocationKey, s.rows);
    SameElements(sorted, s.rows);
    assert RowsIn(AnnotateSession(name, s)) == sorted;
    forall i, j | 0 <= i < j < |sorted| ensures sorted[i].invocationIndex <= sorted[j].invocationIndex {
      assert KeyLe(InvocationKey(sorted[i]), InvocationKey(sorted[j]));
    }
    forall i | 0 <= i < |sorted| ensures sorted[i] in s.rows { }
  }

  lemma RowsInConcat(a: seq<SampledRow>, b: seq<SampledRow>)
    ensures RowsIn(a + b) == RowsIn(a) + RowsIn(b)
  {
  }

  /** A sample of whole sessions: their rows, no more and no fewer, in the order of their invocations. */
  ghost predicate SampleOf(sampled: seq<SampledRow>, sessions: seq<Session<Row>>) {
    && multiset(RowsIn(sampled)) == multiset(AllRows(sessions))
    && (forall i :: 0 <= i < |sampled| ==> sampled[i].row.sessionId in IdsOf(sessions))
    && InvocationOrdered(sampled)
  }

  lemma IdsOfConcat(a: seq<Session<Row>>, b: seq<Session<Row>>)
    ensures IdsOf(a + b) == IdsOf(a) + IdsOf(b)
  {
    forall id ensures id in IdsOf(a + b) <==> id in IdsOf(a) + IdsOf(b) {
      if id in IdsOf(a) { var i :| 0 <= i < |a| && a[i].id == id; assert (a + b)[i].id == id; }
      if id in IdsOf(b) { var i :| 0 <= i < |b| && b[i].id == id; assert (a + b)[|a| + i].id == id; }
    }
  }

  lemma {:induction false} AllRowsConcat(a: seq<Session<Row>>, b: seq<Session<Row>>)
    ensures AllRows(a + b) == AllRows(a) + AllRows(b)
  {
    if b == [] {
      assert a + b == a;
    } else {
      var n := |b| - 1;
      AllRowsConcat(a, b[..n]);
      assert (a + b)[..|a| + n] == a + b[..n];
    }
  }

  lemma SampleConcat(x: seq<SampledRow>, a: seq<Session<Row>>, y: seq<SampledRow>, b: seq<Session<Row>>)
    requires SampleOf(x, a) && SampleOf(y, b) && DistinctKeys(IdKey, a + b)
    ensures SampleOf(x + y, a + b)
  {
    hide AllRows;
    RowsInConcat(x, y);
    AllRowsConcat(a, b);
    IdsOfConcat(a, b);
    forall i, j | 0 <= i < |x| && 0 <= j < |y| ensures x[i].row.sessionId != y[j].row.sessionId {
      var k :| 0 <= k < |a| && a[k].id == x[i].row.sessionId;
      var l :| 0 <= l < |b| && b[l].id == y[j].row.sessionId;
      assert IdKey((a + b)[k]) != IdKey((a + b)[|a| + l]);
    }
    OrderedApart(x, y);
  }

  lemma DistinctHalves(a: seq<Session<Row>>, b: seq<Session<Row>>)
    requires DistinctKeys(IdKey, a + b)
    ensures DistinctKeys(IdKey, a) && DistinctKeys(IdKey, b)
  {
    forall i, j | 0 <= i < j < |a| ensures IdKey(a[i]) != IdKey(a[j]) { assert IdKey((a + b)[i]) != IdKey((a + b)[j]); }
    forall i, j | 0 <= i < j < |b| ensures IdKey(b[i]) != IdKey(b[j]) {
      assert IdKey((a + b)[|a| + i]) != IdKey((a + b)[|a| + j]);
    }
  }

  /** Every row of a session carries its id. */
  ghost predicate RowsCarryId(sessions: seq<Session<Row>>) {
    forall k, i :: 0 <= k < |sessions| && 0 <= i < |sessions[k].rows| ==> sessions[k].rows[i].sessionId == sessions[k].id
  }

  lemma {:induction false} SplitSampled(name: string, sessions: seq<Session<Row>>)
    requires DistinctKeys(IdKey, sessions) && RowsCarryId(sessions)
    ensures SampleOf(AnnotateSplit(name, sessions), sessions)
  {
    hide AnnotateSession;
    if sessions == [] {
      assert RowsIn([]) == [];
    } else {
      var n := |sessions| - 1;
      var last := sessions[n];
      SplitSampled(name, sessions[..n]);
      SessionSampled(name, last);
      assert sessions == sessions[..n] + [last];
      assert AllRows([last]) == last.rows by { assert [last][..0] == []; }
      assert [last][0].id in IdsOf([last]);
      SampleConcat(AnnotateSplit(name, sessions[..n]), sessions[..n], AnnotateSession(name, last), [last]);
    }
  }

  lemma {:induction false} AllSampled(parts: seq<seq<Session<Row>>>, counts: seq<SplitCount>)
    requires |parts| == |counts| && DistinctKeys(IdKey, Flatten(parts)) && RowsCarryId(Flatten(parts))
    ensures SampleOf(Annotate(parts, counts), Flatten(parts))
  {
    hide AnnotateSplit, SampleOf;
    if parts == [] {
      NothingSampled();
    } else {
      var n := |parts| - 1;
      var before, last := Flatten(parts[..n]), parts[n];
      DistinctHalves(before, last);
      assert forall k :: 0 <= k < |before| ==> (before + last)[k] == before[k];
      assert forall k :: 0 <= k < |last| ==> (before + last)[|before| + k] == last[k];
      AllSampled(parts[..n], counts[..n]);
      SplitSampled(counts[n].name, last);
      SampleConcat(Annotate(parts[..n], counts[..n]), before, AnnotateSplit(counts[n].name, last), last);
    }
  }

  lemma NothingSampled()
    ensures SampleOf([], [])
  {
    assert RowsIn([]) == [];
  }

  /**
   The rows of a sample. A row of the input is sampled as often as it occurs there if
   its session is sampled, and not at all otherwise; and the rows of one session come in
   the order of their invocations.
   */
  lemma SampledRowsAreWholeSessions(
      rows: seq<Row>, buckets: nat, candidates: seq<Session<Row>>, counts: seq<SplitCount>, r: Row)
    requires CandidatesOf(rows, buckets, candidates) && FillSplits(candidates, counts).Some?
    requires |FillSplits(candidates, counts).value.0| == |counts|
    ensures var sampled := Annotate(FillSplits(candidates, counts).value.0, counts);
      && InvocationOrdered(sampled)
      && multiset(RowsIn(sampled))[r]
         == if exists i :: 0 <= i < |sampled| && sampled[i].row.sessionId == r.sessionId then multiset(rows)[r] else 0
  {
    hide CandidatesOf, FillSplits, Annotate, RowsOf, Flatten, AllRows, InvocationOrdered;
    var (parts, left) := FillSplits(candidates, counts).value;
    var sampled, all := Annotate(parts, counts), Flatten(parts) + left;
    FilledSplitsAreExact(candidates, counts);
    CandidatesAreWhole(rows, buckets, candidates);
    WholeSessionsPermuted(rows, candidates, all);
    DistinctHalves(Flatten(parts), left);
    var sessions := Flatten(parts);
    assert forall k :: 0 <= k < |sessions| ==> all[k] == sessions[k];
    forall k, i | 0 <= k < |sessions| && 0 <= i < |sessions[k].rows| ensures sessions[k].rows[i].sessionId == sessions[k].id {
      RowsOfHaveId(rows, sessions[k].id, sessions[k].rows[i]);
    }
    AllSampled(parts, counts);
    AllRowsOf(rows, sessions, r);
    RowsPresent(sampled, sessions, r);
  }

  lemma RowsPresent(sampled: seq<SampledRow>, sessions: seq<Session<Row>>, r: Row)
    requires SampleOf(sampled, sessions)
    ensures (exists i :: 0 <= i < |sampled| && sampled[i].row.sessionId == r.sessionId) ==> r.sessionId in IdsOf(sessions)
    ensures multiset(RowsIn(sampled))[r] == multiset(AllRows(sessions))[r]
    ensures multiset(RowsIn(sampled))[r] > 0 ==> exists i :: 0 <= i < |sampled| && sampled[i].row.sessionId == r.sessionId
  {
    hide AllRows, IdsOf;
    if multiset(RowsIn(sampled))[r] > 0 {
      assert r in RowsIn(sampled);
      var i :| 0 <= i < |RowsIn(sampled)| && RowsIn(sampled)[i] == r;
      assert sampled[i].row == r;
    }
  }

  // ----- the splits by name -----

  function CountNamed(sampled: seq<SampledRow>, name: string): nat {
    if sampled == [] then 0
    else CountNamed(sampled[..|sampled| - 1], name) + if sampled[|sampled| - 1].splitName == name then 1 else 0
  }

  /** What the counts ask for under one name. */
  function Requested(counts: seq<SplitCount>, name: string): nat {
    if counts == [] then 0
    else Requested(counts[..|counts| - 1], name) + if counts[|counts| - 1].name == name then counts[|counts| - 1].count else 0
  }

  lemma {:induction false} CountNamedConcat(a: seq<SampledRow>, b: seq<SampledRow>, name: string)
    ensures CountNamed(a + b, name) == CountNamed(a, name) + CountNamed(b, name)
  {
    if b == [] {
      assert a + b == a;
    } else {
      assert (a + b)[..|a + b| - 1] == a + b[..|b| - 1];
      CountNamedConcat(a, b[..|b| - 1], name);
    }
  }

  lemma {:induction false} CountAllNamed(sampled: seq<SampledRow>, own: string, name: string)
    requires forall i :: 0 <= i < |sampled| ==> sampled[i].splitName == own
    ensures CountNamed(sampled, name) == if own == name then |sampled| else 0
  {
    if sampled != [] { CountAllNamed(sampled[..|sampled| - 1], own, name); }
  }

  lemma {:induction false} SplitNamed(own: string, sessions: seq<Session<Row>>)
    ensures forall i :: 0 <= i < |AnnotateSplit(own, sessions)| ==> AnnotateSplit(own, sessions)[i].splitName == own
  {
    hide Sort;
    if sessions != [] { SplitNamed(own, sessions[..|sessions| - 1]); }
  }

  lemma {:induction false} PartsNamed(parts: seq<seq<Session<Row>>>, counts: seq<SplitCount>, name: string)
    requires |parts| == |counts| && forall k :: 0 <= k < |parts| ==> RowCount(parts[k]) == counts[k].count
    ensures CountNamed(Annotate(parts, counts), name) == Requested(counts, name)
  {
    hide AnnotateSplit, RowCount, CountNamed;
    if parts == [] {
      NothingNamed(name);
    } else {
      var n := |parts| - 1;
      var last := AnnotateSplit(counts[n].name, parts[n]);
      PartsNamed(parts[..n], counts[..n], name);
      CountNamedConcat(Annotate(parts[..n], counts[..n]), last, name);
      SplitNamed(counts[n].name, parts[n]);
      CountAllNamed(last, counts[n].name, name);
      SplitRowCount(counts[n].name, parts[n]);
    }
  }

  lemma NothingNamed(name: string)
    ensures CountNamed([], name) == 0
  {
  }

  /** Under each split name the sample has exactly the rows requested under it. */
  lemma SplitsHoldWhatWasRequested(candidates: seq<Session<Row>>, counts: seq<SplitCount>, name: string)
    requires FillSplits(candidates, counts).Some?
    ensures var parts := FillSplits(candidates, counts).value.0;
      |parts| == |counts| && CountNamed(Annotate(parts, counts), name) == Requested(counts, name)
  {
    hide FillSplits, Annotate, RowCount, CountNamed, Requested;
    FilledSplitsAreExact(candidates, counts);
    PartsNamed(FillSplits(candidates, counts).value.0, counts, name);
  }
}
