/** `build_stratified_splits` from rows to sampled rows, and what it promises about session boundaries. */
module StratifiedBuild {
  import opened Orders
  import opened Sorting
  import opened SessionSplit
  import opened StratifiedSplits

  // ----- the rows that come out -----

  function InvocationKey(row: Row): Key { Key(row.invocationIndex as real, 0.0, "") }

  function AnnotateRows(name: string, bucket: nat, rows: seq<Row>): (r: seq<SampledRow>)
    ensures |r| == |rows|
    ensures forall i :: 0 <= i < |r| ==> r[i] == SampledRow(rows[i], name, bucket)
  {
    seq(|rows|, i requires 0 <= i < |rows| => SampledRow(rows[i], name, bucket))
  }

  /** A session's rows by invocation, marked with the split and the bucket. */
  function AnnotateSession(name: string, s: Session<Row>): seq<SampledRow> {
    AnnotateRows(name, s.bucket, Sort(InvocationKey, s.rows))
  }

  function AnnotateSplit(name: string, sessions: seq<Session<Row>>): seq<SampledRow> {
    if sessions == [] then []
    else
      var n := |sessions| - 1;
      AnnotateSplit(name, sessions[..n]) + AnnotateSession(name, sessions[n])
  }

  function Annotate(parts: seq<seq<Session<Row>>>, counts: seq<SplitCount>): seq<SampledRow>
    requires |parts| == |counts|
  {
    if parts == [] then []
    else
      var n := |parts| - 1;
      Annotate(parts[..n], counts[..n]) + AnnotateSplit(counts[n].name, parts[n])
  }

  // ----- the candidates -----

  /** The whole sessions of `rows`, each marked with its bucket, in some order. */
  ghost predicate CandidatesOf(rows: seq<Row>, buckets: nat, candidates: seq<Session<Row>>) {
    buckets > 0 && exists groups ::
      Grouped(rows, groups) && multiset(candidates) == multiset(Tagged(Sort(RankKey, groups), buckets))
  }

  lemma {:induction false} FlattenOfRearranged(a: seq<seq<Session<Row>>>, b: seq<seq<Session<Row>>>)
    requires |a| == |b| && forall i :: 0 <= i < |a| ==> multiset(a[i]) == multiset(b[i])
    ensures multiset(Flatten(a)) == multiset(Flatten(b))
  {
    if a != [] {
      FlattenOfRearranged(a[..|a| - 1], b[..|b| - 1]);
    }
  }

  /** The shuffled buckets of a ranking. */
  function ShuffledBuckets(tagged: seq<Session<Row>>, shuffle: Shuffle, buckets: nat): (r: seq<seq<Session<Row>>>)
    requires buckets > 0
    ensures |r| == buckets
    ensures forall b :: 0 <= b < buckets ==> r[b] == shuffle(b, BucketSlice(tagged, buckets, b, |tagged|))
  {
    seq(buckets, b requires 0 <= b < buckets => shuffle(b, BucketSlice(tagged, buckets, b, |tagged|)))
  }

  /** Rank, cut, shuffle and interleave. */
  function Candidates(groups: seq<Session<Row>>, shuffle: Shuffle, buckets: nat): seq<Session<Row>>
    requires buckets > 0
  {
    Interleaved(ShuffledBuckets(Tagged(Sort(RankKey, groups), buckets), shuffle, buckets), 0)
  }

  method StratifiedCandidates(groups: seq<Session<Row>>, shuffle: Shuffle, buckets: nat) returns (candidates: seq<Session<Row>>)
    requires buckets > 0
    ensures candidates == Candidates(groups, shuffle, buckets)
  {
    hide Tagged, Sort, BucketSlice, Interleaved;
    var ranked := Sort(RankKey, groups);
    var bucketed := CutBuckets(ranked, buckets);
    ghost var cut := bucketed;
    var b := 0;
    while b < buckets
      invariant b <= buckets == |bucketed|
      invariant forall i :: 0 <= i < b ==> bucketed[i] == shuffle(i, cut[i])
      invariant forall i :: b <= i < buckets ==> bucketed[i] == cut[i]
    {
      bucketed := bucketed[b := shuffle(b, bucketed[b])];
      b := b + 1;
    }
    assert bucketed == ShuffledBuckets(Tagged(ranked, buckets), shuffle, buckets);
    candidates := Interleave(bucketed);
  }

  lemma CandidatesPermuteRanking(groups: seq<Session<Row>>, shuffle: Shuffle, buckets: nat)
    requires buckets > 0 && Rearranges(shuffle)
    ensures multiset(Candidates(groups, shuffle, buckets)) == multiset(Tagged(Sort(RankKey, groups), buckets))
  {
    hide Tagged, Sort, BucketSlice, Flatten, Interleaved, Below;
    var tagged := Tagged(Sort(RankKey, groups), buckets);
    var shuffled := ShuffledBuckets(tagged, shuffle, buckets);
    var cut := seq(buckets, b requires 0 <= b < buckets => BucketSlice(tagged, buckets, b, |tagged|));
    CutIsRanking(tagged, buckets, cut);
    FlattenOfRearranged(shuffled, cut);
    InterleavedElements(shuffled, 0);
    BelowTop(shuffled);
  }

  /** Whatever the shuffles do, the candidates are a permutation of all sessions. */
  lemma CandidatesAreAllSessions(rows: seq<Row>, shuffle: Shuffle, buckets: nat)
    requires buckets > 0 && Rearranges(shuffle)
    ensures CandidatesOf(rows, buckets, Candidates(Grouping(rows), shuffle, buckets))
  {
    hide Grouped, Tagged, Sort, Candidates, Grouping;
    GroupingIsGrouped(rows);
    CandidatesPermuteRanking(Grouping(rows), shuffle, buckets);
  }

  lemma CutIsRanking(tagged: seq<Session<Row>>, buckets: nat, cut: seq<seq<Session<Row>>>)
    requires buckets > 0 && |cut| == buckets
    requires forall b :: 0 <= b < buckets ==> cut[b] == BucketSlice(tagged, buckets, b, |tagged|)
    ensures Flatten(cut) == tagged
  {
    BucketsCoverRanking(tagged, buckets, cut);
    BucketStartsOrdered(|tagged|, buckets, 0);
    assert tagged[..|tagged|] == tagged;
  }

  /** Stratification: every bucket holds `count // buckets` sessions or one more. */
  lemma BucketsBalanced(tagged: seq<Session<Row>>, buckets: nat, b: nat)
    requires b < buckets
    ensures var size := |BucketSlice(tagged, buckets, b, |tagged|)|;
      |tagged| / buckets <= size <= |tagged| / buckets + 1
  {
    hide BucketStart;
    BucketSizesBalanced(|tagged|, buckets, b);
    BucketStartsOrdered(|tagged|, buckets, b);
    StartWithin(|tagged|, buckets, b);
    StartWithin(|tagged|, buckets, b + 1);
  }

  // ----- the splits -----

  /** Fill the splits in the order the counts list them. */
  method AssignSplits(candidates: seq<Session<Row>>, counts: seq<SplitCount>)
    returns (r: Optional.Option<(seq<seq<Session<Row>>>, seq<Session<Row>>)>)
    ensures r == FillSplits(candidates, counts)
  {
    hide FillSplits, HasSubset, Sizes, ExactSplit;
    var parts: seq<seq<Session<Row>>> := [];
    var remaining := candidates;
    var i := 0;
    assert counts[0..] == counts;
    FillStart(candidates, counts);
    while i < |counts|
      invariant i <= |counts|
      invariant FillSplits(candidates, counts) == Prepend(parts, FillSplits(remaining, counts[i..]))
    {
      var outcome := ChooseExactSessions(remaining, counts[i].count);
      if outcome.ValueError? {
        FillFails(remaining, counts[i..]);
        return Optional.None;
      }
      FillStep(remaining, counts[i..], parts, outcome.selected, outcome.remaining);
      assert counts[i..][1..] == counts[i + 1..];
      parts := parts + [outcome.selected];
      remaining := outcome.remaining;
      i := i + 1;
    }
    FillEnd(remaining, counts[i..], parts);
    return Optional.Some((parts, remaining));
  }

  function Prepend(parts: seq<seq<Session<Row>>>, r: Optional.Option<(seq<seq<Session<Row>>>, seq<Session<Row>>)>):
    Optional.Option<(seq<seq<Session<Row>>>, seq<Session<Row>>)>
  {
    match r
    case None => Optional.None
    case Some((more, left)) => Optional.Some((parts + more, left))
  }

  lemma FillStart(candidates: seq<Session<Row>>, counts: seq<SplitCount>)
    ensures Prepend([], FillSplits(candidates, counts)) == FillSplits(candidates, counts)
  {
    hide FillSplits;
    match FillSplits(candidates, counts)
    case None =>
    case Some((more, left)) => assert [] + more == more;
  }

  lemma FillFails(candidates: seq<Session<Row>>, counts: seq<SplitCount>)
    requires counts != [] && !HasSubset(Sizes(candidates), counts[0].count)
    ensures FillSplits(candidates, counts).None?
  {
    hide HasSubset, Pick, Chosen, Reach;
    ReachIffSubset(Sizes(candidates), counts[0].count);
  }

  lemma FillStep(
      candidates: seq<Session<Row>>, counts: seq<SplitCount>, parts: seq<seq<Session<Row>>>,
      selected: seq<Session<Row>>, remaining: seq<Session<Row>>)
    requires counts != [] && ExactSplit(candidates, counts[0].count, selected, remaining)
    ensures Prepend(parts, FillSplits(candidates, counts))
      == Prepend(parts + [selected], FillSplits(remaining, counts[1..]))
  {
    hide Pick, Chosen, Reach, Sizes;
    match FillSplits(remaining, counts[1..])
    case None =>
    case Some((more, left)) => assert parts + ([selected] + more) == (parts + [selected]) + more;
  }

  lemma FillEnd(candidates: seq<Session<Row>>, counts: seq<SplitCount>, parts: seq<seq<Session<Row>>>)
    requires counts == []
    ensures Prepend(parts, FillSplits(candidates, counts)) == Optional.Some((parts, candidates))
  {
    assert parts + [] == parts;
  }

  method AnnotateAll(parts: seq<seq<Session<Row>>>, counts: seq<SplitCount>) returns (sampled: seq<SampledRow>)
    requires |parts| == |counts|
    ensures sampled == Annotate(parts, counts)
  {
    hide Sort;
    sampled := [];
    var k := 0;
    while k < |parts|
      invariant k <= |parts|
      invariant sampled == Annotate(parts[..k], counts[..k])
    {
      var rows := AnnotateOne(counts[k].name, parts[k]);
      assert parts[..k + 1][..k] == parts[..k] && counts[..k + 1][..k] == counts[..k];
      sampled := sampled + rows;
      k := k + 1;
    }
    assert parts[..|parts|] == parts && counts[..|counts|] == counts;
  }

  method AnnotateOne(name: string, sessions: seq<Session<Row>>) returns (rows: seq<SampledRow>)
    ensures rows == AnnotateSplit(name, sessions)
  {
    hide AnnotateSession;
    rows := [];
    var j := 0;
    while j < |sessions|
      invariant j <= |sessions|
      invariant rows == AnnotateSplit(name, sessions[..j])
    {
      assert sessions[..j + 1][..j] == sessions[..j];
      rows := rows + AnnotateSession(name, sessions[j]);
      j := j + 1;
    }
    assert sessions[..|sessions|] == sessions;
  }

  /**
   The whole function. It is rejected for a bucket count below one, when more
   rows are asked for than there are, and when filling the splits in turn fails;
   otherwise the sampled rows are those of the filled splits.
   */
  method BuildStratifiedSplits(rows: seq<Row>, shuffle: Shuffle, counts: seq<SplitCount>, bucketCount: int)
    returns (r: BuildResult)
    ensures r.Rejected? <==>
      || bucketCount < 1
      || Total(counts) > RowCount(Grouping(rows))
      || FillSplits(Candidates(Grouping(rows), shuffle, bucketCount), counts).None?
    ensures r.Built? ==>
      && bucketCount >= 1 && |r.parts| == |counts|
      && FillSplits(Candidates(Grouping(rows), shuffle, bucketCount), counts) == Optional.Some((r.parts, r.left))
      && r.sampled == Annotate(r.parts, counts)
  {
    hide Candidates, FillSplits, Annotate, Total, Grouping, RowCount;
    if bucketCount < 1 {
      return Rejected;
    }
    var groups := GroupRows(rows);
    if Total(counts) > RowCount(groups) {
      return Rejected;
    }
    var candidates := StratifiedCandidates(groups, shuffle, bucketCount);
    var filled := AssignSplits(candidates, counts);
    if filled.None? {
      return Rejected;
    }
    var (parts, left) := filled.value;
    FilledSplitsAreExact(candidates, counts);
    var sampled := AnnotateAll(parts, counts);
    return Built(sampled, parts, left);
  }

  // ----- session boundaries -----

  function IdKey(s: Session<Row>): Key { Key(0.0, 0.0, s.id) }

  /** Sessions with distinct ids, each with exactly the rows of its id. */
  ghost predicate WholeSessions(rows: seq<Row>, sessions: seq<Session<Row>>) {
    && DistinctKeys(IdKey, sessions)
    && forall k :: 0 <= k < |sessions| ==> sessions[k].rows == RowsOf(rows, sessions[k].id)
  }

  lemma CandidatesAreWhole(rows: seq<Row>, buckets: nat, candidates: seq<Session<Row>>)
    requires CandidatesOf(rows, buckets, candidates)
    ensures WholeSessions(rows, candidates)
  {
    hide RowsOf, HasId, Sort;
    var groups :| Grouped(rows, groups) && multiset(candidates) == multiset(Tagged(Sort(RankKey, groups), buckets));
    var ranked := Sort(RankKey, groups);
    assert WholeSessions(rows, groups);
    WholeSessionsPermuted(rows, groups, ranked);
    TaggedStaysWhole(rows, ranked, buckets);
    WholeSessionsPermuted(rows, Tagged(ranked, buckets), candidates);
  }

  lemma TaggedStaysWhole(rows: seq<Row>, ranked: seq<Session<Row>>, buckets: nat)
    requires buckets > 0 && WholeSessions(rows, ranked)
    ensures WholeSessions(rows, Tagged(ranked, buckets))
  {
    hide RowsOf, BucketIndex;
    var tagged := Tagged(ranked, buckets);
    forall i, j | 0 <= i < j < |tagged| ensures IdKey(tagged[i]) != IdKey(tagged[j]) {
      assert IdKey(ranked[i]) != IdKey(ranked[j]);
    }
  }

  lemma WholeSessionsPermuted(rows: seq<Row>, a: seq<Session<Row>>, b: seq<Session<Row>>)
    requires WholeSessions(rows, a) && multiset(a) == multiset(b)
    ensures WholeSessions(rows, b)
  {
    hide RowsOf;
    DistinctKeysOfPermutation(IdKey, a, b);
    SameElements(a, b);
    forall k | 0 <= k < |b| ensures b[k].rows == RowsOf(rows, b[k].id) {
      assert b[k] in a;
    }
  }

  lemma {:induction false} FlattenAt<T>(parts: seq<seq<T>>, k: nat, j: nat) returns (p: nat)
    requires k < |parts| && j < |parts[k]|
    ensures p == |Flatten(parts[..k])| + j < |Flatten(parts)|
    ensures Flatten(parts)[p] == parts[k][j]
    ensures p < |Flatten(parts[..k + 1])|
  {
    var n := |parts| - 1;
    assert parts[..k + 1][..k] == parts[..k];
    if k == n {
      p := |Flatten(parts[..n])| + j;
      assert parts[..k + 1] == parts;
    } else {
      p := FlattenAt(parts[..n], k, j);
      assert parts[..n][..k] == parts[..k] && parts[..n][..k + 1] == parts[..k + 1];
    }
  }

  lemma {:induction false} FlattenLonger<T>(parts: seq<seq<T>>, a: nat, b: nat)
    requires a <= b <= |parts|
    ensures |Flatten(parts[..a])| <= |Flatten(parts[..b])|
    decreases b
  {
    if a < b {
      FlattenLonger(parts, a, b - 1);
      assert parts[..b][..b - 1] == parts[..b - 1];
    }
  }

  /** A sampled row carries the name of a split and the bucket of one of that split's sessions. */
  lemma {:induction false} SampledFrom(parts: seq<seq<Session<Row>>>, counts: seq<SplitCount>, x: SampledRow)
      returns (k: nat, j: nat)
    requires |parts| == |counts| && x in Annotate(parts, counts)
    ensures k < |parts| && j < |parts[k]|
    ensures x.splitName == counts[k].name && x.bucket == parts[k][j].bucket && x.row in parts[k][j].rows
  {
    var n := |parts| - 1;
    if x in Annotate(parts[..n], counts[..n]) {
      k, j := SampledFrom(parts[..n], counts[..n], x);
    } else {
      k := n;
      j := SampledFromSplit(counts[n].name, parts[n], x);
    }
  }

  lemma {:induction false} SampledFromSplit(name: string, sessions: seq<Session<Row>>, x: SampledRow) returns (j: nat)
    requires x in AnnotateSplit(name, sessions)
    ensures j < |sessions| && x.splitName == name && x.bucket == sessions[j].bucket && x.row in sessions[j].rows
  {
    hide Sort;
    var n := |sessions| - 1;
    if x in AnnotateSplit(name, sessions[..n]) {
      j := SampledFromSplit(name, sessions[..n], x);
    } else {
      j := n;
      SameElements(Sort(InvocationKey, sessions[n].rows), sessions[n].rows);
    }
  }

  lemma {:induction false} RowsOfHaveId(rows: seq<Row>, id: string, x: Row)
    requires x in RowsOf(rows, id)
    ensures x.sessionId == id && x in rows
  {
    var n := |rows| - 1;
    if x in RowsOf(rows[..n], id) {
      RowsOfHaveId(rows[..n], id, x);
    }
  }

  /**
   Session boundaries are kept: two sampled rows of one session are in the same
   split and the same bucket.
   */
  lemma SessionsStayTogether(
      rows: seq<Row>, buckets: nat, candidates: seq<Session<Row>>, counts: seq<SplitCount>, x: SampledRow, y: SampledRow)
    requires CandidatesOf(rows, buckets, candidates) && FillSplits(candidates, counts).Some?
    requires |FillSplits(candidates, counts).value.0| == |counts|
    requires x in Annotate(FillSplits(candidates, counts).value.0, counts)
    requires y in Annotate(FillSplits(candidates, counts).value.0, counts)
    requires x.row.sessionId == y.row.sessionId
    ensures x.splitName == y.splitName && x.bucket == y.bucket
  {
    hide CandidatesOf, FillSplits, Annotate, RowsOf, Flatten;
    var (parts, left) := FillSplits(candidates, counts).value;
    FilledSplitsAreExact(candidates, counts);
    CandidatesAreWhole(rows, buckets, candidates);
    var all := Flatten(parts) + left;
    WholeSessionsPermuted(rows, candidates, all);
    var k, j := SampledFrom(parts, counts, x);
    var l, i := SampledFrom(parts, counts, y);
    var p := FlattenAt(parts, k, j);
    var q := FlattenAt(parts, l, i);
    assert all[p] == parts[k][j] && all[q] == parts[l][i];
    RowsOfHaveId(rows, parts[k][j].id, x.row);
    RowsOfHaveId(rows, parts[l][i].id, y.row);
    assert IdKey(all[p]) == IdKey(all[q]);
    assert p == q;
    if k < l {
      FlattenLonger(parts, k + 1, l);
    } else if l < k {
      FlattenLonger(parts, l + 1, k);
    }
  }

  /** A split's sampled rows are all the rows of its sessions, as many as were requested. */
  lemma {:induction false} SplitRowCount(name: string, sessions: seq<Session<Row>>)
    ensures |AnnotateSplit(name, sessions)| == RowCount(sessions)
  {
    hide Sort;
    if sessions != [] {
      SplitRowCount(name, sessions[..|sessions| - 1]);
    }
  }

  /**
   What a built result holds: split `k` has exactly the requested number of
   sampled rows, and its sessions come with every row the input has for them.
   */
  lemma SplitsAreExactAndWhole(
      rows: seq<Row>, buckets: nat, candidates: seq<Session<Row>>, counts: seq<SplitCount>, k: nat)
    requires CandidatesOf(rows, buckets, candidates) && FillSplits(candidates, counts).Some?
    requires k < |counts|
    ensures var parts := FillSplits(candidates, counts).value.0;
      && |parts| == |counts|
      && |AnnotateSplit(counts[k].name, parts[k])| == counts[k].count
      && forall j :: 0 <= j < |parts[k]| ==> parts[k][j].rows == RowsOf(rows, parts[k][j].id)
  {
    hide CandidatesOf, FillSplits, RowsOf, Flatten, AnnotateSplit;
    var (parts, left) := FillSplits(candidates, counts).value;
    FilledSplitsAreExact(candidates, counts);
    SplitRowCount(counts[k].name, parts[k]);
    CandidatesAreWhole(rows, buckets, candidates);
    WholeSessionsPermuted(rows, candidates, Flatten(parts) + left);
    forall j | 0 <= j < |parts[k]| ensures parts[k][j].rows == RowsOf(rows, parts[k][j].id) {
      var p := FlattenAt(parts, k, j);
      assert (Flatten(parts) + left)[p] == parts[k][j];
    }
  }
}
