/**
 `build_stratified_splits`: rank whole sessions by prompt length, cut the ranking
 into buckets, interleave the shuffled buckets, and fill the splits in turn with
 sessions that sum to exactly the requested number of rows.
 */
module StratifiedSplits {
  import opened Orders
  import opened SessionSplit

  /** An input row; `promptLength` is the length of its prompt. */
  datatype Row = Row(sampleId: string, sessionId: string, promptLength: nat, invocationIndex: int)

  datatype SplitCount = SplitCount(name: string, count: nat)

  datatype SampledRow = SampledRow(row: Row, splitName: string, bucket: nat)

  datatype BuildResult =
    | Built(sampled: seq<SampledRow>, parts: seq<seq<Session<Row>>>, left: seq<Session<Row>>)
    | Rejected

  /** What the shuffles may do to a bucket: any rearrangement. */
  type Shuffle = (nat, seq<Session<Row>>) -> seq<Session<Row>>

  ghost predicate Rearranges(shuffle: Shuffle) {
    forall b: nat, s: seq<Session<Row>> :: multiset(shuffle(b, s)) == multiset(s)
  }

  // ----- grouping rows by session -----

  function RowsOf(rows: seq<Row>, id: string): seq<Row> {
    if rows == [] then []
    else
      var n := |rows| - 1;
      RowsOf(rows[..n], id) + if rows[n].sessionId == id then [rows[n]] else []
  }

  ghost predicate HasId(sessions: seq<Session<Row>>, id: string) {
    exists k :: 0 <= k < |sessions| && sessions[k].id == id
  }

  /** The sessions of `rows`: one per id, each holding all of that id's rows in input order. */
  ghost predicate Grouped(rows: seq<Row>, sessions: seq<Session<Row>>) {
    && (forall i, j :: 0 <= i < j < |sessions| ==> sessions[i].id != sessions[j].id)
    && (forall k :: 0 <= k < |sessions| ==> sessions[k].rows == RowsOf(rows, sessions[k].id) && sessions[k].rows != [])
    && (forall i :: 0 <= i < |rows| ==> HasId(sessions, rows[i].sessionId))
  }

  lemma RowsOfExtends(rows: seq<Row>, n: nat, id: string)
    requires n < |rows|
    ensures RowsOf(rows[..n + 1], id) == RowsOf(rows[..n], id) + if rows[n].sessionId == id then [rows[n]] else []
  {
    assert rows[..n + 1][..n] == rows[..n];
  }

  lemma {:induction false} RowsOfAbsent(rows: seq<Row>, sessions: seq<Session<Row>>, id: string)
    requires forall i :: 0 <= i < |rows| ==> HasId(sessions, rows[i].sessionId)
    requires !HasId(sessions, id)
    ensures RowsOf(rows, id) == []
  {
    if rows != [] {
      RowsOfAbsent(rows[..|rows| - 1], sessions, id);
    }
  }

  /** Where the session of an id is, or where it would be opened. */
  function IndexOfId(sessions: seq<Session<Row>>, id: string): (k: nat)
    ensures k <= |sessions|
    ensures k < |sessions| ==> sessions[k].id == id
    ensures k == |sessions| ==> forall i :: 0 <= i < |sessions| ==> sessions[i].id != id
  {
    if sessions == [] then 0
    else
      var n := |sessions| - 1;
      var k := IndexOfId(sessions[..n], id);
      assert forall i :: 0 <= i < n ==> sessions[..n][i] == sessions[i];
      if k < n then k else if sessions[n].id == id then n else n + 1
  }

  /** `grouped[session_id].append(row)`. */
  function AddRow(sessions: seq<Session<Row>>, row: Row): seq<Session<Row>> {
    var k := IndexOfId(sessions, row.sessionId);
    if k < |sessions| then sessions[k := sessions[k].(rows := sessions[k].rows + [row])]
    else sessions + [Session(row.sessionId, [row], 0)]
  }

  /** The sessions in the order their first rows come. */
  function Grouping(rows: seq<Row>): seq<Session<Row>> {
    if rows == [] then [] else AddRow(Grouping(rows[..|rows| - 1]), rows[|rows| - 1])
  }

  lemma GroupAppends(rows: seq<Row>, n: nat, sessions: seq<Session<Row>>, k: nat)
    requires n < |rows| && Grouped(rows[..n], sessions)
    requires k < |sessions| && sessions[k].id == rows[n].sessionId
    ensures Grouped(rows[..n + 1], sessions[k := sessions[k].(rows := sessions[k].rows + [rows[n]])])
  {
    var after := sessions[k := sessions[k].(rows := sessions[k].rows + [rows[n]])];
    forall i | 0 <= i < |after| ensures after[i].rows == RowsOf(rows[..n + 1], after[i].id) {
      RowsOfExtends(rows, n, after[i].id);
    }
    var prefix := rows[..n + 1];
    forall i | 0 <= i < |prefix| ensures HasId(after, prefix[i].sessionId) {
      if i < n {
        assert HasId(sessions, rows[..n][i].sessionId);
        var l :| 0 <= l < |sessions| && sessions[l].id == prefix[i].sessionId;
        assert after[l].id == prefix[i].sessionId;
      } else {
        assert after[k].id == rows[n].sessionId;
      }
    }
  }

  lemma GroupOpens(rows: seq<Row>, n: nat, sessions: seq<Session<Row>>)
    requires n < |rows| && Grouped(rows[..n], sessions) && !HasId(sessions, rows[n].sessionId)
    ensures Grouped(rows[..n + 1], sessions + [Session(rows[n].sessionId, [rows[n]], 0)])
  {
    var after := sessions + [Session(rows[n].sessionId, [rows[n]], 0)];
    RowsOfAbsent(rows[..n], sessions, rows[n].sessionId);
    forall i | 0 <= i < |after| ensures after[i].rows == RowsOf(rows[..n + 1], after[i].id) {
      RowsOfExtends(rows, n, after[i].id);
    }
    var prefix := rows[..n + 1];
    forall i | 0 <= i < |prefix| ensures HasId(after, prefix[i].sessionId) {
      if i < n {
        assert HasId(sessions, rows[..n][i].sessionId);
        var l :| 0 <= l < |sessions| && sessions[l].id == prefix[i].sessionId;
        assert after[l].id == prefix[i].sessionId;
      } else {
        assert after[|sessions|].id == rows[n].sessionId;
      }
    }
  }

  lemma {:induction false} GroupingIsGrouped(rows: seq<Row>)
    ensures Grouped(rows, Grouping(rows))
  {
    if rows != [] {
      hide Grouped, RowsOf;
      var n := |rows| - 1;
      var before := Grouping(rows[..n]);
      GroupingIsGrouped(rows[..n]);
      assert rows[..n + 1] == rows;
      var k := IndexOfId(before, rows[n].sessionId);
      if k < |before| {
        GroupAppends(rows, n, before, k);
      } else {
        GroupOpens(rows, n, before);
      }
    }
  }

  lemma {:induction false} RowCountUpdate(sessions: seq<Session<Row>>, k: nat, s: Session<Row>)
    requires k < |sessions|
    ensures RowCount(sessions[k := s]) == RowCount(sessions) - |sessions[k].rows| + |s.rows|
  {
    var n := |sessions| - 1;
    if k == n {
      assert sessions[k := s][..n] == sessions[..n];
    } else {
      RowCountUpdate(sessions[..n], k, s);
      assert sessions[k := s][..n] == sessions[..n][k := s];
    }
  }

  /** Grouping neither drops nor repeats a row. */
  lemma {:induction false} GroupingKeepsRows(rows: seq<Row>)
    ensures RowCount(Grouping(rows)) == |rows|
  {
    if rows != [] {
      var n := |rows| - 1;
      var before := Grouping(rows[..n]);
      GroupingKeepsRows(rows[..n]);
      var k := IndexOfId(before, rows[n].sessionId);
      if k < |before| {
        RowCountUpdate(before, k, before[k].(rows := before[k].rows + [rows[n]]));
      } else {
        RowCountAppend(before, Session(rows[n].sessionId, [rows[n]], 0));
      }
    }
  }

  method GroupRows(rows: seq<Row>) returns (sessions: seq<Session<Row>>)
    ensures sessions == Grouping(rows)
  {
    hide AddRow;
    sessions := [];
    var i := 0;
    while i < |rows|
      invariant i <= |rows|
      invariant sessions == Grouping(rows[..i])
    {
      assert rows[..i + 1][..i] == rows[..i];
      sessions := AddRow(sessions, rows[i]);
      i := i + 1;
    }
    assert rows[..|rows|] == rows;
  }

  // ----- buckets -----

  function PromptLengthSum(rows: seq<Row>): nat {
    if rows == [] then 0 else rows[0].promptLength + PromptLengthSum(rows[1..])
  }

  /** Mean prompt length, ties by session id. */
  function RankKey(s: Session<Row>): Key {
    Key(if s.rows == [] then 0.0 else PromptLengthSum(s.rows) as real / |s.rows| as real, 0.0, s.id)
  }

  /** The rank at which bucket `b` begins. */
  function BucketStart(count: nat, buckets: nat, b: nat): nat
    requires buckets > 0
  {
    (b * count + buckets - 1) / buckets
  }

  /** `rank * buckets // count == b` says that the rank lies between the starts of bucket `b` and the next. */
  lemma BucketOfRank(rank: nat, count: nat, buckets: nat, b: nat)
    requires buckets > 0 && rank < count
    ensures rank * buckets / count == b <==> BucketStart(count, buckets, b) <= rank < BucketStart(count, buckets, b + 1)
    ensures rank * buckets / count < buckets
  {
    DivisionBelow(rank * buckets, count, b);
    DivisionBelow(rank * buckets, count, b + 1);
    CeilingBelow(b * count, buckets, rank);
    CeilingBelow((b + 1) * count, buckets, rank);
    assert rank * buckets < count * buckets;
    DivisionBelow(rank * buckets, count, buckets);
  }

  /** `b <= a // c` exactly when `b * c <= a`. */
  lemma DivisionBelow(a: nat, c: nat, b: nat)
    requires c > 0
    ensures b <= a / c <==> b * c <= a
  {
    var q := a / c;
    assert a == q * c + a % c;
    if b <= q {
      assert b * c <= q * c;
    } else {
      assert (q + 1) * c <= b * c;
    }
  }

  /** `ceil(a / c) <= r` exactly when `a <= r * c`. */
  lemma CeilingBelow(a: nat, c: nat, r: nat)
    requires c > 0
    ensures (a + c - 1) / c <= r <==> a <= r * c
  {
    DivisionBelow(a + c - 1, c, r + 1);
    assert (r + 1) * c == r * c + c;
  }

  /** Buckets follow one another and together cover the ranking. */
  lemma BucketStartsOrdered(count: nat, buckets: nat, b: nat)
    requires buckets > 0
    ensures BucketStart(count, buckets, b) <= BucketStart(count, buckets, b + 1)
    ensures BucketStart(count, buckets, 0) == 0
    ensures BucketStart(count, buckets, buckets) == count
  {
    var x, y := b * count + buckets - 1, (b + 1) * count + buckets - 1;
    assert x <= y by { assert (b + 1) * count == b * count + count; }
    DivisionBelow(y, buckets, x / buckets);
    assert x / buckets * buckets <= x;
    CeilingBelow(buckets * count, buckets, count);
    DivisionBelow(buckets * count + buckets - 1, buckets, count);
    assert (buckets - 1) / buckets == 0;
  }

  /** Every bucket gets `count // buckets` sessions or one more, so bucket sizes differ by at most one. */
  lemma BucketSizesBalanced(count: nat, buckets: nat, b: nat)
    requires buckets > 0
    ensures var size := BucketStart(count, buckets, b + 1) - BucketStart(count, buckets, b);
      count / buckets <= size <= count / buckets + 1
  {
    var x := b * count + buckets - 1;
    assert (b + 1) * count + buckets - 1 == x + count;
    var q, s := x / buckets, count / buckets;
    assert q * buckets <= x < (q + 1) * buckets;
    assert s * buckets <= count < (s + 1) * buckets;
    assert (q + s) * buckets == q * buckets + s * buckets;
    assert (q + s + 2) * buckets == (q + 1) * buckets + (s + 1) * buckets;
    DivisionBelow(x + count, buckets, q + s);
    DivisionBelow(x + count, buckets, q + s + 2);
  }

  /** `rank * length_bucket_count // len(ranked)`. */
  function BucketIndex(rank: nat, buckets: nat, count: nat): (b: nat)
    requires count > 0
    ensures b == rank * buckets / count
  {
    DivisionBelow(rank * buckets, count, 0);
    rank * buckets / count
  }

  function Tagged(ranked: seq<Session<Row>>, buckets: nat): (r: seq<Session<Row>>)
    requires buckets > 0
    ensures |r| == |ranked|
    ensures forall i :: 0 <= i < |r| ==> r[i] == ranked[i].(bucket := BucketIndex(i, buckets, |ranked|))
  {
    seq(|ranked|, i requires 0 <= i < |ranked| => ranked[i].(bucket := BucketIndex(i, buckets, |ranked|)))
  }

  function Min(a: nat, b: nat): nat { if b < a then b else a }

  /** The part of bucket `b` among the first `r` ranks. */
  function BucketSlice(tagged: seq<Session<Row>>, buckets: nat, b: nat, r: nat): seq<Session<Row>>
    requires buckets > 0 && r <= |tagged|
  {
    var lo := Min(BucketStart(|tagged|, buckets, b), r);
    var hi := Min(BucketStart(|tagged|, buckets, b + 1), r);
    if lo <= hi then tagged[lo..hi] else []
  }

  lemma SliceGrows(tagged: seq<Session<Row>>, buckets: nat, b: nat, r: nat)
    requires buckets > 0 && r < |tagged|
    ensures BucketSlice(tagged, buckets, b, r + 1)
      == BucketSlice(tagged, buckets, b, r) + if BucketIndex(r, buckets, |tagged|) == b then [tagged[r]] else []
  {
    hide BucketStart;
    BucketOfRank(r, |tagged|, buckets, b);
    BucketStartsOrdered(|tagged|, buckets, b);
  }

  /** Cut the ranking into buckets. */
  method CutBuckets(ranked: seq<Session<Row>>, buckets: nat) returns (bucketed: seq<seq<Session<Row>>>)
    requires buckets > 0
    ensures |bucketed| == buckets
    ensures forall b :: 0 <= b < buckets ==>
      bucketed[b] == BucketSlice(Tagged(ranked, buckets), buckets, b, |ranked|)
  {
    hide BucketSlice, Tagged;
    ghost var tagged := Tagged(ranked, buckets);
    bucketed := seq(buckets, _ => []);
    forall b | 0 <= b < buckets ensures BucketSlice(tagged, buckets, b, 0) == [] {
      EmptySlice(tagged, buckets, b);
    }
    var rank := 0;
    while rank < |ranked|
      invariant rank <= |ranked| && |bucketed| == buckets
      invariant forall b :: 0 <= b < buckets ==> bucketed[b] == BucketSlice(tagged, buckets, b, rank)
    {
      BucketOfRank(rank, |ranked|, buckets, 0);
      var bucket := Min(buckets - 1, BucketIndex(rank, buckets, |ranked|));
      forall b | 0 <= b < buckets
        ensures BucketSlice(tagged, buckets, b, rank + 1)
          == BucketSlice(tagged, buckets, b, rank) + if bucket == b then [tagged[rank]] else []
      {
        SliceGrows(tagged, buckets, b, rank);
      }
      var session := ranked[rank].(bucket := bucket);
      bucketed := bucketed[bucket := bucketed[bucket] + [session]];
      rank := rank + 1;
    }
  }

  lemma EmptySlice(tagged: seq<Session<Row>>, buckets: nat, b: nat)
    requires buckets > 0
    ensures BucketSlice(tagged, buckets, b, 0) == []
  {
  }

  function Flatten<T>(parts: seq<seq<T>>): seq<T> {
    if parts == [] then [] else Flatten(parts[..|parts| - 1]) + parts[|parts| - 1]
  }

  /** The buckets, one after another, are the ranking. */
  lemma {:induction false} BucketsCoverRanking(tagged: seq<Session<Row>>, buckets: nat, bucketed: seq<seq<Session<Row>>>)
    requires buckets > 0 && |bucketed| <= buckets
    requires forall b :: 0 <= b < |bucketed| ==> bucketed[b] == BucketSlice(tagged, buckets, b, |tagged|)
    ensures BucketStart(|tagged|, buckets, |bucketed|) <= |tagged|
    ensures Flatten(bucketed) == tagged[..BucketStart(|tagged|, buckets, |bucketed|)]
  {
    hide BucketStart;
    var n := |bucketed|;
    StartWithin(|tagged|, buckets, n);
    if n == 0 {
      BucketStartsOrdered(|tagged|, buckets, 0);
    } else {
      BucketStartsOrdered(|tagged|, buckets, n - 1);
      BucketsCoverRanking(tagged, buckets, bucketed[..n - 1]);
    }
  }

  lemma StartWithin(count: nat, buckets: nat, b: nat)
    requires buckets > 0 && b <= buckets
    ensures BucketStart(count, buckets, b) <= count
  {
    assert b * count <= count * buckets;
    CeilingBelow(b * count, buckets, count);
  }

  // ----- interleaving -----

  /** The elements at `depth` of the buckets that are that deep. */
  function Column<T>(buckets: seq<seq<T>>, depth: nat): seq<T> {
    if buckets == [] then []
    else
      var n := |buckets| - 1;
      Column(buckets[..n], depth) + if depth < |buckets[n]| then [buckets[n][depth]] else []
  }

  /** What the buckets hold from `depth` on. */
  function Below<T>(buckets: seq<seq<T>>, depth: nat): multiset<T> {
    if buckets == [] then multiset{}
    else
      var n := |buckets| - 1;
      Below(buckets[..n], depth) + multiset(buckets[n][Min(depth, |buckets[n]|)..])
  }

  lemma {:induction false} ColumnTakenOff<T>(buckets: seq<seq<T>>, depth: nat)
    ensures Below(buckets, depth) == multiset(Column(buckets, depth)) + Below(buckets, depth + 1)
  {
    if buckets != [] {
      var n := |buckets| - 1;
      ColumnTakenOff(buckets[..n], depth);
      HeadTakenOff(buckets[n], depth);
    }
  }

  lemma HeadTakenOff<T>(bucket: seq<T>, depth: nat)
    ensures multiset(bucket[Min(depth, |bucket|)..])
      == multiset(if depth < |bucket| then [bucket[depth]] else [])
         + multiset(bucket[Min(depth + 1, |bucket|)..])
  {
    if depth < |bucket| {
      assert bucket[depth..] == [bucket[depth]] + bucket[depth + 1..];
    }
  }

  lemma {:induction false} BelowTop<T>(buckets: seq<seq<T>>)
    ensures Below(buckets, 0) == multiset(Flatten(buckets))
  {
    if buckets != [] {
      var n := |buckets| - 1;
      BelowTop(buckets[..n]);
      assert buckets[n][0..] == buckets[n];
    }
  }

  lemma {:induction false} BelowBottom<T>(buckets: seq<seq<T>>, depth: nat)
    requires forall b :: 0 <= b < |buckets| ==> |buckets[b]| <= depth
    ensures Below(buckets, depth) == multiset{}
  {
    if buckets != [] {
      BelowBottom(buckets[..|buckets| - 1], depth);
    }
  }

  /** `any(depth < len(bucket) for bucket in bucketed)`. */
  predicate AnyDeeper<T>(buckets: seq<seq<T>>, depth: nat) {
    exists b :: 0 <= b < |buckets| && depth < |buckets[b]|
  }

  /** A depth no bucket exceeds. */
  function Deepest<T>(buckets: seq<seq<T>>): (d: nat)
    ensures forall b :: 0 <= b < |buckets| ==> |buckets[b]| <= d
  {
    if buckets == [] then 0
    else
      var n := |buckets| - 1;
      var d := Deepest(buckets[..n]);
      assert forall b :: 0 <= b < n ==> buckets[..n][b] == buckets[b];
      if d < |buckets[n]| then |buckets[n]| else d
  }

  method TakeColumn<T>(buckets: seq<seq<T>>, depth: nat, before: seq<T>) returns (candidates: seq<T>)
    ensures candidates == before + Column(buckets, depth)
  {
    candidates := before;
    var b := 0;
    while b < |buckets|
      invariant b <= |buckets|
      invariant candidates == before + Column(buckets[..b], depth)
    {
      assert buckets[..b + 1][..b] == buckets[..b];
      if depth < |buckets[b]| {
        candidates := candidates + [buckets[b][depth]];
      }
      b := b + 1;
    }
    assert buckets[..|buckets|] == buckets;
  }

  /** One element of each bucket in turn, from `depth` on, until all are exhausted. */
  function Interleaved<T>(buckets: seq<seq<T>>, depth: nat): seq<T>
    decreases Deepest(buckets) - depth
  {
    if AnyDeeper(buckets, depth) then Column(buckets, depth) + Interleaved(buckets, depth + 1) else []
  }

  /** Take one element from each bucket in turn until all are exhausted. */
  method Interleave<T>(buckets: seq<seq<T>>) returns (candidates: seq<T>)
    ensures candidates == Interleaved(buckets, 0)
  {
    hide Column, Deepest;
    candidates := [];
    var depth := 0;
    while AnyDeeper(buckets, depth)
      invariant candidates + Interleaved(buckets, depth) == Interleaved(buckets, 0)
      decreases Deepest(buckets) - depth
    {
      ghost var column, rest := Column(buckets, depth), Interleaved(buckets, depth + 1);
      assert candidates + (column + rest) == (candidates + column) + rest;
      candidates := TakeColumn(buckets, depth, candidates);
      depth := depth + 1;
    }
  }

  /** The interleaving holds exactly what the buckets hold. */
  lemma {:induction false} InterleavedElements<T>(buckets: seq<seq<T>>, depth: nat)
    ensures multiset(Interleaved(buckets, depth)) == Below(buckets, depth)
    decreases Deepest(buckets) - depth
  {
    hide Column, Below, Deepest;
    if AnyDeeper(buckets, depth) {
      InterleavedElements(buckets, depth + 1);
      ColumnTakenOff(buckets, depth);
    } else {
      BelowBottom(buckets, depth);
    }
  }

  /** How many elements the first `rounds` rounds take. */
  function InRounds<T>(buckets: seq<seq<T>>, rounds: nat): nat {
    if buckets == [] then 0
    else InRounds(buckets[..|buckets| - 1], rounds) + Min(rounds, |buckets[|buckets| - 1]|)
  }

  lemma {:induction false} RoundSize<T>(buckets: seq<seq<T>>, depth: nat)
    ensures InRounds(buckets, depth + 1) == InRounds(buckets, depth) + |Column(buckets, depth)|
  {
    if buckets != [] { RoundSize(buckets[..|buckets| - 1], depth); }
  }

  lemma {:induction false} ColumnAt<T>(buckets: seq<seq<T>>, depth: nat, b: nat)
    requires b < |buckets| && depth < |buckets[b]|
    ensures |Column(buckets[..b], depth)| < |Column(buckets, depth)|
    ensures Column(buckets, depth)[|Column(buckets[..b], depth)|] == buckets[b][depth]
  {
    var n := |buckets| - 1;
    if b < n {
      ColumnAt(buckets[..n], depth, b);
      assert buckets[..n][..b] == buckets[..b];
    }
  }

  /**
   Round robin, exactly: element `d` of bucket `b` comes after `d` full rounds and
   after the elements that the earlier buckets give in its own round.
   */
  lemma {:induction false} InterleavedAt<T>(buckets: seq<seq<T>>, from: nat, b: nat, d: nat)
    requires b < |buckets| && from <= d < |buckets[b]|
    ensures var p := InRounds(buckets, d) - InRounds(buckets, from) + |Column(buckets[..b], d)|;
      0 <= p < |Interleaved(buckets, from)| && Interleaved(buckets, from)[p] == buckets[b][d]
    decreases d - from
  {
    hide Column, InRounds, Deepest;
    assert AnyDeeper(buckets, from);
    RoundSize(buckets, from);
    if from == d {
      ColumnAt(buckets, d, b);
    } else {
      InterleavedAt(buckets, from + 1, b, d);
    }
  }

  // ----- filling the splits -----

  /**
   The splits filled in turn: each takes an exact selection from what the earlier
   ones left, and the first that cannot be filled fails the whole call.
   */
  function FillSplits(candidates: seq<Session<Row>>, counts: seq<SplitCount>): Optional.Option<(seq<seq<Session<Row>>>, seq<Session<Row>>)>
    decreases |counts|
  {
    if counts == [] then Optional.Some(([], candidates))
    else if !Reach(Sizes(candidates), counts[0].count) then Optional.None
    else
      var chosen := Chosen(Sizes(candidates), counts[0].count);
      match FillSplits(Pick(candidates, chosen, false), counts[1..])
      case None => Optional.None
      case Some((parts, left)) => Optional.Some(([Pick(candidates, chosen, true)] + parts, left))
  }

  function Total(counts: seq<SplitCount>): nat {
    if counts == [] then 0 else counts[0].count + Total(counts[1..])
  }

  lemma FlattenFront<T>(first: seq<T>, rest: seq<seq<T>>)
    ensures Flatten([first] + rest) == first + Flatten(rest)
  {
    if rest == [] {
      assert [first] + rest == [first];
      assert Flatten([first][..0]) == [];
      assert first + Flatten(rest) == first;
    } else {
      var n := |rest| - 1;
      FlattenFront(first, rest[..n]);
      assert ([first] + rest)[..n + 1] == [first] + rest[..n];
    }
  }

  lemma FillFirst(candidates: seq<Session<Row>>, counts: seq<SplitCount>)
    requires counts != [] && FillSplits(candidates, counts).Some?
    ensures Reach(Sizes(candidates), counts[0].count)
    ensures var chosen := Chosen(Sizes(candidates), counts[0].count);
      var rest := FillSplits(Pick(candidates, chosen, false), counts[1..]);
      && rest.Some?
      && FillSplits(candidates, counts).value == ([Pick(candidates, chosen, true)] + rest.value.0, rest.value.1)
  {
    hide Pick, Chosen, Reach, Sizes;
  }

  /** Filled splits have exactly the requested rows, and with what is left make up the candidates. */
  lemma {:induction false} FilledSplitsAreExact(candidates: seq<Session<Row>>, counts: seq<SplitCount>)
    requires FillSplits(candidates, counts).Some?
    ensures var (parts, left) := FillSplits(candidates, counts).value;
      && |parts| == |counts|
      && (forall k :: 0 <= k < |parts| ==> RowCount(parts[k]) == counts[k].count)
      && multiset(Flatten(parts)) + multiset(left) == multiset(candidates)
    decreases |counts|
  {
    if counts != [] {
      hide Pick, Chosen, Reach, Sizes, RowCount, FillSplits, Flatten, SumAt;
      FillFirst(candidates, counts);
      var sizes := Sizes(candidates);
      var chosen := Chosen(sizes, counts[0].count);
      var first, rest := Pick(candidates, chosen, true), Pick(candidates, chosen, false);
      ChosenSums(sizes, counts[0].count);
      RowCountOfPick(candidates, chosen);
      PickPartitions(candidates, chosen);
      FilledSplitsAreExact(rest, counts[1..]);
      FlattenFront(first, FillSplits(rest, counts[1..]).value.0);
    }
  }

  /** A single split is filled whenever some selection of sessions fits it. */
  lemma SingleSplitIsComplete(candidates: seq<Session<Row>>, count: SplitCount)
    ensures FillSplits(candidates, [count]).Some? <==> HasSubset(Sizes(candidates), count.count)
  {
    hide Pick, Chosen, Reach, Sizes, HasSubset;
    ReachIffSubset(Sizes(candidates), count.count);
    assert [count][1..] == [];
  }

  /** With one row per session, any counts that fit in total are filled. */
  lemma {:induction false} SingleRowSessionsAlwaysFill(candidates: seq<Session<Row>>, counts: seq<SplitCount>)
    requires forall i :: 0 <= i < |candidates| ==> |candidates[i].rows| == 1
    ensures FillSplits(candidates, counts).Some? <==> Total(counts) <= |candidates|
    decreases |counts|
  {
    hide Pick, Chosen, Reach;
    if counts != [] {
      ReachOfOnes(Sizes(candidates), counts[0].count);
      if counts[0].count <= |candidates| {
        var chosen := Chosen(Sizes(candidates), counts[0].count);
        var kept, rest := Pick(candidates, chosen, true), Pick(candidates, chosen, false);
        PickPartitions(candidates, chosen);
        ChosenSums(Sizes(candidates), counts[0].count);
        RowCountOfPick(candidates, chosen);
        AllFromCandidates(candidates, kept, rest);
        RowCountOfOnes(kept);
        SingleRowSessionsAlwaysFill(rest, counts[1..]);
      }
    }
  }

  lemma AllFromCandidates<T>(s: seq<T>, a: seq<T>, b: seq<T>)
    requires multiset(a) + multiset(b) == multiset(s)
    ensures |a| + |b| == |s|
    ensures forall i :: 0 <= i < |a| ==> a[i] in s
    ensures forall i :: 0 <= i < |b| ==> b[i] in s
  {
    assert |multiset(a) + multiset(b)| == |a| + |b|;
    forall i | 0 <= i < |a| ensures a[i] in s { assert a[i] in multiset(s); }
    forall i | 0 <= i < |b| ensures b[i] in s { assert b[i] in multiset(s); }
  }

  lemma {:induction false} ReachOfOnes(sizes: seq<nat>, total: nat)
    requires forall i :: 0 <= i < |sizes| ==> sizes[i] == 1
    ensures Reach(sizes, total) <==> total <= |sizes|
    decreases |sizes|
  {
    if sizes != [] {
      ReachOfOnes(sizes[..|sizes| - 1], total);
      if total > 0 { ReachOfOnes(sizes[..|sizes| - 1], total - 1); }
    }
  }

  lemma {:induction false} RowCountOfOnes(sessions: seq<Session<Row>>)
    requires forall i :: 0 <= i < |sessions| ==> |sessions[i].rows| == 1
    ensures RowCount(sessions) == |sessions|
  {
    if sessions != [] { RowCountOfOnes(sessions[..|sessions| - 1]); }
  }
}
