/**
 `_choose_exact_sessions`: pick whole sessions whose row counts sum to exactly
 the target, by a 0/1 subset-sum table with one parent per total.
 */
module SessionSplit {

  import opened Optional

  /** A session: its id, its rows, and the prompt-length bucket it was ranked into. */
  datatype Session<R> = Session(id: string, rows: seq<R>, bucket: nat)

  /** What the function returns, or the exception it raises. */
  datatype Outcome<S> =
    | Split(selected: seq<S>, remaining: seq<S>)
    | ValueError

  function Sizes<R>(sessions: seq<Session<R>>): (r: seq<nat>)
    ensures |r| == |sessions|
    ensures forall i :: 0 <= i < |r| ==> r[i] == |sessions[i].rows|
  {
    seq(|sessions|, i requires 0 <= i < |sessions| => |sessions[i].rows|)
  }

  function RowCount<R>(sessions: seq<Session<R>>): nat {
    if sessions == [] then 0 else RowCount(sessions[..|sessions| - 1]) + |sessions[|sessions| - 1].rows|
  }

  // ----- subset sums -----

  function MaskSum(sizes: seq<nat>, mask: seq<bool>): nat
    requires |mask| == |sizes|
  {
    if sizes == [] then 0
    else
      var n := |sizes| - 1;
      MaskSum(sizes[..n], mask[..n]) + if mask[n] then sizes[n] else 0
  }

  /** Some choice of entries of `sizes` sums to `total`. */
  ghost predicate HasSubset(sizes: seq<nat>, total: nat) {
    exists mask: seq<bool> :: |mask| == |sizes| && MaskSum(sizes, mask) == total
  }

  /** The recursion the table computes. */
  predicate Reach(sizes: seq<nat>, total: nat)
    decreases |sizes|
  {
    if sizes == [] then total == 0
    else
      var n := |sizes| - 1;
      Reach(sizes[..n], total) || (sizes[n] <= total && Reach(sizes[..n], total - sizes[n]))
  }

  lemma {:induction false} ReachIffSubset(sizes: seq<nat>, total: nat)
    ensures Reach(sizes, total) <==> HasSubset(sizes, total)
    decreases |sizes|
  {
    if sizes == [] {
      assert MaskSum([], []) == 0;
    } else {
      var n := |sizes| - 1;
      ReachIffSubset(sizes[..n], total);
      if sizes[n] <= total { ReachIffSubset(sizes[..n], total - sizes[n]); }
      if Reach(sizes, total) {
        var take := !Reach(sizes[..n], total);
        var rest := if take then total - sizes[n] else total;
        var mask :| |mask| == n && MaskSum(sizes[..n], mask) == rest;
        assert (mask + [take])[..n] == mask;
        assert MaskSum(sizes, mask + [take]) == total;
      }
      if HasSubset(sizes, total) {
        var mask: seq<bool> :| |mask| == |sizes| && MaskSum(sizes, mask) == total;
        assert MaskSum(sizes[..n], mask[..n]) == if mask[n] then total - sizes[n] else total;
        assert |mask[..n]| == |sizes[..n]|;
      }
    }
  }

  lemma {:induction false} ReachMonotone(sizes: seq<nat>, m: nat, n: nat, total: nat)
    requires m <= n <= |sizes| && Reach(sizes[..m], total)
    ensures Reach(sizes[..n], total)
    decreases n
  {
    if m < n {
      ReachMonotone(sizes, m, n - 1, total);
      assert sizes[..n][..n - 1] == sizes[..n - 1];
    }
  }

  lemma ReachExtends(sizes: seq<nat>, n: nat, total: nat)
    requires n < |sizes|
    ensures Reach(sizes[..n + 1], total)
      <==> Reach(sizes[..n], total) || (sizes[n] <= total && Reach(sizes[..n], total - sizes[n]))
  {
    assert sizes[..n + 1][..n] == sizes[..n];
  }

  // ----- the selection -----

  /** The positions selected for `total`: each time the shortest prefix that reaches what is left. */
  function Chosen(sizes: seq<nat>, total: nat): (r: set<nat>)
    requires Reach(sizes, total)
    ensures forall i :: i in r ==> i < |sizes|
    decreases |sizes|
  {
    if total == 0 then {}
    else
      var n := |sizes| - 1;
      if Reach(sizes[..n], total) then Chosen(sizes[..n], total)
      else Chosen(sizes[..n], total - sizes[n]) + {n}
  }

  function SumAt(sizes: seq<nat>, positions: set<nat>): nat {
    if sizes == [] then 0
    else
      var n := |sizes| - 1;
      SumAt(sizes[..n], positions) + if n in positions then sizes[n] else 0
  }

  lemma {:induction false} SumAtIgnoresBeyond(sizes: seq<nat>, a: set<nat>, b: set<nat>)
    requires forall i :: 0 <= i < |sizes| ==> (i in a <==> i in b)
    ensures SumAt(sizes, a) == SumAt(sizes, b)
  {
    if sizes != [] {
      SumAtIgnoresBeyond(sizes[..|sizes| - 1], a, b);
    }
  }

  lemma {:induction false} SumAtNothing(sizes: seq<nat>)
    ensures SumAt(sizes, {}) == 0
  {
    if sizes != [] {
      SumAtNothing(sizes[..|sizes| - 1]);
    }
  }

  /** The selection has exactly the requested size. */
  lemma {:induction false} ChosenSums(sizes: seq<nat>, total: nat)
    requires Reach(sizes, total)
    ensures SumAt(sizes, Chosen(sizes, total)) == total
    decreases |sizes|
  {
    if total == 0 {
      SumAtNothing(sizes);
    } else {
      var n := |sizes| - 1;
      if Reach(sizes[..n], total) {
        ChosenSums(sizes[..n], total);
      } else {
        ChosenSums(sizes[..n], total - sizes[n]);
        SumAtIgnoresBeyond(sizes[..n], Chosen(sizes, total), Chosen(sizes[..n], total - sizes[n]));
      }
    }
  }

  /** The selection stays within the first `n` sessions exactly when some selection could. */
  lemma {:induction false} ChosenUsesShortestPrefix(sizes: seq<nat>, total: nat, n: nat)
    requires Reach(sizes, total) && n <= |sizes|
    ensures (forall i :: i in Chosen(sizes, total) ==> i < n) <==> Reach(sizes[..n], total)
    decreases |sizes|
  {
    if total == 0 {
      ReachZero(sizes[..n]);
    } else {
      var last := |sizes| - 1;
      if n == |sizes| {
        assert sizes[..n] == sizes;
      } else if Reach(sizes[..last], total) {
        ChosenUsesShortestPrefix(sizes[..last], total, n);
        assert Chosen(sizes, total) == Chosen(sizes[..last], total);
        assert sizes[..last][..n] == sizes[..n];
      } else {
        assert last in Chosen(sizes, total);
        if Reach(sizes[..n], total) {
          ReachMonotone(sizes, n, last, total);
        }
      }
    }
  }

  lemma {:induction false} ReachZero(sizes: seq<nat>)
    ensures Reach(sizes, 0)
  {
    if sizes != [] { ReachZero(sizes[..|sizes| - 1]); }
  }

  /** Positions below `n` that are in the set, or that are not, in increasing order. */
  function Positions(n: nat, chosen: set<nat>, wanted: bool): (r: seq<nat>)
    ensures forall k :: 0 <= k < |r| ==> r[k] < n && (r[k] in chosen) == wanted
    ensures forall i :: 0 <= i < n && (i in chosen) == wanted ==> i in r
    ensures forall k, l :: 0 <= k < l < |r| ==> r[k] < r[l]
  {
    if n == 0 then [] else Positions(n - 1, chosen, wanted) + if (n - 1 in chosen) == wanted then [n - 1] else []
  }

  function At<T>(s: seq<T>, positions: seq<nat>): (r: seq<T>)
    requires forall k :: 0 <= k < |positions| ==> positions[k] < |s|
    ensures |r| == |positions|
    ensures forall k :: 0 <= k < |r| ==> r[k] == s[positions[k]]
  {
    seq(|positions|, k requires 0 <= k < |positions| => s[positions[k]])
  }

  /** The sessions whose position is (or is not) chosen, in their original order. */
  function Pick<T>(s: seq<T>, chosen: set<nat>, wanted: bool): (r: seq<T>) {
    At(s, Positions(|s|, chosen, wanted))
  }

  lemma PickPrefix<T>(s: seq<T>, n: nat, chosen: set<nat>, wanted: bool)
    requires n < |s|
    ensures Pick(s[..n + 1], chosen, wanted)
      == Pick(s[..n], chosen, wanted) + if (n in chosen) == wanted then [s[n]] else []
  {
  }

  lemma PickNothing<T>(s: seq<T>, chosen: set<nat>, wanted: bool)
    ensures Pick(s[..0], chosen, wanted) == []
  {
  }

  /** Nothing is lost and nothing used twice: the two parts make up the input. */
  lemma {:induction false} PickPartitions<T>(s: seq<T>, chosen: set<nat>)
    ensures multiset(Pick(s, chosen, true)) + multiset(Pick(s, chosen, false)) == multiset(s)
  {
    hide Pick;
    if s == [] {
      PickNothing(s, chosen, true);
      PickNothing(s, chosen, false);
      assert s[..0] == s;
    } else {
      var n := |s| - 1;
      PickPartitions(s[..n], chosen);
      PickPrefix(s, n, chosen, true);
      PickPrefix(s, n, chosen, false);
      assert s[..n + 1] == s == s[..n] + [s[n]];
      AppendToOne(Pick(s[..n], chosen, true), Pick(s[..n], chosen, false), s[n]);
    }
  }

  lemma AppendToOne<T>(a: seq<T>, b: seq<T>, x: T)
    ensures multiset(a + [x]) + multiset(b + []) == multiset(a) + multiset(b) + multiset{x}
    ensures multiset(a + []) + multiset(b + [x]) == multiset(a) + multiset(b) + multiset{x}
  {
    assert a + [] == a && b + [] == b;
  }

  lemma RowCountAppend<R>(sessions: seq<Session<R>>, last: Session<R>)
    ensures RowCount(sessions + [last]) == RowCount(sessions) + |last.rows|
  {
    assert (sessions + [last])[..|sessions|] == sessions;
  }

  lemma SizesOfPrefix<R>(sessions: seq<Session<R>>, n: nat)
    requires n <= |sessions|
    ensures Sizes(sessions)[..n] == Sizes(sessions[..n])
  {
  }

  lemma {:induction false} RowCountOfPick<R>(sessions: seq<Session<R>>, chosen: set<nat>)
    ensures RowCount(Pick(sessions, chosen, true)) == SumAt(Sizes(sessions), chosen)
  {
    hide Pick, Sizes;
    if sessions == [] {
      PickNothing(sessions, chosen, true);
      assert sessions[..0] == sessions;
    } else {
      var n := |sessions| - 1;
      RowCountOfPick(sessions[..n], chosen);
      SizesOfPrefix(sessions, n);
      PickPrefix(sessions, n, chosen, true);
      assert sessions[..n + 1] == sessions;
      hide RowCount;
      var before := Pick(sessions[..n], chosen, true);
      RowCountAppend(before, sessions[n]);
      assert before + [] == before;
    }
  }

  /** What a successful call returns. */
  ghost predicate ExactSplit<R>(sessions: seq<Session<R>>, target: nat, selected: seq<Session<R>>, remaining: seq<Session<R>>) {
    && Reach(Sizes(sessions), target)
    && selected == Pick(sessions, Chosen(Sizes(sessions), target), true)
    && remaining == Pick(sessions, Chosen(Sizes(sessions), target), false)
  }

  /**
   A returned split is an order-preserving partition of the sessions (each part
   lists them at strictly increasing positions), and the selected part has
   exactly the target number of rows.
   */
  lemma SplitIsExactPartition<R>(sessions: seq<Session<R>>, target: nat, selected: seq<Session<R>>, remaining: seq<Session<R>>)
    requires ExactSplit(sessions, target, selected, remaining)
    ensures RowCount(selected) == target
    ensures multiset(selected) + multiset(remaining) == multiset(sessions)
    ensures exists chosen: set<nat> ::
      selected == At(sessions, Positions(|sessions|, chosen, true))
      && remaining == At(sessions, Positions(|sessions|, chosen, false))
  {
    var chosen := Chosen(Sizes(sessions), target);
    ChosenSums(Sizes(sessions), target);
    RowCountOfPick(sessions, chosen);
    PickPartitions(sessions, chosen);
    assert selected == At(sessions, Positions(|sessions|, chosen, true))
      && remaining == At(sessions, Positions(|sessions|, chosen, false));
  }

  // ----- the table -----

  /** What `parent[total]` records once `total` is reachable: the step that first reached it. */
  ghost predicate FirstReached(sizes: seq<nat>, bound: nat, total: nat, step: Option<(nat, nat)>) {
    && step.Some?
    && var (previous, index) := step.value;
    && index < bound <= |sizes|
    && previous + sizes[index] == total
    && !Reach(sizes[..index], total)
    && Reach(sizes[..index], previous)
  }

  /** Following a parent is one step of the selection, and moves to a strictly earlier session. */
  lemma {:induction false} ParentStep(sizes: seq<nat>, bound: nat, total: nat, step: Option<(nat, nat)>)
    requires FirstReached(sizes, bound, total, step) && total > 0
    requires Reach(sizes[..bound], total)
    ensures var (previous, index) := step.value;
      previous < total && Chosen(sizes[..bound], total) == Chosen(sizes[..index], previous) + {index}
    decreases bound
  {
    var (previous, index) := step.value;
    assert sizes[..bound][..bound - 1] == sizes[..bound - 1];
    assert sizes[index] > 0;
    if index < bound - 1 {
      ReachExtends(sizes, index, total);
      ReachMonotone(sizes, index + 1, bound - 1, total);
      ParentStep(sizes, bound - 1, total, step);
    }
  }

  lemma FirstReachedIsEarlier(sizes: seq<nat>, bound: nat, m: nat, total: nat, step: Option<(nat, nat)>)
    requires FirstReached(sizes, bound, total, step) && m <= |sizes| && Reach(sizes[..m], total)
    ensures FirstReached(sizes, m, total, step)
  {
    var (previous, index) := step.value;
    if m <= index {
      ReachMonotone(sizes, m, index, total);
    }
  }

  /** Row `index` of the table has been applied to the totals above `low`, the row before it to the rest. */
  ghost predicate TableRow(sizes: seq<nat>, index: nat, low: int, reachable: seq<bool>, parent: seq<Option<(nat, nat)>>) {
    && |reachable| == |parent| && index < |sizes|
    && (forall t :: 0 <= t < |reachable| ==>
          (reachable[t] <==> Reach(sizes[..if t > low then index + 1 else index], t)))
    && (forall t :: 0 < t < |reachable| && reachable[t] ==>
          FirstReached(sizes, if t > low then index + 1 else index, t, parent[t]))
  }

  ghost predicate Table(sizes: seq<nat>, index: nat, reachable: seq<bool>, parent: seq<Option<(nat, nat)>>) {
    && |reachable| == |parent| && index <= |sizes|
    && (forall t :: 0 <= t < |reachable| ==> (reachable[t] <==> Reach(sizes[..index], t)))
    && (forall t :: 0 < t < |reachable| && reachable[t] ==> FirstReached(sizes, index, t, parent[t]))
  }

  lemma TableStartsRow(sizes: seq<nat>, index: nat, reachable: seq<bool>, parent: seq<Option<(nat, nat)>>)
    requires Table(sizes, index, reachable, parent) && index < |sizes|
    ensures TableRow(sizes, index, |reachable| - 1, reachable, parent)
  {
  }

  /** Totals below the row's size are unaffected by it, so they may count as done. */
  lemma RowEndsTable(sizes: seq<nat>, index: nat, low: int, reachable: seq<bool>, parent: seq<Option<(nat, nat)>>)
    requires TableRow(sizes, index, low, reachable, parent) && low < sizes[index]
    ensures Table(sizes, index + 1, reachable, parent)
  {
    forall t | 0 <= t < |reachable|
      ensures reachable[t] <==> Reach(sizes[..index + 1], t)
      ensures 0 < t && reachable[t] ==> FirstReached(sizes, index + 1, t, parent[t])
    {
      ReachExtends(sizes, index, t);
    }
  }

  /** One cell: `total` becomes reachable through this session if it was not reachable without it. */
  lemma CellUpdate(
      sizes: seq<nat>, index: nat, total: nat,
      reachable: seq<bool>, parent: seq<Option<(nat, nat)>>,
      reachable': seq<bool>, parent': seq<Option<(nat, nat)>>)
    requires TableRow(sizes, index, total, reachable, parent)
    requires sizes[index] <= total < |reachable|
    requires if !reachable[total] && reachable[total - sizes[index]]
      then reachable' == reachable[total := true] && parent' == parent[total := Some((total - sizes[index], index))]
      else reachable' == reachable && parent' == parent
    ensures TableRow(sizes, index, total - 1, reachable', parent')
  {
    ReachExtends(sizes, index, total);
  }

  lemma NothingReached(sizes: seq<nat>, reachable: seq<bool>, parent: seq<Option<(nat, nat)>>)
    requires |reachable| == |parent| > 0
    requires forall t :: 0 <= t < |reachable| ==> (reachable[t] <==> t == 0)
    ensures Table(sizes, 0, reachable, parent)
  {
  }

  /** A reachable total has its parent, so the walk never meets a missing one. */
  lemma ParentPresent(sizes: seq<nat>, index: nat, reachable: seq<bool>, parent: seq<Option<(nat, nat)>>, total: nat)
    requires Table(sizes, index, reachable, parent) && 0 < total < |reachable|
    requires Reach(sizes[..index], total)
    ensures parent[total].Some?
    ensures FirstReached(sizes, index, total, parent[total])
  {
  }

  lemma ParentFields(sizes: seq<nat>, bound: nat, total: nat, step: Option<(nat, nat)>)
    requires FirstReached(sizes, bound, total, step)
    ensures step.Some? && step.value.1 < bound <= |sizes| && Reach(sizes[..step.value.1], step.value.0)
  {
  }

  lemma {:induction false} ChosenOfPrefix(sizes: seq<nat>, m: nat, n: nat, total: nat)
    requires m <= n <= |sizes| && Reach(sizes[..m], total)
    ensures Reach(sizes[..n], total) && Chosen(sizes[..n], total) == Chosen(sizes[..m], total)
    decreases n
  {
    ReachMonotone(sizes, m, n, total);
    if m < n {
      ChosenOfPrefix(sizes, m, n - 1, total);
      assert sizes[..n][..n - 1] == sizes[..n - 1];
      if total == 0 {
        NothingLeftToChoose(sizes[..n]);
        NothingLeftToChoose(sizes[..m]);
      }
    }
  }

  lemma NothingLeftToChoose(sizes: seq<nat>)
    ensures Reach(sizes, 0) && Chosen(sizes, 0) == {}
  {
    ReachZero(sizes);
  }

  // ----- the method -----

  /** The inner loop: one session, totals taken from the target downwards. */
  method ApplySession(reachable: array<bool>, parent: array<Option<(nat, nat)>>, index: nat, size: nat, ghost sizes: seq<nat>)
    requires reachable.Length == parent.Length > size
    requires Table(sizes, index, reachable[..], parent[..])
    requires index < |sizes| && size == sizes[index]
    modifies reachable, parent
    ensures Table(sizes, index + 1, reachable[..], parent[..])
  {
    hide Reach, FirstReached, TableRow, Table;
    var total := reachable.Length - 1;
    TableStartsRow(sizes, index, reachable[..], parent[..]);
    while total >= size
      invariant size - 1 <= total < reachable.Length
      invariant TableRow(sizes, index, total, reachable[..], parent[..])
    {
      ghost var reachable0, parent0 := reachable[..], parent[..];
      if !reachable[total] && reachable[total - size] {
        reachable[total] := true;
        parent[total] := Some((total - size, index));
      }
      CellUpdate(sizes, index, total, reachable0, parent0, reachable[..], parent[..]);
      total := total - 1;
    }
    RowEndsTable(sizes, index, total, reachable[..], parent[..]);
  }

  lemma SkippedSession(sizes: seq<nat>, index: nat, reachable: seq<bool>, parent: seq<Option<(nat, nat)>>)
    requires Table(sizes, index, reachable, parent) && index < |sizes| && sizes[index] >= |reachable|
    ensures Table(sizes, index + 1, reachable, parent)
  {
    TableStartsRow(sizes, index, reachable, parent);
    RowEndsTable(sizes, index, |reachable| - 1, reachable, parent);
  }

  /** `[session for index, session in enumerate(sessions) if (index in chosen) == wanted]`. */
  method Filter<T>(s: seq<T>, chosen: set<nat>, wanted: bool) returns (r: seq<T>)
    ensures r == Pick(s, chosen, wanted)
  {
    hide Pick;
    r := [];
    var i := 0;
    PickNothing(s, chosen, wanted);
    while i < |s|
      invariant i <= |s|
      invariant r == Pick(s[..i], chosen, wanted)
    {
      PickPrefix(s, i, chosen, wanted);
      if (i in chosen) == wanted {
        r := r + [s[i]];
      }
      i := i + 1;
    }
    assert s[..|s|] == s;
  }

  method ChooseExactSessions<R>(sessions: seq<Session<R>>, target: nat) returns (r: Outcome<Session<R>>)
    ensures r.ValueError? <==> !HasSubset(Sizes(sessions), target)
    ensures r.Split? ==> ExactSplit(sessions, target, r.selected, r.remaining)
  {
    hide Reach, Chosen, FirstReached, HasSubset, Pick, Table;
    ghost var sizes := Sizes(sessions);
    ReachIffSubset(sizes, target);
    assert sizes[..|sizes|] == sizes;

    var reachable := new bool[target + 1](_ => false);
    reachable[0] := true;
    var parent := new Option<(nat, nat)>[target + 1](_ => None);
    NothingReached(sizes, reachable[..], parent[..]);
    var index := 0;
    while index < |sessions|
      invariant index <= |sessions|
      invariant Table(sizes, index, reachable[..], parent[..])
    {
      var size := |sessions[index].rows|;
      if size > target {
        SkippedSession(sizes, index, reachable[..], parent[..]);
      } else {
        ApplySession(reachable, parent, index, size, sizes);
      }
      index := index + 1;
      if size <= target && reachable[target] {
        break;
      }
    }
    CellMeaning(sizes, index, reachable[..], parent[..], target);
    if !reachable[target] {
      return ValueError;
    }
    ChosenOfPrefix(sizes, index, |sizes|, target);

    var chosen: set<nat> := {};
    var total := target;
    ghost var bound := index;
    while total != 0
      invariant total <= target && bound <= index <= |sizes|
      invariant Table(sizes, index, reachable[..], parent[..])
      invariant Reach(sizes[..bound], total)
      invariant Chosen(sizes[..index], target) == chosen + Chosen(sizes[..bound], total)
      decreases total
    {
      ReachMonotone(sizes, bound, index, total);
      ParentPresent(sizes, index, reachable[..], parent[..], total);
      if parent[total].None? {
        // `raise RuntimeError("invalid subset-sum parent chain")`
        assert false;
      }
      FirstReachedIsEarlier(sizes, index, bound, total, parent[total]);
      ParentFields(sizes, bound, total, parent[total]);
      ParentStep(sizes, bound, total, parent[total]);
      var (previous, position) := parent[total].value;
      assert chosen + (Chosen(sizes[..position], previous) + {position})
        == (chosen + {position}) + Chosen(sizes[..position], previous);
      chosen := chosen + {position};
      total := previous;
      bound := position;
    }
    NothingLeftToChoose(sizes[..bound]);
    assert chosen + {} == chosen;
    var selected := Filter(sessions, chosen, true);
    var remaining := Filter(sessions, chosen, false);
    return Split(selected, remaining);
  }

  /** Leaving the table early loses nothing: the target is reachable at the end if and only if it is here. */
  lemma CellMeaning(sizes: seq<nat>, index: nat, reachable: seq<bool>, parent: seq<Option<(nat, nat)>>, target: nat)
    requires Table(sizes, index, reachable, parent) && target < |reachable|
    requires index == |sizes| || reachable[target]
    ensures reachable[target] <==> Reach(sizes, target)
    ensures reachable[target] ==> Reach(sizes[..index], target)
  {
    assert sizes[..|sizes|] == sizes;
    if reachable[target] {
      ReachMonotone(sizes, index, |sizes|, target);
    }
  }
}
