/**
 The orders that Python's tuple and string comparisons induce, and the stable
 sort that `sorted` and `list.sort` perform under them.
 */
module Orders {

  function RMax(a: real, b: real): real {
    if a < b then b else a
  }

  function RMin(a: real, b: real): real {
    if b < a then b else a
  }

  /** `p / a < q / b` without the divisions. */
  lemma QuotientsCompare(p: real, a: real, q: real, b: real)
    requires a > 0.0 && b > 0.0
    ensures p / a < q / b <==> p * b < q * a
    ensures p / a == q / b <==> p * b == q * a
  {
    var x, y := p / a, q / b;
    assert x * a == p && y * b == q;
    assert p * b == x * (a * b) && q * a == y * (a * b);
    assert a * b > 0.0;
    ScaleCompare(x, y, a * b);
  }

  lemma ScaleCompare(x: real, y: real, c: real)
    requires c > 0.0
    ensures x < y <==> x * c < y * c
    ensures x == y <==> x * c == y * c
  {
    if x < y {
      assert (y - x) * c > 0.0;
    } else if y < x {
      assert (x - y) * c > 0.0;
    }
  }

  /** Code point order on strings. */
  predicate StringLe(a: string, b: string) {
    if a == "" then true
    else if b == "" then false
    else if a[0] != b[0] then a[0] < b[0]
    else StringLe(a[1..], b[1..])
  }

  lemma StringLeTotal(a: string, b: string)
    ensures StringLe(a, b) || StringLe(b, a)
  {
  }

  lemma {:induction false} StringLeAntisymmetric(a: string, b: string)
    requires StringLe(a, b) && StringLe(b, a)
    ensures a == b
  {
    if a != "" && b != "" {
      StringLeAntisymmetric(a[1..], b[1..]);
      assert a == [a[0]] + a[1..] && b == [b[0]] + b[1..];
    }
  }

  lemma {:induction false} StringLeTransitive(a: string, b: string, c: string)
    requires StringLe(a, b) && StringLe(b, c)
    ensures StringLe(a, c)
  {
    if a != "" && a[0] == b[0] && b[0] == c[0] {
      StringLeTransitive(a[1..], b[1..], c[1..]);
    }
  }

  /** A sort key: two numbers, then an identifier. */
  datatype Key = Key(first: real, second: real, id: string)

  /** Tuple order on keys. */
  predicate KeyLe(a: Key, b: Key) {
    || a.first < b.first
    || (a.first == b.first &&
        (|| a.second < b.second
         || (a.second == b.second && StringLe(a.id, b.id))))
  }

  lemma KeyLeTotal(a: Key, b: Key)
    ensures KeyLe(a, b) || KeyLe(b, a)
  {
    StringLeTotal(a.id, b.id);
  }

  lemma KeyLeAntisymmetric(a: Key, b: Key)
    requires KeyLe(a, b) && KeyLe(b, a)
    ensures a == b
  {
    StringLeAntisymmetric(a.id, b.id);
  }

  lemma KeyLeTransitive(a: Key, b: Key, c: Key)
    requires KeyLe(a, b) && KeyLe(b, c)
    ensures KeyLe(a, c)
  {
    if StringLe(a.id, b.id) && StringLe(b.id, c.id) {
      StringLeTransitive(a.id, b.id, c.id);
    }
  }
}

/** `sorted(s, key=key)`: a stable insertion sort, and what determines its result. */
module Sorting {
  import opened Orders

  ghost predicate SortedBy<T>(key: T -> Key, s: seq<T>) {
    forall i, j :: 0 <= i < j < |s| ==> KeyLe(key(s[i]), key(s[j]))
  }

  /** No two positions of s hold elements with the same key. */
  ghost predicate DistinctKeys<T>(key: T -> Key, s: seq<T>) {
    forall i, j :: 0 <= i < j < |s| ==> key(s[i]) != key(s[j])
  }

  function Insert<T>(key: T -> Key, x: T, s: seq<T>): (r: seq<T>)
    ensures multiset(r) == multiset{x} + multiset(s)
    ensures |r| == |s| + 1
  {
    if s == [] || KeyLe(key(x), key(s[0])) then
      [x] + s
    else
      assert s == [s[0]] + s[1..];
      [s[0]] + Insert(key, x, s[1..])
  }

  function Sort<T>(key: T -> Key, s: seq<T>): (r: seq<T>)
    ensures multiset(r) == multiset(s)
    ensures |r| == |s|
  {
    if s == [] then []
    else
      assert s == [s[0]] + s[1..];
      Insert(key, s[0], Sort(key, s[1..]))
  }

  lemma {:induction false} InsertSorted<T>(key: T -> Key, x: T, s: seq<T>)
    requires SortedBy(key, s)
    ensures SortedBy(key, Insert(key, x, s))
  {
    if s == [] {
    } else if KeyLe(key(x), key(s[0])) {
      forall j | 0 <= j < |s| ensures KeyLe(key(x), key(s[j])) {
        if j > 0 { KeyLeTransitive(key(x), key(s[0]), key(s[j])); }
      }
    } else {
      KeyLeTotal(key(x), key(s[0]));
      InsertSorted(key, x, s[1..]);
      var r := Insert(key, x, s[1..]);
      forall j | 0 <= j < |r| ensures KeyLe(key(s[0]), key(r[j])) {
        assert r[j] in multiset(r);
        assert r[j] == x || r[j] in s[1..];
      }
    }
  }

  lemma {:induction false} SortIsSorted<T>(key: T -> Key, s: seq<T>)
    ensures SortedBy(key, Sort(key, s))
  {
    if s != [] {
      SortIsSorted(key, s[1..]);
      InsertSorted(key, s[0], Sort(key, s[1..]));
    }
  }

  /** The elements with one key, in order. */
  function WithKey<T>(key: T -> Key, s: seq<T>, k: Key): seq<T> {
    if s == [] then [] else (if key(s[0]) == k then [s[0]] else []) + WithKey(key, s[1..], k)
  }

  lemma WithKeyOfCons<T>(key: T -> Key, x: T, s: seq<T>, k: Key)
    ensures WithKey(key, [x] + s, k) == if key(x) == k then [x] + WithKey(key, s, k) else WithKey(key, s, k)
  {
    assert ([x] + s)[1..] == s;
  }

  lemma InsertUnfolds<T>(key: T -> Key, x: T, s: seq<T>)
    ensures s == [] || KeyLe(key(x), key(s[0])) ==> Insert(key, x, s) == [x] + s
    ensures s != [] && !KeyLe(key(x), key(s[0])) ==> Insert(key, x, s) == [s[0]] + Insert(key, x, s[1..])
  {
  }

  lemma {:induction false} InsertKeepsOrder<T>(key: T -> Key, x: T, s: seq<T>, k: Key)
    ensures WithKey(key, Insert(key, x, s), k) == (if key(x) == k then [x] else []) + WithKey(key, s, k)
  {
    hide KeyLe, Insert, WithKey;
    InsertUnfolds(key, x, s);
    if s == [] || KeyLe(key(x), key(s[0])) {
      WithKeyOfCons(key, x, s, k);
    } else {
      KeyLeTotal(key(x), key(x));
      InsertKeepsOrder(key, x, s[1..], k);
      WithKeyOfCons(key, s[0], Insert(key, x, s[1..]), k);
      WithKeyOfCons(key, s[0], s[1..], k);
      assert s == [s[0]] + s[1..];
    }
  }

  /** Sorting is stable: elements with the same key keep their order. */
  lemma {:induction false} SortIsStable<T>(key: T -> Key, s: seq<T>, k: Key)
    ensures WithKey(key, Sort(key, s), k) == WithKey(key, s, k)
  {
    if s != [] {
      SortIsStable(key, s[1..], k);
      InsertKeepsOrder(key, s[0], Sort(key, s[1..]), k);
    }
  }

  /** A list that is already in order is left alone. */
  lemma {:induction false} SortOfSorted<T>(key: T -> Key, s: seq<T>)
    requires SortedBy(key, s)
    ensures Sort(key, s) == s
  {
    if s != [] {
      SortOfSorted(key, s[1..]);
      assert s == [s[0]] + s[1..];
    }
  }

  /** The first element of a sorted list has the least key. */
  lemma HeadIsLeast<T>(key: T -> Key, s: seq<T>, x: T)
    requires SortedBy(key, s) && x in s
    ensures KeyLe(key(s[0]), key(x))
  {
    KeyLeTotal(key(x), key(x));
  }

  lemma SortedHeadsAgree<T>(key: T -> Key, a: seq<T>, b: seq<T>)
    requires SortedBy(key, a) && SortedBy(key, b) && DistinctKeys(key, a)
    requires a != [] && b != [] && a[0] in b && b[0] in a
    ensures a[0] == b[0]
  {
    HeadIsLeast(key, a, b[0]);
    HeadIsLeast(key, b, a[0]);
    KeyLeAntisymmetric(key(a[0]), key(b[0]));
  }

  lemma SameElements<T>(a: seq<T>, b: seq<T>)
    requires multiset(a) == multiset(b)
    ensures |a| == |b|
    ensures forall x :: x in a <==> x in b
  {
    assert |multiset(a)| == |multiset(b)|;
    forall x ensures x in a <==> x in b {
      assert x in a <==> x in multiset(a);
      assert x in b <==> x in multiset(b);
    }
  }

  lemma SubsetSize<T>(a: set<T>, b: set<T>)
    requires a <= b
    ensures |a| <= |b|
  {
    assert b == a + (b - a);
  }

  /** The keys decide the order: two sorted arrangements of the same elements coincide. */
  lemma {:induction false} SortedArrangementUnique<T>(key: T -> Key, a: seq<T>, b: seq<T>)
    requires SortedBy(key, a) && SortedBy(key, b)
    requires multiset(a) == multiset(b)
    requires DistinctKeys(key, a)
    ensures a == b
  {
    SameElements(a, b);
    if a != [] {
      SortedHeadsAgree(key, a, b);
      TailsHaveSameElements(a, b);
      SortedArrangementUnique(key, a[1..], b[1..]);
      assert a == [a[0]] + a[1..] && b == [b[0]] + b[1..];
    }
  }

  lemma TailsHaveSameElements<T>(a: seq<T>, b: seq<T>)
    requires a != [] && b != [] && a[0] == b[0] && multiset(a) == multiset(b)
    ensures multiset(a[1..]) == multiset(b[1..])
  {
    assert a == [a[0]] + a[1..] && b == [b[0]] + b[1..];
    assert multiset(a[1..]) == multiset(a) - multiset{a[0]};
    assert multiset(b[1..]) == multiset(b) - multiset{b[0]};
  }

  lemma RepeatedElementCount<T>(s: seq<T>, i: nat, j: nat)
    requires i < j < |s| && s[i] == s[j]
    ensures multiset(s)[s[i]] >= 2
  {
    assert s == s[..j] + s[j..];
    assert s[i] in s[..j] && s[j] in s[j..];
  }

  /** Elements taken from a distinctly keyed list, each as often as it occurs there, are distinctly keyed. */
  lemma DistinctKeysOfPart<T>(key: T -> Key, a: seq<T>, b: seq<T>)
    requires DistinctKeys(key, a)
    requires multiset(b) <= multiset(a)
    ensures DistinctKeys(key, b)
  {
    forall i, j | 0 <= i < j < |b| ensures key(b[i]) != key(b[j]) {
      assert b[i] in multiset(b) && b[j] in multiset(b);
      assert b[i] in a && b[j] in a;
      if b[i] == b[j] {
        RepeatedElementCount(b, i, j);
        DistinctKeysGiveCountOne(key, a, b[i]);
      }
    }
  }

  lemma DistinctKeysOfPermutation<T>(key: T -> Key, a: seq<T>, b: seq<T>)
    requires DistinctKeys(key, a)
    requires multiset(a) == multiset(b)
    ensures DistinctKeys(key, b)
  {
    DistinctKeysOfPart(key, a, b);
  }

  lemma {:induction false} DistinctKeysGiveCountOne<T>(key: T -> Key, a: seq<T>, x: T)
    requires DistinctKeys(key, a)
    ensures multiset(a)[x] <= 1
  {
    if a != [] {
      assert a == [a[0]] + a[1..];
      DistinctKeysGiveCountOne(key, a[1..], x);
      if x == a[0] {
        assert x !in a[1..];
      }
    }
  }

  /** Sorting forgets the order in which distinctly keyed elements came. */
  lemma SortIgnoresInputOrder<T>(key: T -> Key, a: seq<T>, b: seq<T>)
    requires multiset(a) == multiset(b)
    requires DistinctKeys(key, a)
    ensures Sort(key, a) == Sort(key, b)
  {
    SortIsSorted(key, a);
    SortIsSorted(key, b);
    DistinctKeysOfPermutation(key, a, Sort(key, a));
    SortedArrangementUnique(key, Sort(key, a), Sort(key, b));
  }
}
