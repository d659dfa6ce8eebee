/**
 Comparison sorting as `Array.prototype.sort` performs it: a stable sort by a caller-supplied
 comparison.  `before(a, b)` stands for "the comparator returns a negative number".
 */
module Ordering {

  /** The comparator is consistent: a strict weak order. */
  ghost predicate StrictWeakOrder<T(!new)>(before: (T, T) -> bool) {
    && (forall a :: !before(a, a))
    && (forall a, b, c :: before(a, b) && before(b, c) ==> before(a, c))
    && (forall a, b, c :: before(a, c) ==> before(a, b) || before(b, c))
  }

  /** Distinct values are always told apart. */
  ghost predicate StrictTotalOrder<T(!new)>(before: (T, T) -> bool) {
    && (forall a :: !before(a, a))
    && (forall a, b, c :: before(a, b) && before(b, c) ==> before(a, c))
    && (forall a, b :: a != b ==> before(a, b) || before(b, a))
  }

  /** No element is preceded by a later one. */
  ghost predicate Sorted<T>(before: (T, T) -> bool, s: seq<T>) {
    forall i, j :: 0 <= i < j < |s| ==> !before(s[j], s[i])
  }

  /** Any two positions hold comparable elements, so there is exactly one sorted arrangement. */
  ghost predicate PairwiseComparable<T>(before: (T, T) -> bool, s: seq<T>) {
    forall i, j :: 0 <= i < j < |s| ==> before(s[i], s[j]) || before(s[j], s[i])
  }

  function Insert<T>(before: (T, T) -> bool, x: T, s: seq<T>): seq<T> {
    if s == [] then [x]
    else if before(s[0], x) then [s[0]] + Insert(before, x, s[1..])
    else [x] + s
  }

  function StableSort<T>(before: (T, T) -> bool, s: seq<T>): seq<T> {
    if s == [] then [] else Insert(before, s[0], StableSort(before, s[1..]))
  }

  lemma {:induction false} InsertPermutes<T>(before: (T, T) -> bool, x: T, s: seq<T>)
    ensures multiset(Insert(before, x, s)) == multiset([x]) + multiset(s)
    ensures |Insert(before, x, s)| == |s| + 1
  {
    if s != [] && before(s[0], x) {
      assert s == [s[0]] + s[1..];
      InsertPermutes(before, x, s[1..]);
    }
  }

  lemma {:induction false} SortPermutes<T>(before: (T, T) -> bool, s: seq<T>)
    ensures multiset(StableSort(before, s)) == multiset(s)
    ensures |StableSort(before, s)| == |s|
  {
    if s != [] {
      assert s == [s[0]] + s[1..];
      SortPermutes(before, s[1..]);
      InsertPermutes(before, s[0], StableSort(before, s[1..]));
    }
  }

  lemma {:induction false} InsertSorted<T(!new)>(before: (T, T) -> bool, x: T, s: seq<T>)
    requires StrictWeakOrder(before) && Sorted(before, s)
    ensures Sorted(before, Insert(before, x, s))
  {
    if s != [] && before(s[0], x) {
      var rest := Insert(before, x, s[1..]);
      InsertSorted(before, x, s[1..]);
      InsertPermutes(before, x, s[1..]);
      forall j | 0 <= j < |rest| ensures !before(rest[j], s[0]) {
        assert rest[j] in multiset(rest);
        assert rest[j] == x || rest[j] in s[1..];
      }
    }
  }

  lemma {:induction false} SortSorted<T(!new)>(before: (T, T) -> bool, s: seq<T>)
    requires StrictWeakOrder(before)
    ensures Sorted(before, StableSort(before, s))
  {
    if s != [] {
      SortSorted(before, s[1..]);
      InsertSorted(before, s[0], StableSort(before, s[1..]));
    }
  }

  /** Two sorted arrangements of the same elements are the same sequence. */
  lemma {:induction false} SortedIsUnique<T(!new)>(before: (T, T) -> bool, s: seq<T>, t: seq<T>)
    requires multiset(s) == multiset(t)
    requires Sorted(before, s) && Sorted(before, t) && PairwiseComparable(before, s)
    ensures s == t
  {
    assert |s| == |multiset(s)| == |multiset(t)| == |t|;
    if s != [] {
      SameFirst(before, s, t);
      SameRest(s, t);
      SortedIsUnique(before, s[1..], t[1..]);
      assert s == [s[0]] + s[1..] && t == [t[0]] + t[1..];
    }
  }

  lemma SameRest<T>(s: seq<T>, t: seq<T>)
    requires multiset(s) == multiset(t) && s != [] && t != [] && s[0] == t[0]
    ensures multiset(s[1..]) == multiset(t[1..])
  {
    assert s == [s[0]] + s[1..] && t == [t[0]] + t[1..];
    assert multiset(s[1..]) == multiset(s) - multiset{s[0]};
    assert multiset(t[1..]) == multiset(t) - multiset{t[0]};
  }

  lemma SameFirst<T(!new)>(before: (T, T) -> bool, s: seq<T>, t: seq<T>)
    requires multiset(s) == multiset(t) && s != [] && t != []
    requires Sorted(before, s) && Sorted(before, t) && PairwiseComparable(before, s)
    ensures s[0] == t[0]
  {
    assert s[0] in multiset(t) && t[0] in multiset(s);
    var i :| 0 <= i < |t| && t[i] == s[0];
    var j :| 0 <= j < |s| && s[j] == t[0];
  }

  /** Comparability is about which elements there are, not about where they stand. */
  lemma ComparableAnyOrder<T(!new)>(before: (T, T) -> bool, s: seq<T>, t: seq<T>)
    requires multiset(s) == multiset(t) && PairwiseComparable(before, s)
    requires forall a :: !before(a, a)
    ensures PairwiseComparable(before, t)
  {
    forall i, j | 0 <= i < j < |t| ensures before(t[i], t[j]) || before(t[j], t[i]) {
      if t[i] != t[j] {
        assert t[i] in multiset(s) && t[j] in multiset(s);
      } else {
        assert t == t[..i] + [t[i]] + t[i+1..j] + [t[j]] + t[j+1..];
        assert multiset(t)[t[i]] >= 2;
        TwicePositions(s, t[i]);
      }
    }
  }

  lemma WithoutOne<T>(s: seq<T>, i: nat)
    requires i < |s|
    ensures multiset(s[..i] + s[i + 1..]) == multiset(s) - multiset{s[i]}
  {
    assert s == s[..i] + [s[i]] + s[i + 1..];
  }

  lemma {:induction false} TwicePositions<T>(s: seq<T>, x: T)
    requires multiset(s)[x] >= 2
    ensures exists i, j :: 0 <= i < j < |s| && s[i] == x && s[j] == x
  {
    assert x in multiset(s);
    var i :| 0 <= i < |s| && s[i] == x;
    var rest := s[..i] + s[i + 1..];
    WithoutOne(s, i);
    assert x in multiset(rest);
    var k :| 0 <= k < |rest| && rest[k] == x;
    if k < i { assert s[k] == x; } else { assert s[k + 1] == x; }
  }

  /** Sorting forgets the input order entirely when the elements are pairwise comparable. */
  lemma SortIgnoresInputOrder<T(!new)>(before: (T, T) -> bool, s: seq<T>, t: seq<T>)
    requires StrictWeakOrder(before) && PairwiseComparable(before, s)
    requires multiset(s) == multiset(t)
    ensures StableSort(before, s) == StableSort(before, t)
  {
    SortPermutes(before, s);
    SortPermutes(before, t);
    SortSorted(before, s);
    SortSorted(before, t);
    ComparableAnyOrder(before, s, StableSort(before, s));
    SortedIsUnique(before, StableSort(before, s), StableSort(before, t));
  }

  ghost predicate Distinct<T>(s: seq<T>) {
    forall i, j :: 0 <= i < j < |s| ==> s[i] != s[j]
  }

  lemma {:induction false} CountDistinct<T>(s: seq<T>, x: T)
    requires Distinct(s)
    ensures multiset(s)[x] == if x in s then 1 else 0
  {
    if s != [] {
      assert s == [s[0]] + s[1..];
      CountDistinct(s[1..], x);
    }
  }

  lemma SameMembersSameMultiset<T>(s: seq<T>, t: seq<T>)
    requires Distinct(s) && Distinct(t) && forall x :: x in s <==> x in t
    ensures multiset(s) == multiset(t)
  {
    forall x ensures multiset(s)[x] == multiset(t)[x] {
      CountDistinct(s, x);
      CountDistinct(t, x);
    }
  }

  lemma DistinctAnyOrder<T>(s: seq<T>, t: seq<T>)
    requires multiset(s) == multiset(t) && Distinct(s)
    ensures Distinct(t)
  {
    forall i, j | 0 <= i < j < |t| ensures t[i] != t[j] {
      if t[i] == t[j] {
        assert t == t[..i] + [t[i]] + t[i + 1..j] + [t[j]] + t[j + 1..];
        assert multiset(t)[t[i]] >= 2;
        TwicePositions(s, t[i]);
      }
    }
  }

  lemma {:induction false} SortedStays<T>(before: (T, T) -> bool, s: seq<T>)
    requires Sorted(before, s)
    ensures StableSort(before, s) == s
  {
    if s != [] {
      SortedStays(before, s[1..]);
      assert s == [s[0]] + s[1..];
    }
  }

  ghost predicate Tied<T>(before: (T, T) -> bool, a: T, b: T) {
    !before(a, b) && !before(b, a)
  }

  /** Exchanging elements for tied ones keeps a sequence sorted. */
  lemma TiedSorted<T(!new)>(before: (T, T) -> bool, s: seq<T>, t: seq<T>)
    requires StrictWeakOrder(before) && Sorted(before, s)
    requires |s| == |t| && forall i :: 0 <= i < |s| ==> Tied(before, s[i], t[i])
    ensures Sorted(before, t)
  {
    forall i, j | 0 <= i < j < |t| ensures !before(t[j], t[i]) {
      assert Tied(before, s[i], t[i]) && Tied(before, s[j], t[j]) && !before(s[j], s[i]);
    }
  }

  /** Two tied elements at different places. */
  lemma TiedPair<T(!new)>(before: (T, T) -> bool, s: seq<T>) returns (i: nat, j: nat)
    requires !PairwiseComparable(before, s)
    ensures i < j < |s| && Tied(before, s[i], s[j])
  {
    i, j :| 0 <= i < j < |s| && !before(s[i], s[j]) && !before(s[j], s[i]);
  }

  lemma TiedWithSelf<T(!new)>(before: (T, T) -> bool, s: seq<T>)
    requires StrictWeakOrder(before)
    ensures forall i :: 0 <= i < |s| ==> Tied(before, s[i], s[i])
  {
  }

  lemma SwapPermutes<T>(s: seq<T>, i: nat, j: nat)
    requires i < j < |s|
    ensures multiset(s[i := s[j]][j := s[i]]) == multiset(s)
  {
  }

  /** If two different elements tie, some other input order sorts differently. */
  lemma TieShows<T(!new)>(before: (T, T) -> bool, s: seq<T>) returns (t: seq<T>)
    requires StrictWeakOrder(before) && Distinct(s) && !PairwiseComparable(before, s)
    ensures multiset(t) == multiset(s) && StableSort(before, t) != StableSort(before, s)
  {
    var sorted := StableSort(before, s);
    SortPermutes(before, s);
    SortSorted(before, s);
    DistinctAnyOrder(s, sorted);
    if PairwiseComparable(before, sorted) { ComparableAnyOrder(before, sorted, s); }
    var i, j := TiedPair(before, sorted);
    t := sorted[i := sorted[j]][j := sorted[i]];
    SwapPermutes(sorted, i, j);
    TiedWithSelf(before, sorted);
    TiedSorted(before, sorted, t);
    SortedStays(before, t);
    assert t[i] == sorted[j] != sorted[i];
  }

  /** The input order is forgotten exactly when all the elements are pairwise comparable. */
  lemma SortedOneWayExactly<T(!new)>(before: (T, T) -> bool, s: seq<T>)
    requires StrictWeakOrder(before) && Distinct(s)
    ensures (forall t :: multiset(t) == multiset(s) ==> StableSort(before, t) == StableSort(before, s))
      <==> PairwiseComparable(before, s)
  {
    if PairwiseComparable(before, s) {
      forall t | multiset(t) == multiset(s) ensures StableSort(before, t) == StableSort(before, s) {
        SortIgnoresInputOrder(before, s, t);
      }
    } else {
      var t := TieShows(before, s);
    }
  }

  lemma FrontOfConcat<T>(a: seq<T>, b: seq<T>)
    requires b != []
    ensures (a + b)[..|a + b| - 1] == a + b[..|b| - 1] && (a + b)[|a + b| - 1] == b[|b| - 1]
  {
  }
}
