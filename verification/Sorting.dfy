/** Canonical orders: a stable insertion sort by a numeric rank, and what a strictly increasing rank gives. */
module Sorting {

  ghost predicate Sorted<T(!new)>(rank: T -> int, xs: seq<T>) {
    forall i, j | 0 <= i < j < |xs| :: rank(xs[i]) <= rank(xs[j])
  }

  ghost predicate StrictlySorted<T(!new)>(rank: T -> int, xs: seq<T>) {
    forall i, j | 0 <= i < j < |xs| :: rank(xs[i]) < rank(xs[j])
  }

  function Insert<T>(rank: T -> int, x: T, xs: seq<T>): seq<T> {
    if xs == [] then [x]
    else if rank(x) <= rank(xs[0]) then [x] + xs
    else [xs[0]] + Insert(rank, x, xs[1..])
  }

  function Sort<T>(rank: T -> int, xs: seq<T>): seq<T> {
    if xs == [] then [] else Insert(rank, xs[0], Sort(rank, xs[1..]))
  }

  lemma {:induction false} InsertBound<T>(rank: T -> int, x: T, xs: seq<T>, low: int)
    requires low <= rank(x) && forall i | 0 <= i < |xs| :: low <= rank(xs[i])
    ensures forall i | 0 <= i < |Insert(rank, x, xs)| :: low <= rank(Insert(rank, x, xs)[i])
  {
    if xs != [] && rank(xs[0]) < rank(x) {
      InsertBound(rank, x, xs[1..], low);
    }
  }

  lemma {:induction false} InsertSorts<T(!new)>(rank: T -> int, x: T, xs: seq<T>)
    requires Sorted(rank, xs)
    ensures Sorted(rank, Insert(rank, x, xs))
  {
    if xs != [] && rank(xs[0]) < rank(x) {
      InsertSorts(rank, x, xs[1..]);
      InsertBound(rank, x, xs[1..], rank(xs[0]));
    }
  }

  lemma {:induction false} InsertReorders<T>(rank: T -> int, x: T, xs: seq<T>)
    ensures multiset(Insert(rank, x, xs)) == multiset(xs) + multiset{x}
  {
    if xs != [] && rank(xs[0]) < rank(x) {
      InsertReorders(rank, x, xs[1..]);
      assert xs == [xs[0]] + xs[1..];
    }
  }

  lemma SortedNothing<T(!new)>(rank: T -> int)
    ensures Sorted(rank, [])
  {
  }

  lemma {:induction false} SortSorts<T(!new)>(rank: T -> int, xs: seq<T>)
    ensures Sorted(rank, Sort(rank, xs)) && multiset(Sort(rank, xs)) == multiset(xs)
    ensures |Sort(rank, xs)| == |xs|
  {
    hide Insert, Sorted;
    if xs != [] {
      SortSorts(rank, xs[1..]);
      InsertSorts(rank, xs[0], Sort(rank, xs[1..]));
      InsertReorders(rank, xs[0], Sort(rank, xs[1..]));
      assert xs == [xs[0]] + xs[1..];
    } else {
      SortedNothing(rank);
    }
    assert |Sort(rank, xs)| == |multiset(Sort(rank, xs))| && |xs| == |multiset(xs)|;
  }

  /** Neighbours in strict order order the whole sequence. */
  lemma {:induction false} StrictFromNeighbours<T(!new)>(rank: T -> int, xs: seq<T>)
    requires forall i | 0 < i < |xs| :: rank(xs[i - 1]) < rank(xs[i])
    ensures StrictlySorted(rank, xs)
  {
    if |xs| > 1 {
      StrictFromNeighbours(rank, xs[..|xs| - 1]);
      forall i, j | 0 <= i < j < |xs| ensures rank(xs[i]) < rank(xs[j]) {
        if j == |xs| - 1 {
          assert rank(xs[j - 1]) < rank(xs[j]);
          if i < j - 1 {
            assert rank(xs[..|xs| - 1][i]) < rank(xs[..|xs| - 1][j - 1]);
          }
        } else {
          assert rank(xs[..|xs| - 1][i]) < rank(xs[..|xs| - 1][j]);
        }
      }
    }
  }

  /** A strictly sorted sequence is determined by its elements. */
  lemma {:induction false} StrictlySortedUnique<T(!new)>(rank: T -> int, a: seq<T>, b: seq<T>)
    requires StrictlySorted(rank, a) && StrictlySorted(rank, b)
    requires forall x :: x in a <==> x in b
    ensures a == b
  {
    if a == [] {
      assert forall i | 0 <= i < |b| :: b[i] in a;
    } else {
      assert a[0] in b && b != [];
      assert b[0] in a;
      HeadIsLeast(rank, a, b[0]);
      HeadIsLeast(rank, b, a[0]);
      forall x ensures x in a[1..] <==> x in b[1..] {
        TailMembers(rank, a, x);
        TailMembers(rank, b, x);
      }
      StrictlySortedUnique(rank, a[1..], b[1..]);
      assert a == [a[0]] + a[1..] && b == [b[0]] + b[1..];
    }
  }

  lemma HeadIsLeast<T(!new)>(rank: T -> int, a: seq<T>, x: T)
    requires StrictlySorted(rank, a) && x in a
    ensures x == a[0] || rank(a[0]) < rank(x)
  {
  }

  lemma TailMembers<T(!new)>(rank: T -> int, a: seq<T>, x: T)
    requires StrictlySorted(rank, a) && a != []
    ensures x in a[1..] <==> x in a && x != a[0]
  {
    if x in a[1..] {
      var i :| 0 <= i < |a| - 1 && a[1..][i] == x;
      assert rank(a[0]) < rank(a[i + 1]);
    }
    if x in a && x != a[0] {
      var i :| 0 <= i < |a| && a[i] == x;
      assert a[1..][i - 1] == x;
    }
  }

  /** With pairwise different ranks, sorting is strict and any two reorderings sort to one sequence. */
  ghost predicate DistinctRanks<T(!new)>(rank: T -> int, xs: seq<T>) {
    forall i, j | 0 <= i < j < |xs| :: rank(xs[i]) != rank(xs[j])
  }

  lemma {:induction false} ReorderingKeepsDistinct<T(!new)>(rank: T -> int, xs: seq<T>, ys: seq<T>)
    requires multiset(xs) == multiset(ys) && DistinctRanks(rank, xs)
    ensures DistinctRanks(rank, ys)
  {
    forall i, j | 0 <= i < j < |ys| ensures rank(ys[i]) != rank(ys[j]) {
      TwoPlaces(ys, i, j);
      assert ys[i] in multiset(xs) && ys[j] in multiset(xs);
      var a :| 0 <= a < |xs| && xs[a] == ys[i];
      var b :| 0 <= b < |xs| && xs[b] == ys[j];
      if a == b {
        TwoOccurrences(xs, ys[i]);
      }
    }
  }

  lemma TwoPlaces<T>(ys: seq<T>, i: nat, j: nat)
    requires i < j < |ys|
    ensures ys[i] == ys[j] ==> multiset(ys)[ys[i]] >= 2
  {
    assert ys == ys[..i] + [ys[i]] + ys[i + 1..j] + [ys[j]] + ys[j + 1..];
  }

  lemma {:induction false} TwoOccurrences<T>(xs: seq<T>, x: T)
    requires multiset(xs)[x] >= 2
    ensures exists a, b :: 0 <= a < b < |xs| && xs[a] == x && xs[b] == x
  {
    assert x in multiset(xs) && x in xs;
    var a :| 0 <= a < |xs| && xs[a] == x;
    assert xs == xs[..a] + [x] + xs[a + 1..];
    assert multiset(xs[..a])[x] + multiset(xs[a + 1..])[x] >= 1;
    if x in xs[..a] {
      var b :| 0 <= b < a && xs[..a][b] == x;
      assert xs[b] == x && b < a;
    } else {
      assert x in multiset(xs[a + 1..]);
      var b :| 0 <= b < |xs| - a - 1 && xs[a + 1..][b] == x;
      assert xs[a + 1 + b] == x;
    }
  }

  /** Sorting keeps the elements; the result is strictly sorted exactly when the ranks were pairwise different. */
  lemma SortCanonical<T(!new)>(rank: T -> int, xs: seq<T>)
    ensures StrictlySorted(rank, Sort(rank, xs)) <==> DistinctRanks(rank, xs)
    ensures forall x :: x in xs <==> x in Sort(rank, xs)
    ensures multiset(Sort(rank, xs)) == multiset(xs) && |Sort(rank, xs)| == |xs|
  {
    var ys := Sort(rank, xs);
    SortSorts(rank, xs);
    forall x ensures x in xs <==> x in ys {
      assert x in xs <==> x in multiset(xs);
    }
    if DistinctRanks(rank, xs) {
      ReorderingKeepsDistinct(rank, xs, ys);
    }
    if StrictlySorted(rank, ys) {
      ReorderingKeepsDistinct(rank, ys, xs);
    }
  }
}
