/** Stable sorting by a `less` relation, as `sort.SliceStable` provides it: a
    specification function, what determines its result, and the in-place
    insertion the library performs on a short slice. */
module Sorting {

  /** A strict weak order: asymmetric, and "not below" is transitive. */
  ghost predicate WeakOrder<T(!new)>(less: (T, T) -> bool)
  {
    && (forall x, y :: less(x, y) ==> !less(y, x))
    && (forall x, y, z :: !less(x, y) && !less(y, z) ==> !less(x, z))
  }

  predicate Ordered<T>(less: (T, T) -> bool, s: seq<T>)
  {
    forall i, j :: 0 <= i < j < |s| ==> !less(s[j], s[i])
  }

  predicate Tied<T>(less: (T, T) -> bool, x: T, y: T)
  {
    !less(x, y) && !less(y, x)
  }

  /** `x` placed behind every element it is not below. */
  function Insert<T>(less: (T, T) -> bool, s: seq<T>, x: T): (r: seq<T>)
    ensures |r| == |s| + 1
  {
    var n := |s|;
    if n == 0 || !less(x, s[n - 1]) then
      s + [x]
    else
      Insert(less, s[..n - 1], x) + [s[n - 1]]
  }

  function SortStable<T>(less: (T, T) -> bool, s: seq<T>): (r: seq<T>)
    ensures |r| == |s|
  {
    var n := |s|;
    if n == 0 then [] else
      Insert(less, SortStable(less, s[..n - 1]), s[n - 1])
  }

  /** The elements tied with `x`, in order. */
  function TiedWith<T>(less: (T, T) -> bool, x: T, s: seq<T>): (r: seq<T>)
  {
    if s == [] then []
    else TiedWith(less, x, s[..|s| - 1]) + (if Tied(less, x, s[|s| - 1]) then [s[|s| - 1]] else [])
  }

  // ---- the result is an ordered permutation -----------------------------

  lemma {:induction false} InsertPermutes<T>(less: (T, T) -> bool, s: seq<T>, x: T)
    ensures multiset(Insert(less, s, x)) == multiset(s) + multiset{x}
  {
    var n := |s|;
    if n > 0 && less(x, s[n - 1]) {
      InsertPermutes(less, s[..n - 1], x);
      assert s == s[..n - 1] + [s[n - 1]];
    }
  }

  lemma {:induction false} SortPermutes<T>(less: (T, T) -> bool, s: seq<T>)
    ensures multiset(SortStable(less, s)) == multiset(s)
  {
    if s != [] {
      var n := |s|;
      SortPermutes(less, s[..n - 1]);
      InsertPermutes(less, SortStable(less, s[..n - 1]), s[n - 1]);
      assert s == s[..n - 1] + [s[n - 1]];
    }
  }

  lemma {:induction false} InsertOrdered<T(!new)>(less: (T, T) -> bool, s: seq<T>, x: T)
    requires WeakOrder(less) && Ordered(less, s)
    ensures Ordered(less, Insert(less, s, x))
  {
    var n := |s|;
    if n > 0 && less(x, s[n - 1]) {
      var init, last := s[..n - 1], s[n - 1];
      InsertOrdered(less, init, x);
      InsertPermutes(less, init, x);
      var r := Insert(less, init, x);
      hide Insert;
      forall i | 0 <= i < |r|
        ensures !less(last, r[i])
      {
        assert r[i] in multiset(init) + multiset{x};
        if r[i] in init {
          var k :| 0 <= k < |init| && init[k] == r[i];
          assert s[k] == r[i];
        }
      }
    } else {
      forall i | 0 <= i < n
        ensures !less(x, s[i])
      {
        assert i < n - 1 ==> !less(s[n - 1], s[i]);
      }
    }
  }

  lemma {:induction false} SortOrdered<T(!new)>(less: (T, T) -> bool, s: seq<T>)
    requires WeakOrder(less)
    ensures Ordered(less, SortStable(less, s))
  {
    if s != [] {
      SortOrdered(less, s[..|s| - 1]);
      InsertOrdered(less, SortStable(less, s[..|s| - 1]), s[|s| - 1]);
    }
  }

  // ---- the result is stable ---------------------------------------------

  lemma {:induction false} InsertStable<T(!new)>(less: (T, T) -> bool, s: seq<T>, x: T, y: T)
    requires WeakOrder(less)
    ensures TiedWith(less, y, Insert(less, s, x)) == TiedWith(less, y, s + [x])
  {
    var n := |s|;
    assert (s + [x])[..n] == s;
    if n > 0 && less(x, s[n - 1]) {
      var init, last := s[..n - 1], s[n - 1];
      InsertStable(less, init, x, y);
      assert (init + [x])[..n - 1] == init;
      var r := Insert(less, init, x);
      assert (r + [last])[..n] == r;
      assert !(Tied(less, y, x) && Tied(less, y, last));
    }
  }

  /** Elements tied with one another keep the order they came in. */
  lemma {:induction false} SortKeepsTies<T(!new)>(less: (T, T) -> bool, s: seq<T>, y: T)
    requires WeakOrder(less)
    ensures TiedWith(less, y, SortStable(less, s)) == TiedWith(less, y, s)
  {
    if s != [] {
      var init, last := s[..|s| - 1], s[|s| - 1];
      var sorted := SortStable(less, init);
      SortKeepsTies(less, init, y);
      InsertStable(less, sorted, last, y);
      assert (sorted + [last])[..|init|] == sorted;
    }
  }

  // ---- the result is determined -----------------------------------------

  lemma LastsAgree<T(!new)>(less: (T, T) -> bool, a: seq<T>, b: seq<T>)
    requires Ordered(less, a) && Ordered(less, b) && multiset(a) == multiset(b)
    requires forall x, y :: x in a && y in a && Tied(less, x, y) ==> x == y
    requires |a| == |b| > 0
    ensures a[|a| - 1] == b[|b| - 1]
  {
    var n := |a| - 1;
    var x, y := a[n], b[n];
    assert x in multiset(b) && y in multiset(a);
    assert x in a && y in a;
    var i :| 0 <= i <= n && a[i] == y;
    var j :| 0 <= j <= n && b[j] == x;
    if x != y {
      assert !less(a[n], a[i]) && !less(b[n], b[j]);
      assert Tied(less, x, y);
    }
  }

  lemma RemovedFrom<T>(s: seq<T>, k: nat)
    requires k < |s|
    ensures multiset(s[..k] + s[k + 1..]) == multiset(s) - multiset{s[k]}
  {
    assert s == s[..k] + [s[k]] + s[k + 1..];
    assert multiset(s) == multiset(s[..k] + s[k + 1..]) + multiset{s[k]};
  }

  lemma SwapPermutes<T>(s: seq<T>, i: nat, j: nat)
    requires i < |s| && j < |s|
    ensures multiset(s[i := s[j]][j := s[i]]) == multiset(s)
  {
  }

  lemma DropLast<T>(a: seq<T>, b: seq<T>)
    requires multiset(a) == multiset(b) && |a| == |b| > 0 && a[|a| - 1] == b[|b| - 1]
    ensures multiset(a[..|a| - 1]) == multiset(b[..|b| - 1])
  {
    var n := |a| - 1;
    RemovedFrom(a, n);
    RemovedFrom(b, n);
    assert a[..n] + a[n + 1..] == a[..n] && b[..n] + b[n + 1..] == b[..n];
  }

  /** Two orderings of the same elements agree if tied elements are equal. */
  lemma {:induction false} OrderedUnique<T(!new)>(less: (T, T) -> bool, a: seq<T>, b: seq<T>)
    requires Ordered(less, a) && Ordered(less, b) && multiset(a) == multiset(b)
    requires forall x, y :: x in a && y in a && Tied(less, x, y) ==> x == y
    ensures a == b
  {
    assert |a| == |multiset(a)| == |multiset(b)| == |b|;
    if a != [] {
      var n := |a| - 1;
      LastsAgree(less, a, b);
      DropLast(a, b);
      forall x, y | x in a[..n] && y in a[..n] && Tied(less, x, y)
        ensures x == y
      {
        assert x in a && y in a;
      }
      OrderedUnique(less, a[..n], b[..n]);
      assert a == a[..n] + [a[n]] && b == b[..n] + [b[n]];
    }
  }

  /** Where `Insert` puts `x`: behind everything up to the last element it is
      not below. */
  lemma {:induction false} InsertAt<T>(less: (T, T) -> bool, s: seq<T>, x: T, j: nat)
    requires j <= |s| && (j > 0 ==> !less(x, s[j - 1]))
    requires forall k :: j <= k < |s| ==> less(x, s[k])
    ensures Insert(less, s, x) == s[..j] + [x] + s[j..]
  {
    if j < |s| {
      var init, last := s[..|s| - 1], s[|s| - 1];
      InsertAt(less, init, x, j);
      calc {
        Insert(less, s, x);
        Insert(less, init, x) + [last];
        init[..j] + [x] + init[j..] + [last];
        { assert init[..j] == s[..j]; }
        s[..j] + [x] + init[j..] + [last];
        { assert s[j..] == init[j..] + [last]; }
        s[..j] + [x] + s[j..];
      }
    } else {
      assert s[..j] == s && s[j..] == [];
    }
  }

  /** A sequence already in order comes back unchanged. */
  lemma {:induction false} SortOfOrdered<T>(less: (T, T) -> bool, s: seq<T>)
    requires Ordered(less, s)
    ensures SortStable(less, s) == s
  {
    if s != [] {
      hide Insert;
      var init, last := s[..|s| - 1], s[|s| - 1];
      SortOfOrdered(less, init);
      InsertAt(less, init, last, |init|);
      assert s == init + [last] == init[..|init|] + [last] + init[|init|..];
    }
  }

  /** Moves the element at `i` down into the ordered part before it, by
      adjacent swaps. */
  method InsertInPlace<T>(less: (T, T) -> bool, a: array<T>, i: nat)
    requires i < a.Length
    modifies a
    ensures a[..i + 1] == Insert(less, old(a[..i]), old(a[i]))
    ensures a[i + 1..] == old(a[i + 1..])
  {
    hide Insert;
    ghost var sorted, x := a[..i], a[i];
    var j := i;
    while j > 0 && less(a[j], a[j - 1])
      invariant 0 <= j <= i
      invariant forall k :: 0 <= k < j ==> a[k] == sorted[k]
      invariant a[j] == x
      invariant forall k :: j <= k < i ==> a[k + 1] == sorted[k] && less(x, sorted[k])
      invariant forall k :: i < k < a.Length ==> a[k] == old(a[k])
    {
      a[j], a[j - 1] := a[j - 1], a[j];
      j := j - 1;
    }
    InsertAt(less, sorted, x, j);
    assert forall k :: j < k <= i ==> a[k] == sorted[j..][k - 1 - j];
    assert a[..i + 1] == sorted[..j] + [x] + sorted[j..];
  }

  method SortInPlace<T>(less: (T, T) -> bool, a: array<T>)
    modifies a
    ensures a[..] == SortStable(less, old(a[..]))
  {
    ghost var was := a[..];
    var i := 0;
    while i < a.Length
      invariant 0 <= i <= a.Length
      invariant a[..i] == SortStable(less, was[..i])
      invariant a[i..] == was[i..]
    {
      assert a[i] == a[i..][0] == was[i] && a[i + 1..] == a[i..][1..] == was[i..][1..] == was[i + 1..];
      assert was[..i + 1][..i] == was[..i];
      InsertInPlace(less, a, i);
      i := i + 1;
    }
    assert a[..] == a[..i] && was[..i] == was;
  }
}
