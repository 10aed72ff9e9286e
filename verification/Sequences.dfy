/** Duplicate-free sequences and the pigeonhole facts about them. */
module Sequences {
  predicate NoDup<T(==)>(s: seq<T>)
  {
    forall i, j :: 0 <= i < j < |s| ==> s[i] != s[j]
  }

  function ToSet<T>(s: seq<T>): set<T>
  {
    set x | x in s
  }

  lemma {:induction false} NoDupCardinality<T>(s: seq<T>)
    requires NoDup(s)
    ensures |ToSet(s)| == |s|
  {
    if s != [] {
      var init, last := s[..|s| - 1], s[|s| - 1];
      NoDupCardinality(init);
      assert s == init + [last];
      assert last !in init;
      assert ToSet(s) == ToSet(init) + {last};
    }
  }

  lemma SubsetCardinality<T>(a: set<T>, b: set<T>)
    requires a <= b
    ensures |a| <= |b| && (|a| == |b| ==> a == b)
  {
    assert b == a + (b - a);
    assert |b| == |a| + |b - a|;
  }

  /** A duplicate-free sequence over a finite set is no longer than the set, and
      as long only if it lists the whole set. */
  lemma Pigeonhole<T>(s: seq<T>, universe: set<T>)
    requires NoDup(s) && forall x :: x in s ==> x in universe
    ensures |s| <= |universe|
    ensures |s| == |universe| ==> ToSet(s) == universe
  {
    NoDupCardinality(s);
    SubsetCardinality(ToSet(s), universe);
  }

  lemma NoDupParts<T>(a: seq<T>, b: seq<T>)
    requires NoDup(a + b)
    ensures NoDup(a) && NoDup(b) && forall x :: x in b ==> x !in a
  {
    var s := a + b;
    forall i, j | 0 <= i < j < |a|
      ensures a[i] != a[j]
    {
      assert s[i] == a[i] && s[j] == a[j];
    }
    forall i, j | 0 <= i < j < |b|
      ensures b[i] != b[j]
    {
      assert s[|a| + i] == b[i] && s[|a| + j] == b[j];
    }
    forall i, j | 0 <= i < |a| && 0 <= j < |b|
      ensures a[i] != b[j]
    {
      assert s[i] == a[i] && s[|a| + j] == b[j];
    }
  }

  lemma NoDupConcat<T>(a: seq<T>, b: seq<T>)
    ensures NoDup(a + b) <==> NoDup(a) && NoDup(b) && forall x :: x in b ==> x !in a
  {
    if NoDup(a + b) {
      NoDupParts(a, b);
    }
    if NoDup(a) && NoDup(b) && forall x :: x in b ==> x !in a {
      var s := a + b;
      forall i, j | 0 <= i < j < |s|
        ensures s[i] != s[j]
      {
        if i < |a| <= j {
          assert s[i] in a && s[j] == b[j - |a|] && s[j] in b;
        } else if |a| <= i {
          assert s[i] == b[i - |a|] && s[j] == b[j - |a|];
        }
      }
    }
  }

  /** `r` lists the elements of `s` at the positions `at`, in the same order. */
  ghost predicate ListedAt<T(!new)>(s: seq<T>, at: seq<nat>, r: seq<T>)
  {
    && |at| == |r|
    && (forall k, l :: 0 <= k < l < |at| ==> at[k] < at[l])
    && (forall k :: 0 <= k < |at| ==> at[k] < |s| && r[k] == s[at[k]])
  }

  lemma NothingListed<T(!new)>()
    ensures ListedAt<T>([], [], [])
  {
  }

  /** A list of some of the elements but the last goes on with the last or not. */
  lemma ListLonger<T(!new)>(s: seq<T>, at: seq<nat>, r: seq<T>, keep: bool) returns (at': seq<nat>)
    requires s != [] && ListedAt(s[..|s| - 1], at, r)
    ensures ListedAt(s, at', r + if keep then [s[|s| - 1]] else [])
    ensures forall i :: 0 <= i < |s| ==> (i in at' <==> if i < |s| - 1 then i in at else keep)
  {
    var n := |s| - 1;
    at' := at + if keep then [n] else [];
    assert forall k :: 0 <= k < |at| ==> s[..n][at[k]] == s[at[k]];
    assert n !in at;
    assert r + [] == r;
  }
}
