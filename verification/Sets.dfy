/** Counting with finite sets: what a table without duplicates can hold. */
module Sets {
  ghost predicate Distinct<T(!new)>(s: seq<T>) {
    forall i, j :: 0 <= i < j < |s| ==> s[i] != s[j]
  }

  /** Distinct members of `S` number at most |S|. */
  lemma {:induction false} DistinctFit<T(!new)>(s: seq<T>, S: set<T>)
    requires Distinct(s) && forall i :: 0 <= i < |s| ==> s[i] in S
    ensures |s| <= |S|
  {
    if s != [] {
      var x := s[|s| - 1];
      DistinctFit(s[..|s| - 1], S - {x});
    }
  }

  lemma SubsetSize<T>(A: set<T>, B: set<T>)
    requires A <= B
    ensures |A| <= |B|
  {
    assert B == A + (B - A);
  }

  /** The numbers below `n`. */
  function Below(n: nat): (S: set<nat>)
    ensures |S| == n && forall i: nat :: i in S <==> i < n
  {
    if n == 0 then {} else Below(n - 1) + {n - 1}
  }

  /** The first position of `x`. */
  function PosOf<T(==)>(s: seq<T>, x: T): (k: nat)
    requires x in s
    ensures k < |s| && s[k] == x && x !in s[..k]
  {
    if s[0] == x then 0
    else
      assert s == [s[0]] + s[1..];
      var k := 1 + PosOf(s[1..], x);
      assert s[..k] == [s[0]] + s[1..][..k - 1];
      k
  }

  /** Appending never moves what a table already holds. */
  lemma PosStable<T>(s: seq<T>, t: seq<T>, x: T)
    requires x in s && s <= t
    ensures x in t && PosOf(t, x) == PosOf(s, x)
  {
    var i := PosOf(s, x);
    assert t[i] == s[i] == x;
  }

  lemma PosInDistinct<T(!new)>(s: seq<T>, k: nat)
    requires Distinct(s) && k < |s|
    ensures PosOf(s, s[k]) == k
  {
  }
}
