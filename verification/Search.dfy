/** The first-match scan that every table of the kernel is searched with. */
module Search {

  /** The least index from lo on whose entry satisfies p, or -1 when there is none. */
  function First<T>(xs: seq<T>, p: T -> bool, lo: nat): (r: int)
    requires lo <= |xs|
    ensures r == -1 || lo <= r < |xs|
    ensures r != -1 ==> p(xs[r])
    ensures forall j :: lo <= j < (if r == -1 then |xs| else r) ==> !p(xs[j])
    decreases |xs| - lo
  {
    if lo == |xs| then -1
    else if p(xs[lo]) then lo
    else First(xs, p, lo + 1)
  }

  /** Pigeonhole: pairwise distinct numbers below n are at most n many. */
  lemma {:induction false} DistinctBelow(s: seq<int>, n: nat)
    requires forall i :: 0 <= i < |s| ==> 0 <= s[i] < n
    requires forall i, j :: 0 <= i < j < |s| ==> s[i] != s[j]
    ensures |s| <= n
  {
    BelowSize(n);
    DistinctSize(s);
    assert (set x | x in s) <= Below(n);
    SubsetSize((set x | x in s), Below(n));
  }

  function Below(n: nat): (s: set<int>)
    ensures forall x :: x in s <==> 0 <= x < n
  {
    if n == 0 then {} else Below(n - 1) + {n - 1}
  }

  lemma {:induction false} BelowSize(n: nat)
    ensures |Below(n)| == n
  {
    if n > 0 { BelowSize(n - 1); }
  }

  lemma {:induction false} DistinctSize(s: seq<int>)
    requires forall i, j :: 0 <= i < j < |s| ==> s[i] != s[j]
    ensures |set x | x in s| == |s|
  {
    if s != [] {
      var t := s[..|s| - 1];
      DistinctSize(t);
      assert s == t + [s[|s| - 1]];
      assert (set x | x in s) == (set x | x in t) + {s[|s| - 1]};
    }
  }

  lemma {:induction false} SubsetSize<T>(a: set<T>, b: set<T>)
    requires a <= b
    ensures |a| <= |b|
    ensures |a| == |b| ==> a == b
  {
    assert b == a + (b - a);
    assert |b| == |a| + |b - a|;
  }
}
