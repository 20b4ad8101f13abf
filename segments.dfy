/** The greedy window counter of test.cpp: scanning `a` left to right, it keeps
    a window `a[curr..i]` and its sum, shrinks the window from the left while the
    sum is above `r`, and counts a win (then empties the window) whenever the sum
    lies in `[l, r]`. The counted windows are disjoint, left to right, and each
    has a sum in `[l, r]`. */
module Segments {

  /** a[lo] + ... + a[hi - 1]. */
  function Sum(a: seq<int>, lo: int, hi: int): int
    requires 0 <= lo <= hi <= |a|
    decreases hi - lo
  {
    if lo == hi then 0 else Sum(a, lo, hi - 1) + a[hi - 1]
  }

  /** Removing the first element of a window subtracts it from the sum. */
  lemma {:induction false} SumDropFirst(a: seq<int>, lo: int, hi: int)
    requires 0 <= lo < hi <= |a|
    ensures Sum(a, lo + 1, hi) == Sum(a, lo, hi) - a[lo]
    decreases hi - lo
  {
    if lo + 1 < hi {
      SumDropFirst(a, lo, hi - 1);
    }
  }

  /** The half-open window `a[lo..hi)`, i.e. `a[curr..i]` with `hi == i + 1`. */
  datatype Segment = Segment(lo: nat, hi: nat)

  predicate SumInRange(a: seq<int>, s: Segment, l: int, r: int) {
    s.lo <= s.hi <= |a| && l <= Sum(a, s.lo, s.hi) <= r
  }

  /** Each segment ends no later than the next one starts. */
  predicate LeftToRight(segs: seq<Segment>) {
    forall k :: 0 <= k < |segs| - 1 ==> segs[k].hi <= segs[k + 1].lo
  }

  /** `solve` for one test case: the number of wins, with the counted windows as a
      ghost witness. */
  method Solve(a: seq<int>, l: int, r: int) returns (win: nat, ghost segs: seq<Segment>)
    ensures win == |segs| && win <= |a|
    ensures forall k :: 0 <= k < |segs| ==> SumInRange(a, segs[k], l, r)
    ensures LeftToRight(segs)
    ensures l > 0 ==> forall k :: 0 <= k < |segs| ==> segs[k].lo < segs[k].hi
  {
    win := 0;
    segs := [];
    var curr := 0;
    var sum := 0;
    var i := 0;
    while i < |a|
      invariant 0 <= curr <= i <= |a|
      invariant sum == Sum(a, curr, i)
      invariant win == |segs| && win <= i
      invariant forall k :: 0 <= k < |segs| ==> SumInRange(a, segs[k], l, r)
      invariant LeftToRight(segs)
      invariant |segs| > 0 ==> segs[|segs| - 1].hi <= curr
      invariant l > 0 ==> forall k :: 0 <= k < |segs| ==> segs[k].lo < segs[k].hi
    {
      sum := sum + a[i];
      while sum > r && curr <= i
        invariant 0 <= curr <= i + 1
        invariant sum == Sum(a, curr, i + 1)
        invariant |segs| > 0 ==> segs[|segs| - 1].hi <= curr
        decreases i + 1 - curr
      {
        SumDropFirst(a, curr, i + 1);
        sum := sum - a[curr];
        curr := curr + 1;
      }
      if l <= sum <= r {
        segs := segs + [Segment(curr, i + 1)];
        win := win + 1;
        sum := 0;
        curr := i + 1;
      }
      i := i + 1;
    }
  }
}
