/** Finite sums over sets and index ranges, and the few laws the cut arguments need. */
module Sums {

  ghost function Sum<K(!new)>(s: set<K>, f: K -> int): int
  {
    if s == {} then 0 else
      var x :| x in s;
      f(x) + Sum(s - {x}, f)
  }

  /** The sum does not depend on which element is taken out first. */
  lemma {:induction false} SumRemove<K(!new)>(s: set<K>, f: K -> int, x: K)
    requires x in s
    ensures Sum(s, f) == f(x) + Sum(s - {x}, f)
    decreases |s|
  {
    var y :| y in s && Sum(s, f) == f(y) + Sum(s - {y}, f);
    if y != x {
      SumRemove(s - {y}, f, x);
      SumRemove(s - {x}, f, y);
      assert s - {x} - {y} == s - {y} - {x};
    }
  }

  lemma {:induction false} SumSame<K(!new)>(s: set<K>, f: K -> int, g: K -> int)
    requires forall x :: x in s ==> f(x) == g(x)
    ensures Sum(s, f) == Sum(s, g)
    decreases |s|
  {
    if s != {} {
      var x :| x in s;
      SumRemove(s, f, x);
      SumRemove(s, g, x);
      SumSame(s - {x}, f, g);
    }
  }

  lemma {:induction false} SumLeq<K(!new)>(s: set<K>, f: K -> int, g: K -> int)
    requires forall x :: x in s ==> f(x) <= g(x)
    ensures Sum(s, f) <= Sum(s, g)
    decreases |s|
  {
    if s != {} {
      var x :| x in s;
      SumRemove(s, f, x);
      SumRemove(s, g, x);
      SumLeq(s - {x}, f, g);
    }
  }

  lemma {:induction false} SumPlus<K(!new)>(s: set<K>, f: K -> int, g: K -> int, h: K -> int)
    requires forall x :: x in s ==> h(x) == f(x) + g(x)
    ensures Sum(s, h) == Sum(s, f) + Sum(s, g)
    decreases |s|
  {
    if s != {} {
      var x :| x in s;
      SumRemove(s, f, x);
      SumRemove(s, g, x);
      SumRemove(s, h, x);
      SumPlus(s - {x}, f, g, h);
    }
  }

  lemma {:induction false} SumZero<K(!new)>(s: set<K>, f: K -> int)
    requires forall x :: x in s ==> f(x) == 0
    ensures Sum(s, f) == 0
    decreases |s|
  {
    if s != {} {
      var x :| x in s;
      SumRemove(s, f, x);
      SumZero(s - {x}, f);
    }
  }

  lemma SumNonNegative<K(!new)>(s: set<K>, f: K -> int)
    requires forall x :: x in s ==> f(x) >= 0
    ensures Sum(s, f) >= 0
  {
    SumLeq(s, _ => 0, f);
    SumZero(s, _ => 0);
  }

  /** Elements that contribute nothing may be dropped. */
  lemma {:induction false} SumSubset<K(!new)>(s: set<K>, t: set<K>, f: K -> int)
    requires s <= t
    requires forall x :: x in t && x !in s ==> f(x) == 0
    ensures Sum(s, f) == Sum(t, f)
    decreases |t - s|
  {
    if s == t {
    } else {
      var x :| x in t && x !in s;
      SumSubset(s, t - {x}, f);
      SumRemove(t, f, x);
    }
  }

  /** Every term of a non-negative sum is at most the sum. */
  lemma SumTerm<K(!new)>(s: set<K>, f: K -> int, x: K)
    requires x in s
    requires forall y :: y in s ==> f(y) >= 0
    ensures 0 <= f(x) <= Sum(s, f)
  {
    SumRemove(s, f, x);
    SumNonNegative(s - {x}, f);
  }

  // ------------------------------------------------------------ ranges --

  ghost function RangeSum(f: int -> int, lo: int, hi: int): int
    decreases hi - lo
  {
    if hi <= lo then 0 else RangeSum(f, lo, hi - 1) + f(hi - 1)
  }

  lemma {:induction false} RangeSplit(f: int -> int, lo: int, mid: int, hi: int)
    requires lo <= mid <= hi
    ensures RangeSum(f, lo, hi) == RangeSum(f, lo, mid) + RangeSum(f, mid, hi)
    decreases hi - mid
  {
    if mid < hi {
      RangeSplit(f, lo, mid, hi - 1);
    }
  }

  lemma {:induction false} RangeSame(f: int -> int, g: int -> int, lo: int, hi: int)
    requires forall i :: lo <= i < hi ==> f(i) == g(i)
    ensures RangeSum(f, lo, hi) == RangeSum(g, lo, hi)
    decreases hi - lo
  {
    if lo < hi {
      RangeSame(f, g, lo, hi - 1);
    }
  }

  lemma {:induction false} RangePlus(f: int -> int, g: int -> int, h: int -> int, lo: int, hi: int)
    requires lo <= hi && forall i :: lo <= i < hi ==> h(i) == f(i) + g(i)
    ensures RangeSum(h, lo, hi) == RangeSum(f, lo, hi) + RangeSum(g, lo, hi)
    decreases hi - lo
  {
    if lo < hi {
      RangePlus(f, g, h, lo, hi - 1);
    }
  }

  /** Changing one term changes the sum by the difference. */
  lemma {:induction false} RangeUpdate(f: int -> int, g: int -> int, lo: int, hi: int, j: int)
    requires lo <= j < hi
    requires forall i :: lo <= i < hi && i != j ==> f(i) == g(i)
    ensures RangeSum(g, lo, hi) == RangeSum(f, lo, hi) + g(j) - f(j)
    decreases hi - lo
  {
    if j == hi - 1 {
      RangeSame(f, g, lo, hi - 1);
    } else {
      RangeUpdate(f, g, lo, hi - 1, j);
    }
  }

  lemma {:induction false} RangeZero(f: int -> int, lo: int, hi: int)
    requires forall i :: lo <= i < hi ==> f(i) == 0
    ensures RangeSum(f, lo, hi) == 0
    decreases hi - lo
  {
    if lo < hi {
      RangeZero(f, lo, hi - 1);
    }
  }

  lemma {:induction false} RangeNonNegative(f: int -> int, lo: int, hi: int)
    requires forall i :: lo <= i < hi ==> f(i) >= 0
    ensures RangeSum(f, lo, hi) >= 0
    decreases hi - lo
  {
    if lo < hi {
      RangeNonNegative(f, lo, hi - 1);
    }
  }

  lemma {:induction false} RangeLeq(f: int -> int, g: int -> int, lo: int, hi: int)
    requires forall i :: lo <= i < hi ==> f(i) <= g(i)
    ensures RangeSum(f, lo, hi) <= RangeSum(g, lo, hi)
    decreases hi - lo
  {
    if lo < hi {
      RangeLeq(f, g, lo, hi - 1);
    }
  }

  lemma {:induction false} RangeLess(f: int -> int, g: int -> int, lo: int, hi: int, j: int)
    requires lo <= j < hi && f(j) < g(j)
    requires forall i :: lo <= i < hi ==> f(i) <= g(i)
    ensures RangeSum(f, lo, hi) < RangeSum(g, lo, hi)
    decreases hi - lo
  {
    if j == hi - 1 {
      RangeLeq(f, g, lo, hi - 1);
    } else {
      RangeLess(f, g, lo, hi - 1, j);
    }
  }

  ghost predicate Distinct<K(!new)>(s: seq<K>) {
    forall i, j :: 0 <= i < j < |s| ==> s[i] != s[j]
  }

  ghost function Elements<K(!new)>(s: seq<K>): set<K> {
    set x | x in s
  }

  /** A sum over indices of a duplicate-free list is the sum over the set it lists. */
  lemma {:induction false} RangeToSet<K(!new)>(s: seq<K>, g: K -> int, f: int -> int, lo: int)
    requires Distinct(s)
    requires forall i :: 0 <= i < |s| ==> f(lo + i) == g(s[i])
    ensures RangeSum(f, lo, lo + |s|) == Sum(Elements(s), g)
    decreases |s|
  {
    if s == [] {
      assert Elements(s) == {};
    } else {
      var last := s[|s| - 1];
      var front := s[..|s| - 1];
      RangeToSet(front, g, f, lo);
      assert Elements(front) == Elements(s) - {last} by {
        assert s == front + [last];
      }
      SumRemove(Elements(s), g, last);
      assert f(lo + (|s| - 1)) == g(last);
    }
  }

  // ------------------------------------------------------------- set sizes --

  lemma {:induction false} FewerOf<K(!new)>(a: set<K>, b: set<K>)
    requires a <= b
    ensures |a| <= |b|
    decreases |a|
  {
    if x :| x in a {
      FewerOf(a - {x}, b - {x});
    }
  }

  lemma StrictlyFewer<K(!new)>(a: set<K>, b: set<K>, x: K)
    requires a <= b && x in b && x !in a
    ensures |a| < |b|
  {
    FewerOf(a, b - {x});
  }
}
