/**
 * `Series.sum()` over a column of a filtered frame: the sum of a field over the rows of
 * a sequence, and how it combines with `Filter`.
 */
module Sums {
  import opened Sorting

  /** The sum of `f` over `s`, 0 for an empty sequence. */
  function SumBy<T>(s: seq<T>, f: T -> int): int {
    if s == [] then 0 else SumBy(s[..|s| - 1], f) + f(s[|s| - 1])
  }

  /** `f` where `p` holds and 0 elsewhere. */
  function Masked<T>(p: T -> bool, f: T -> int): T -> int {
    x => if p(x) then f(x) else 0
  }

  function Plus<T>(f: T -> int, g: T -> int): T -> int {
    x => f(x) + g(x)
  }

  function Minus<T>(f: T -> int, g: T -> int): T -> int {
    x => f(x) - g(x)
  }

  function Zero<T>(): T -> int {
    x => 0
  }

  lemma {:induction false} SumZero<T>(s: seq<T>)
    ensures SumBy(s, Zero()) == 0
  {
    if s != [] {
      SumZero(s[..|s| - 1]);
    }
  }

  lemma {:induction false} SumAppend<T>(s: seq<T>, t: seq<T>, f: T -> int)
    ensures SumBy(s + t, f) == SumBy(s, f) + SumBy(t, f)
  {
    if t == [] {
      assert s + t == s;
    } else {
      assert (s + t)[..|s + t| - 1] == s + t[..|t| - 1];
      SumAppend(s, t[..|t| - 1], f);
    }
  }

  lemma {:induction false} SumNonNegative<T>(s: seq<T>, f: T -> int)
    requires forall i :: 0 <= i < |s| ==> f(s[i]) >= 0
    ensures SumBy(s, f) >= 0
  {
    if s != [] {
      SumNonNegative(s[..|s| - 1], f);
    }
  }

  /** A sum of non-negative terms is positive exactly when one of its terms is. */
  lemma {:induction false} SumPositive<T>(s: seq<T>, f: T -> int)
    requires forall i :: 0 <= i < |s| ==> f(s[i]) >= 0
    ensures SumBy(s, f) > 0 <==> exists i :: 0 <= i < |s| && f(s[i]) > 0
  {
    if s != [] {
      var init, last := s[..|s| - 1], s[|s| - 1];
      assert forall i :: 0 <= i < |init| ==> init[i] == s[i];
      SumPositive(init, f);
      SumNonNegative(init, f);
      if SumBy(init, f) > 0 {
        var i :| 0 <= i < |init| && f(init[i]) > 0;
        assert f(s[i]) > 0;
      }
    }
  }

  /** Summing over the rows `p` keeps is summing the masked field over all rows. */
  lemma {:induction false} SumFilter<T>(s: seq<T>, p: T -> bool, f: T -> int)
    ensures SumBy(Filter(s, p), f) == SumBy(s, Masked(p, f))
  {
    if s != [] {
      var init, last := s[..|s| - 1], s[|s| - 1];
      SumFilter(init, p, f);
      if p(last) {
        assert Filter(s, p)[..|Filter(s, p)| - 1] == Filter(init, p);
      }
    }
  }

  lemma {:induction false} SumPlus<T>(s: seq<T>, f: T -> int, g: T -> int)
    ensures SumBy(s, Plus(f, g)) == SumBy(s, f) + SumBy(s, g)
  {
    if s != [] {
      SumPlus(s[..|s| - 1], f, g);
    }
  }

  lemma {:induction false} SumMinus<T>(s: seq<T>, f: T -> int, g: T -> int)
    ensures SumBy(s, Minus(f, g)) == SumBy(s, f) - SumBy(s, g)
  {
    if s != [] {
      SumMinus(s[..|s| - 1], f, g);
    }
  }

  /** Two fields that agree on every element have the same sum. */
  lemma {:induction false} SumAgree<T>(s: seq<T>, f: T -> int, g: T -> int)
    requires forall i :: 0 <= i < |s| ==> f(s[i]) == g(s[i])
    ensures SumBy(s, f) == SumBy(s, g)
  {
    if s != [] {
      SumAgree(s[..|s| - 1], f, g);
    }
  }

  /** The rows `p` keeps and the rows it drops share the sum between them. */
  lemma SumSplit<T>(s: seq<T>, p: T -> bool, f: T -> int)
    ensures SumBy(Filter(s, p), f) + SumBy(Filter(s, Not(p)), f) == SumBy(s, f)
  {
    SumFilter(s, p, f);
    SumFilter(s, Not(p), f);
    SumPlus(s, Masked(p, f), Masked(Not(p), f));
    SumAgree(s, Plus(Masked(p, f), Masked(Not(p), f)), f);
  }

  /** With a non-negative field, a filtered sum is at most the whole sum. */
  lemma SumFilterBounded<T>(s: seq<T>, p: T -> bool, f: T -> int)
    requires forall i :: 0 <= i < |s| ==> f(s[i]) >= 0
    ensures 0 <= SumBy(Filter(s, p), f) <= SumBy(s, f)
  {
    SumSplit(s, p, f);
    SumFilter(s, p, f);
    SumFilter(s, Not(p), f);
    SumNonNegative(s, Masked(p, f));
    SumNonNegative(s, Masked(Not(p), f));
  }
}
