/**
 * Sorting and filtering of sequences by a key. `SortBy` is a stable insertion sort: it
 * models Python's `sorted(xs, key=...)` (which is stable) and, where only the order
 * of the keys matters, the other sorts of the modelled code.
 */
module Sorting {

  /**
   * `le` is a total preorder: every two keys compare, and comparison chains. The
   * chaining clause is only instantiated through `Chain` (see `LeTransitive`), so that
   * the solver does not build chains of comparisons on its own.
   */
  ghost predicate TotalPreorder<K(!new)>(le: (K, K) -> bool) {
    && (forall a, b :: le(a, b) || le(b, a))
    && (forall a, b, c {:trigger Chain(le, a, b, c)} :: Chain(le, a, b, c))
  }

  ghost predicate Chain<K>(le: (K, K) -> bool, a: K, b: K, c: K) {
    le(a, b) && le(b, c) ==> le(a, c)
  }

  lemma LeTransitive<K(!new)>(le: (K, K) -> bool, a: K, b: K, c: K)
    requires TotalPreorder(le) && le(a, b) && le(b, c)
    ensures le(a, c)
  {
    assert Chain(le, a, b, c);
  }

  ghost predicate SortedBy<T, K>(s: seq<T>, key: T -> K, le: (K, K) -> bool) {
    forall i, j :: 0 <= i < j < |s| ==> le(key(s[i]), key(s[j]))
  }

  /** The elements of `s` satisfying `p`, in their order in `s`. */
  function Filter<T>(s: seq<T>, p: T -> bool): (r: seq<T>)
    ensures |r| <= |s|
  {
    if s == [] then []
    else
      var rest := Filter(s[..|s| - 1], p);
      assert s == s[..|s| - 1] + [s[|s| - 1]];
      if p(s[|s| - 1]) then rest + [s[|s| - 1]] else rest
  }

  /** The complement of a predicate. */
  function Not<T>(p: T -> bool): T -> bool {
    x => !p(x)
  }

  /** A filter and the filter by the complement split the sequence between them. */
  lemma {:induction false} FilterPartition<T>(s: seq<T>, p: T -> bool)
    ensures |Filter(s, p)| + |Filter(s, Not(p))| == |s|
  {
    if s != [] {
      FilterPartition(s[..|s| - 1], p);
    }
  }

  lemma {:induction false} FilterAppend<T>(s: seq<T>, t: seq<T>, p: T -> bool)
    ensures Filter(s + t, p) == Filter(s, p) + Filter(t, p)
  {
    if t == [] {
      assert s + t == s;
    } else {
      assert (s + t)[..|s + t| - 1] == s + t[..|t| - 1];
      FilterAppend(s, t[..|t| - 1], p);
    }
  }

  /** Every element `Filter` keeps satisfies `p`. */
  lemma {:induction false} FilterSatisfies<T>(s: seq<T>, p: T -> bool)
    ensures forall i :: 0 <= i < |Filter(s, p)| ==> p(Filter(s, p)[i])
  {
    if s != [] {
      FilterSatisfies(s[..|s| - 1], p);
    }
  }

  /** `Filter` keeps exactly the elements satisfying `p`, as many times as they occur. */
  lemma {:induction false} FilterMultiset<T>(s: seq<T>, p: T -> bool, x: T)
    ensures multiset(Filter(s, p))[x] == if p(x) then multiset(s)[x] else 0
  {
    if s != [] {
      var init, last := s[..|s| - 1], s[|s| - 1];
      FilterMultiset(init, p, x);
      assert s == init + [last];
    }
  }

  /** Every element `Filter` keeps comes from `s` and satisfies `p`. */
  /** An element of `s` that satisfies `p` survives the filter. */
  lemma FilterContains<T>(s: seq<T>, p: T -> bool, x: T)
    requires x in s && p(x)
    ensures x in Filter(s, p)
  {
    FilterMultiset(s, p, x);
  }

  lemma FilterKeeps<T>(s: seq<T>, p: T -> bool)
    ensures forall i :: 0 <= i < |Filter(s, p)| ==> Filter(s, p)[i] in s && p(Filter(s, p)[i])
  {
    FilterSatisfies(s, p);
    forall i | 0 <= i < |Filter(s, p)| ensures Filter(s, p)[i] in s {
      FilterMultiset(s, p, Filter(s, p)[i]);
    }
  }

  /** `idx` picks the elements of `r` out of `s`, at strictly increasing positions. */
  ghost predicate PicksOut<T>(idx: seq<int>, r: seq<T>, s: seq<T>) {
    && |idx| == |r|
    && (forall k :: 0 <= k < |idx| ==> 0 <= idx[k] < |s| && s[idx[k]] == r[k])
    && (forall k :: 0 < k < |idx| ==> idx[k - 1] < idx[k])
  }

  /** `r` is `s` with some elements left out and the rest in their original order. */
  ghost predicate Subsequence<T>(r: seq<T>, s: seq<T>) {
    exists idx :: PicksOut(idx, r, s)
  }

  lemma SubsequenceTransitive<T>(a: seq<T>, b: seq<T>, c: seq<T>)
    requires Subsequence(a, b) && Subsequence(b, c)
    ensures Subsequence(a, c)
  {
    var i :| PicksOut(i, a, b);
    var j :| PicksOut(j, b, c);
    var idx := seq(|i|, k requires 0 <= k < |i| => j[i[k]]);
    assert forall k :: 0 < k < |idx| ==> idx[k - 1] < idx[k] by {
      forall k | 0 < k < |idx| ensures idx[k - 1] < idx[k] {
        Increasing(j, i[k - 1], i[k]);
      }
    }
    assert PicksOut(idx, a, c);
  }

  /** Consecutive increase makes a sequence increasing between any two positions. */
  lemma {:induction false} Increasing(j: seq<int>, m: int, n: int)
    requires forall k :: 0 < k < |j| ==> j[k - 1] < j[k]
    requires 0 <= m < n < |j|
    ensures j[m] < j[n]
    decreases n - m
  {
    if m + 1 < n {
      Increasing(j, m, n - 1);
    }
  }

  /** The positions of `s` that `Filter` keeps. */
  function FilterPositions<T>(s: seq<T>, p: T -> bool): seq<int>
  {
    if s == [] then []
    else FilterPositions(s[..|s| - 1], p) + (if p(s[|s| - 1]) then [|s| - 1] else [])
  }

  /** `Filter` keeps the order of the elements it keeps. */
  lemma FilterSubsequence<T>(s: seq<T>, p: T -> bool)
    ensures Subsequence(Filter(s, p), s)
  {
    FilterPicksOut(s, p);
  }

  lemma {:induction false} FilterPicksOut<T>(s: seq<T>, p: T -> bool)
    ensures PicksOut(FilterPositions(s, p), Filter(s, p), s)
  {
    if s != [] {
      var init, last := s[..|s| - 1], s[|s| - 1];
      FilterPicksOut(init, p);
      var idx0, r0 := FilterPositions(init, p), Filter(init, p);
      assert forall k :: 0 <= k < |idx0| ==> s[idx0[k]] == init[idx0[k]];
      if p(last) {
        var idx, r := idx0 + [|s| - 1], r0 + [last];
        assert forall k :: 0 <= k < |idx0| ==> idx[k] == idx0[k] && r[k] == r0[k];
        assert PicksOut(idx, r, s);
      } else {
        assert PicksOut(idx0, r0, s);
      }
    }
  }

  lemma {:induction false} FilterAll<T>(s: seq<T>, p: T -> bool)
    requires forall i :: 0 <= i < |s| ==> p(s[i])
    ensures Filter(s, p) == s
  {
    if s != [] {
      FilterAll(s[..|s| - 1], p);
      assert s == s[..|s| - 1] + [s[|s| - 1]];
    }
  }

  lemma {:induction false} FilterNone<T>(s: seq<T>, p: T -> bool)
    requires forall i :: 0 <= i < |s| ==> !p(s[i])
    ensures Filter(s, p) == []
  {
    if s != [] {
      FilterNone(s[..|s| - 1], p);
    }
  }

  /** Filtering by `q` first changes nothing when `p` implies `q`. */
  lemma {:induction false} FilterFilterImplied<T>(s: seq<T>, p: T -> bool, q: T -> bool)
    requires forall i :: 0 <= i < |s| ==> p(s[i]) ==> q(s[i])
    ensures Filter(Filter(s, q), p) == Filter(s, p)
  {
    if s != [] {
      var init, last := s[..|s| - 1], s[|s| - 1];
      FilterFilterImplied(init, p, q);
      if q(last) {
        FilterAppend(Filter(init, q), [last], p);
        FilterSingleton(last, p);
      }
    }
  }

  /** Filtering by `q` first leaves nothing for `p` when the two exclude each other. */
  lemma {:induction false} FilterFilterDisjoint<T>(s: seq<T>, p: T -> bool, q: T -> bool)
    requires forall i :: 0 <= i < |s| ==> q(s[i]) ==> !p(s[i])
    ensures Filter(Filter(s, q), p) == []
  {
    if s != [] {
      var init, last := s[..|s| - 1], s[|s| - 1];
      FilterFilterDisjoint(init, p, q);
      if q(last) {
        FilterAppend(Filter(init, q), [last], p);
        FilterSingleton(last, p);
      }
    }
  }

  /** Two predicates that agree on the elements of `s` keep the same elements. */
  lemma {:induction false} FilterAgree<T>(s: seq<T>, p: T -> bool, q: T -> bool)
    requires forall i :: 0 <= i < |s| ==> p(s[i]) == q(s[i])
    ensures Filter(s, p) == Filter(s, q)
  {
    if s != [] {
      FilterAgree(s[..|s| - 1], p, q);
    }
  }

  /** Places `x` after every element of `t` whose key is at most `x`'s. */
  function Insert<T, K>(t: seq<T>, x: T, key: T -> K, le: (K, K) -> bool): seq<T>
  {
    if t == [] then [x]
    else if le(key(t[|t| - 1]), key(x)) then t + [x]
    else Insert(t[..|t| - 1], x, key, le) + [t[|t| - 1]]
  }

  function SortBy<T, K>(s: seq<T>, key: T -> K, le: (K, K) -> bool): seq<T>
  {
    if s == [] then [] else Insert(SortBy(s[..|s| - 1], key, le), s[|s| - 1], key, le)
  }

  lemma {:induction false} InsertPermutes<T, K>(t: seq<T>, x: T, key: T -> K, le: (K, K) -> bool)
    ensures multiset(Insert(t, x, key, le)) == multiset(t) + multiset{x}
  {
    if t != [] && !le(key(t[|t| - 1]), key(x)) {
      InsertPermutes(t[..|t| - 1], x, key, le);
      MultisetSnoc(t);
    }
  }

  /** The sorted sequence holds exactly the input's elements, with their multiplicities. */
  lemma {:induction false} SortByPermutes<T, K>(s: seq<T>, key: T -> K, le: (K, K) -> bool)
    ensures multiset(SortBy(s, key, le)) == multiset(s)
  {
    if s != [] {
      var init, last := s[..|s| - 1], s[|s| - 1];
      SortByPermutes(init, key, le);
      InsertPermutes(SortBy(init, key, le), last, key, le);
      MultisetSnoc(s);
    }
  }

  lemma TakeSnoc<T>(s: seq<T>, i: nat)
    requires i < |s|
    ensures s[..i + 1] == s[..i] + [s[i]]
  {
  }

  lemma TakeOfTake<T>(s: seq<T>, n: nat, k: nat)
    requires k <= n <= |s|
    ensures s[..n][..k] == s[..k]
  {
  }

  lemma MultisetSnoc<T>(s: seq<T>)
    requires s != []
    ensures multiset(s) == multiset(s[..|s| - 1]) + multiset{s[|s| - 1]}
  {
    assert s == s[..|s| - 1] + [s[|s| - 1]];
  }

  lemma {:induction false} InsertSorted<T, K(!new)>(t: seq<T>, x: T, key: T -> K, le: (K, K) -> bool)
    requires TotalPreorder(le) && SortedBy(t, key, le)
    ensures SortedBy(Insert(t, x, key, le), key, le)
    ensures |Insert(t, x, key, le)| == |t| + 1
  {
    if t == [] {
    } else if le(key(t[|t| - 1]), key(x)) {
      var r := t + [x];
      forall i, j | 0 <= i < j < |r| ensures le(key(r[i]), key(r[j])) {
        if j == |t| && i < |t| - 1 {
          LeTransitive(le, key(t[i]), key(t[|t| - 1]), key(x));
        }
      }
    } else {
      var init, last := t[..|t| - 1], t[|t| - 1];
      assert SortedBy(init, key, le);
      InsertSorted(init, x, key, le);
      InsertPermutes(init, x, key, le);
      var u := Insert(init, x, key, le);
      assert le(key(x), key(last));
      forall i | 0 <= i < |u| ensures le(key(u[i]), key(last)) {
        var y := u[i];
        assert multiset(u)[y] > 0;
        if y != x {
          assert y in multiset(init);
          var k :| 0 <= k < |init| && init[k] == y;
          assert t[k] == y;
        }
      }
      var r := u + [last];
      assert Insert(t, x, key, le) == r;
      forall i, j | 0 <= i < j < |r| ensures le(key(r[i]), key(r[j])) {
        if j == |u| { assert r[i] == u[i]; }
      }
    }
  }

  /** The result is ordered by `le` on the keys. */
  lemma {:induction false} SortBySorted<T, K(!new)>(s: seq<T>, key: T -> K, le: (K, K) -> bool)
    requires TotalPreorder(le)
    ensures SortedBy(SortBy(s, key, le), key, le)
    ensures |SortBy(s, key, le)| == |s|
  {
    if s != [] {
      SortBySorted(s[..|s| - 1], key, le);
      InsertSorted(SortBy(s[..|s| - 1], key, le), s[|s| - 1], key, le);
    }
  }

  /** The predicate "has key `k`". */
  ghost function KeyIs<T, K>(key: T -> K, k: K): T -> bool {
    y => key(y) == k
  }

  lemma FilterSingleton<T>(x: T, p: T -> bool)
    ensures Filter([x], p) == if p(x) then [x] else []
  {
    assert [x][..0] == [];
  }

  lemma {:induction false} InsertStable<T, K(!new)>(t: seq<T>, x: T, key: T -> K, le: (K, K) -> bool, k: K)
    requires TotalPreorder(le)
    ensures Filter(Insert(t, x, key, le), KeyIs(key, k)) == Filter(t, KeyIs(key, k)) + Filter([x], KeyIs(key, k))
    decreases |t|, 1
  {
    var p := KeyIs(key, k);
    if t == [] {
      assert Insert(t, x, key, le) == [] + [x];
      FilterAppend([], [x], p);
    } else if le(key(t[|t| - 1]), key(x)) {
      assert Insert(t, x, key, le) == t + [x];
      FilterAppend(t, [x], p);
    } else {
      InsertStableStep(t, x, key, le, k);
    }
  }

  lemma {:induction false} InsertStableStep<T, K(!new)>(t: seq<T>, x: T, key: T -> K, le: (K, K) -> bool, k: K)
    requires TotalPreorder(le) && t != [] && !le(key(t[|t| - 1]), key(x))
    ensures Filter(Insert(t, x, key, le), KeyIs(key, k)) == Filter(t, KeyIs(key, k)) + Filter([x], KeyIs(key, k))
    decreases |t|, 0
  {
    var p := KeyIs(key, k);
    var init, last := t[..|t| - 1], t[|t| - 1];
    KeysDiffer(le, key(last), key(x));
    InsertStable(init, x, key, le, k);
    var u := Insert(init, x, key, le);
    assert Insert(t, x, key, le) == u + [last];
    FilterAppend(u, [last], p);
    assert t == init + [last];
    FilterAppend(init, [last], p);
    FilterSingleton(x, p);
    FilterSingleton(last, p);
    var a, fx, fl := Filter(init, p), Filter([x], p), Filter([last], p);
    assert fx == [] || fl == [];
    assert Filter(u, p) == a + fx;
    SwapEmpty(a, fx, fl);
  }

  /** Two pieces of which one is empty can be appended in either order. */
  lemma SwapEmpty<T>(a: seq<T>, b: seq<T>, c: seq<T>)
    requires b == [] || c == []
    ensures (a + b) + c == (a + c) + b
  {
    if b == [] {
      assert a + b == a;
      assert (a + c) + b == a + c;
    } else {
      assert (a + b) + c == a + b;
      assert a + c == a;
    }
  }

  lemma KeysDiffer<K(!new)>(le: (K, K) -> bool, a: K, b: K)
    requires TotalPreorder(le) && !le(a, b)
    ensures a != b
  {
    assert le(a, a) || le(a, a);
  }

  /**
   * Stability: for every key value, the elements carrying it appear in the output in
   * the same order as in the input.
   */
  lemma {:induction false} SortByStable<T, K(!new)>(s: seq<T>, key: T -> K, le: (K, K) -> bool, k: K)
    requires TotalPreorder(le)
    ensures Filter(SortBy(s, key, le), KeyIs(key, k)) == Filter(s, KeyIs(key, k))
  {
    if s != [] {
      var init, last := s[..|s| - 1], s[|s| - 1];
      SortByStable(init, key, le, k);
      InsertStable(SortBy(init, key, le), last, key, le, k);
      FilterSingleton(last, KeyIs(key, k));
    }
  }
}
