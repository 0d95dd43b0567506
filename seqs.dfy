/**
 * The array operations the pages build their views from: `filter`, `map`,
 * `slice(0, n)` and summing with `reduce`, with the facts the views rely on
 * (order is kept, the right elements survive, sums do not depend on order).
 */
module Seqs {

  /** `s.filter(p)`: the elements satisfying `p`, in their original order. */
  function Filter<T>(s: seq<T>, p: T -> bool): (r: seq<T>)
    ensures |r| <= |s|
    ensures forall i :: 0 <= i < |r| ==> p(r[i])
  {
    if s == [] then []
    else if p(s[0]) then [s[0]] + Filter(s[1..], p)
    else Filter(s[1..], p)
  }

  /** An element is in the filtered sequence exactly when it is in the input
      and satisfies the predicate. */
  lemma {:induction false} FilterMembers<T>(s: seq<T>, p: T -> bool)
    ensures forall x :: x in Filter(s, p) <==> x in s && p(x)
  {
    if s != [] {
      FilterMembers(s[1..], p);
      assert s == [s[0]] + s[1..];
    }
  }

  /** `s.map(f)` */
  function Map<T, U>(s: seq<T>, f: T -> U): (r: seq<U>)
    ensures |r| == |s|
    ensures forall i :: 0 <= i < |s| ==> r[i] == f(s[i])
  {
    seq(|s|, i requires 0 <= i < |s| => f(s[i]))
  }

  /** `s.reduce((acc, x) => acc + f(x), 0)` over exact reals, where the order
      of the additions does not change the result. */
  function SumBy<T>(s: seq<T>, f: T -> real): real {
    if s == [] then 0.0 else f(s[0]) + SumBy(s[1..], f)
  }

  /** `s.slice(0, n)` */
  function Take<T>(s: seq<T>, n: nat): (r: seq<T>)
    ensures |r| == if n < |s| then n else |s|
    ensures r == s[..|r|]
  {
    if n < |s| then s[..n] else s
  }

  /** `a` is `b` with some elements left out, the rest in the same order. */
  ghost predicate IsSubsequence<T>(a: seq<T>, b: seq<T>)
    decreases |b|
  {
    if b == [] then a == []
    else (a != [] && a[0] == b[0] && IsSubsequence(a[1..], b[1..])) || IsSubsequence(a, b[1..])
  }

  /** Filtering keeps the surviving elements in their original order. */
  lemma {:induction false} FilterIsSubsequence<T>(s: seq<T>, p: T -> bool)
    ensures IsSubsequence(Filter(s, p), s)
  {
    if s != [] {
      FilterIsSubsequence(s[1..], p);
      if p(s[0]) {
        assert Filter(s, p)[1..] == Filter(s[1..], p);
      }
    }
  }

  /** Any prefix of a subsequence is a subsequence. */
  lemma {:induction false} SubsequencePrefix<T>(a: seq<T>, b: seq<T>, k: nat)
    requires k <= |a| && IsSubsequence(a, b)
    ensures IsSubsequence(a[..k], b)
    decreases |b|
  {
    if b == [] {
    } else if k == 0 {
      EmptySubsequence(b);
    } else if a != [] && a[0] == b[0] && IsSubsequence(a[1..], b[1..]) {
      SubsequencePrefix(a[1..], b[1..], k - 1);
      assert a[..k][1..] == a[1..][..k - 1];
    } else {
      SubsequencePrefix(a, b[1..], k);
    }
  }

  /** The empty sequence is a subsequence of everything. */
  lemma {:induction false} EmptySubsequence<T>(b: seq<T>)
    ensures IsSubsequence([], b)
    decreases |b|
  {
    if b != [] {
      EmptySubsequence(b[1..]);
    }
  }

  /** Each element occurs in the filtered sequence as often as in the input
      when it satisfies the predicate, and not at all otherwise. */
  lemma {:induction false} FilterMultiplicity<T>(s: seq<T>, p: T -> bool, x: T)
    ensures multiset(Filter(s, p))[x] == if p(x) then multiset(s)[x] else 0
  {
    if s != [] {
      FilterMultiplicity(s[1..], p, x);
      assert s == [s[0]] + s[1..];
    }
  }

  /** Filtering with a predicate every element satisfies changes nothing. */
  lemma {:induction false} FilterAllPass<T>(s: seq<T>, p: T -> bool)
    requires forall i :: 0 <= i < |s| ==> p(s[i])
    ensures Filter(s, p) == s
  {
    if s != [] {
      FilterAllPass(s[1..], p);
      assert [s[0]] + s[1..] == s;
    }
  }

  /** Filtering twice with the same predicate is filtering once. */
  lemma FilterIdempotent<T>(s: seq<T>, p: T -> bool)
    ensures Filter(Filter(s, p), p) == Filter(s, p)
  {
    var r := Filter(s, p);
    forall i | 0 <= i < |r| ensures p(r[i]) {
      assert r[i] in r;
    }
    FilterAllPass(r, p);
  }

  /** Taking out the element at position `i` takes it out of the filtered
      elements when it passes, and changes nothing otherwise. */
  lemma FilterRemove<T>(t: seq<T>, i: nat, p: T -> bool)
    requires i < |t|
    ensures multiset(Filter(t, p))
         == (if p(t[i]) then multiset{t[i]} else multiset{}) + multiset(Filter(t[..i] + t[i + 1..], p))
  {
    var front, back := t[..i], t[i + 1..];
    var tail := [t[i]] + back;
    SplitAt(t, i);
    assert tail[0] == t[i] && tail[1..] == back;
    var mid := if p(t[i]) then [t[i]] else [];
    assert Filter(tail, p) == mid + Filter(back, p);
    FilterAppend(front, tail, p);
    FilterAppend(front, back, p);
    var ff, fb := Filter(front, p), Filter(back, p);
    assert Filter(t, p) == ff + (mid + fb);
    assert multiset(ff + (mid + fb)) == multiset(mid) + multiset(ff + fb);
  }

  /** A sequence is what comes before position `i`, the element there, and
      what comes after. */
  lemma SplitAt<T>(t: seq<T>, i: nat)
    requires i < |t|
    ensures t == t[..i] + ([t[i]] + t[i + 1..])
  {
    assert t[..i + 1] == t[..i] + [t[i]];
  }

  /** Filters of two arrangements of the same elements hold the same elements. */
  lemma {:induction false} FilterPermutation<T>(s: seq<T>, t: seq<T>, p: T -> bool)
    requires multiset(s) == multiset(t)
    ensures multiset(Filter(s, p)) == multiset(Filter(t, p))
    ensures |Filter(s, p)| == |Filter(t, p)|
    decreases |s|
  {
    if s == [] {
      assert |t| == |multiset(t)| == 0;
    } else {
      assert s[0] in multiset(t);
      var i :| 0 <= i < |t| && t[i] == s[0];
      PermutationRemove(s, t, i);
      FilterPermutation(s[1..], t[..i] + t[i + 1..], p);
      FilterRemove(s, 0, p);
      FilterRemove(t, i, p);
      assert s[..0] + s[1..] == s[1..];
    }
    assert |multiset(Filter(s, p))| == |Filter(s, p)|;
    assert |multiset(Filter(t, p))| == |Filter(t, p)|;
  }

  /** The sum over a concatenation is the sum of the two sums. */
  lemma {:induction false} SumByAppend<T>(a: seq<T>, b: seq<T>, f: T -> real)
    ensures SumBy(a + b, f) == SumBy(a, f) + SumBy(b, f)
  {
    if a == [] {
      assert a + b == b;
    } else {
      SumByAppend(a[1..], b, f);
      assert (a + b)[1..] == a[1..] + b;
    }
  }

  /** Taking out the element at position `i` takes `f` of it out of the sum. */
  lemma SumByRemove<T>(t: seq<T>, i: nat, f: T -> real)
    requires i < |t|
    ensures SumBy(t, f) == f(t[i]) + SumBy(t[..i] + t[i + 1..], f)
  {
    SplitAt(t, i);
    SumByAppend(t[..i], [t[i]] + t[i + 1..], f);
    SumByAppend(t[..i], t[i + 1..], f);
  }

  /** Matching the head of `s` with an equal element of `t` leaves two
      arrangements of the same remaining elements. */
  lemma PermutationRemove<T>(s: seq<T>, t: seq<T>, i: nat)
    requires multiset(s) == multiset(t) && s != [] && i < |t| && t[i] == s[0]
    ensures multiset(s[1..]) == multiset(t[..i] + t[i + 1..])
  {
    var rest := t[..i] + t[i + 1..];
    assert t == t[..i] + [t[i]] + t[i + 1..];
    assert s == [s[0]] + s[1..];
    assert multiset(t) == multiset(t[..i]) + multiset{t[i]} + multiset(t[i + 1..]);
    assert multiset(rest) == multiset(t[..i]) + multiset(t[i + 1..]);
    assert multiset(s) == multiset{s[0]} + multiset(s[1..]);
    assert multiset(s[1..]) == multiset(s) - multiset{s[0]};
    assert multiset(rest) == multiset(t) - multiset{t[i]};
  }

  /** A sum does not depend on the order of the elements. */
  lemma {:induction false} SumByPermutation<T>(s: seq<T>, t: seq<T>, f: T -> real)
    requires multiset(s) == multiset(t)
    ensures SumBy(s, f) == SumBy(t, f)
    decreases |s|
  {
    if s == [] {
      assert |t| == |multiset(t)| == 0;
    } else {
      assert s[0] in multiset(t);
      var i :| 0 <= i < |t| && t[i] == s[0];
      SumByRemove(t, i, f);
      PermutationRemove(s, t, i);
      SumByPermutation(s[1..], t[..i] + t[i + 1..], f);
    }
  }

  /** Taking out the element at position `i` takes its image out of the
      mapped elements. */
  lemma MapRemove<T, U>(t: seq<T>, i: nat, f: T -> U)
    requires i < |t|
    ensures multiset(Map(t, f)) == multiset{f(t[i])} + multiset(Map(t[..i] + t[i + 1..], f))
  {
    var m := Map(t, f);
    assert t[..i] + t[i + 1..] == t[..i] + t[i + 1..];
    assert Map(t[..i] + t[i + 1..], f) == m[..i] + m[i + 1..];
    assert m == m[..i] + [m[i]] + m[i + 1..];
    assert multiset(m) == multiset(m[..i]) + multiset{m[i]} + multiset(m[i + 1..]);
  }

  /** Mapping two arrangements of the same elements gives two arrangements of
      the same images. */
  lemma {:induction false} MapPermutation<T, U>(s: seq<T>, t: seq<T>, f: T -> U)
    requires multiset(s) == multiset(t)
    ensures multiset(Map(s, f)) == multiset(Map(t, f))
    decreases |s|
  {
    if s == [] {
      assert |t| == |multiset(t)| == 0;
    } else {
      assert s[0] in multiset(t);
      var i :| 0 <= i < |t| && t[i] == s[0];
      PermutationRemove(s, t, i);
      MapPermutation(s[1..], t[..i] + t[i + 1..], f);
      MapMatchedHeads(s, t, i, f);
    }
  }

  /** Matching images of the rest extend to matching images of the whole once
      the head of `s` is matched with position `i` of `t`. */
  lemma MapMatchedHeads<T, U>(s: seq<T>, t: seq<T>, i: nat, f: T -> U)
    requires s != [] && i < |t| && t[i] == s[0]
    requires multiset(Map(s[1..], f)) == multiset(Map(t[..i] + t[i + 1..], f))
    ensures multiset(Map(s, f)) == multiset(Map(t, f))
  {
    MapHead(s, f);
    MapRemove(t, i, f);
  }

  /** The images of a non-empty sequence are the image of its head and
      those of the rest. */
  lemma MapHead<T, U>(s: seq<T>, f: T -> U)
    requires s != []
    ensures multiset(Map(s, f)) == multiset{f(s[0])} + multiset(Map(s[1..], f))
  {
    assert Map(s, f) == [f(s[0])] + Map(s[1..], f);
  }

  /** `s.reduce((a, b) => a + b, 0)` over exact reals. */
  function Sum(s: seq<real>): real {
    SumBy(s, (x: real) => x)
  }

  /** The smallest element. */
  function Min(s: seq<real>): (m: real)
    requires s != []
    ensures m in s
    ensures forall i :: 0 <= i < |s| ==> m <= s[i]
  {
    if |s| == 1 then s[0]
    else
      var rest := Min(s[1..]);
      assert forall i :: 1 <= i < |s| ==> s[i] == s[1..][i - 1];
      if s[0] <= rest then s[0] else rest
  }

  /** The largest element. */
  function Max(s: seq<real>): (m: real)
    requires s != []
    ensures m in s
    ensures forall i :: 0 <= i < |s| ==> s[i] <= m
  {
    if |s| == 1 then s[0]
    else
      var rest := Max(s[1..]);
      assert forall i :: 1 <= i < |s| ==> s[i] == s[1..][i - 1];
      if rest <= s[0] then s[0] else rest
  }

  /** A sum of elements that all lie between `lo` and `hi` lies between
      `|s| * lo` and `|s| * hi`. */
  lemma {:induction false} SumBounds(s: seq<real>, lo: real, hi: real)
    requires forall i :: 0 <= i < |s| ==> lo <= s[i] <= hi
    ensures |s| as real * lo <= Sum(s) <= |s| as real * hi
  {
    if s != [] {
      SumBounds(s[1..], lo, hi);
      assert Sum(s) == s[0] + Sum(s[1..]);
    }
  }

  /** The sum of positive elements is positive as soon as there is one. */
  lemma {:induction false} SumPositive(s: seq<real>)
    requires forall i :: 0 <= i < |s| ==> s[i] > 0.0
    ensures s != [] ==> Sum(s) > 0.0
  {
    if s != [] {
      SumBounds(s[1..], 0.0, Max(s));
      assert Sum(s) == s[0] + Sum(s[1..]);
    }
  }

  /** Filtering distributes over concatenation. */
  lemma {:induction false} FilterAppend<T>(a: seq<T>, b: seq<T>, p: T -> bool)
    ensures Filter(a + b, p) == Filter(a, p) + Filter(b, p)
  {
    if a == [] {
      assert a + b == b;
    } else {
      var ab := a + b;
      assert ab[0] == a[0] && ab[1..] == a[1..] + b;
      FilterAppend(a[1..], b, p);
      if p(a[0]) {
        calc {
          Filter(ab, p);
          [a[0]] + Filter(a[1..] + b, p);
          [a[0]] + (Filter(a[1..], p) + Filter(b, p));
          ([a[0]] + Filter(a[1..], p)) + Filter(b, p);
          Filter(a, p) + Filter(b, p);
        }
      } else {
        assert Filter(ab, p) == Filter(a[1..] + b, p);
        assert Filter(a, p) == Filter(a[1..], p);
      }
    }
  }

  /** Mapping distributes over concatenation. */
  lemma MapAppend<T, U>(a: seq<T>, b: seq<T>, f: T -> U)
    ensures Map(a + b, f) == Map(a, f) + Map(b, f)
  {
  }

  /** A mean of elements that all lie between `lo` and `hi` lies between
      them too. */
  lemma MeanBounds(s: seq<real>, lo: real, hi: real)
    requires s != []
    requires forall i :: 0 <= i < |s| ==> lo <= s[i] <= hi
    ensures lo <= Sum(s) / |s| as real <= hi
  {
    SumBounds(s, lo, hi);
    MeanBetween(Sum(s), |s| as real, lo, hi);
  }

  /** A total between `n * lo` and `n * hi` shared among `n` gives a mean
      between `lo` and `hi`. */
  lemma MeanBetween(total: real, n: real, lo: real, hi: real)
    requires n > 0.0 && n * lo <= total <= n * hi
    ensures lo <= total / n <= hi
  {
    assert total == (total / n) * n;
  }
}
