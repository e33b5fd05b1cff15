/** List comprehensions with a condition, `[x for x in s if p(x)]`, and their laws. */
module Seqs {

  function Filter<T>(s: seq<T>, p: T -> bool): (r: seq<T>)
    ensures |r| <= |s|
  {
    if s == [] then [] else Filter(s[..|s| - 1], p) + (if p(s[|s| - 1]) then [s[|s| - 1]] else [])
  }

  /** The filtered list holds exactly the elements that satisfy `p`. */
  lemma {:induction false} FilterMembers<T>(s: seq<T>, p: T -> bool)
    ensures forall i :: 0 <= i < |Filter(s, p)| ==> Filter(s, p)[i] in s && p(Filter(s, p)[i])
    ensures forall i :: 0 <= i < |s| && p(s[i]) ==> s[i] in Filter(s, p)
  {
    if s != [] {
      var init := s[..|s| - 1];
      FilterMembers(init, p);
      assert forall i :: 0 <= i < |init| ==> init[i] == s[i];
    }
  }

  lemma {:induction false} FilterAppend<T>(a: seq<T>, b: seq<T>, p: T -> bool)
    ensures Filter(a + b, p) == Filter(a, p) + Filter(b, p)
  {
    if b == [] {
      assert a + b == a;
    } else {
      var init := b[..|b| - 1];
      assert (a + b)[..|a + b| - 1] == a + init;
      assert (a + b)[|a + b| - 1] == b[|b| - 1];
      FilterAppend(a, init, p);
    }
  }

  lemma {:induction false} FilterAll<T>(s: seq<T>, p: T -> bool)
    requires forall i :: 0 <= i < |s| ==> p(s[i])
    ensures Filter(s, p) == s
  {
    if s != [] {
      FilterAll(s[..|s| - 1], p);
    }
  }

  lemma {:induction false} FilterNone<T>(s: seq<T>, p: T -> bool)
    requires forall i :: 0 <= i < |s| ==> !p(s[i])
    ensures Filter(s, p) == []
  {
    if s != [] {
      FilterNone(s[..|s| - 1], p);
    }
  }

  /** Filtering a list whose elements satisfy `p` up to `k` and not after keeps its first `k`. */
  lemma {:induction false} FilterPrefix<T>(s: seq<T>, p: T -> bool, k: nat)
    requires k <= |s|
    requires forall i :: 0 <= i < k ==> p(s[i])
    requires forall i :: k <= i < |s| ==> !p(s[i])
    ensures Filter(s, p) == s[..k]
  {
    if |s| > k {
      FilterPrefix(s[..|s| - 1], p, k);
      assert s[..|s| - 1][..k] == s[..k];
    } else {
      assert s[..k] == s;
      FilterAll(s, p);
    }
  }

  /** Filtering a list whose elements satisfy `p` from `k` on and not before keeps its last ones. */
  lemma {:induction false} FilterSuffix<T>(s: seq<T>, p: T -> bool, k: nat)
    requires k <= |s|
    requires forall i :: 0 <= i < k ==> !p(s[i])
    requires forall i :: k <= i < |s| ==> p(s[i])
    ensures Filter(s, p) == s[k..]
  {
    if |s| > k {
      FilterSuffix(s[..|s| - 1], p, k);
      assert s[..|s| - 1][k..] + [s[|s| - 1]] == s[k..];
    } else {
      FilterNone(s, p);
    }
  }

  /** Filtering by two conditions in turn is filtering by both. */
  lemma {:induction false} FilterFilter<T>(s: seq<T>, p: T -> bool, q: T -> bool, both: T -> bool)
    requires forall x :: both(x) == (p(x) && q(x))
    ensures Filter(Filter(s, p), q) == Filter(s, both)
  {
    if s != [] {
      var init := s[..|s| - 1];
      var last := s[|s| - 1];
      FilterFilter(init, p, q, both);
      FilterAppend(Filter(init, p), if p(last) then [last] else [], q);
    }
  }

  /** Conditions that agree on every element keep the same elements. */
  lemma {:induction false} FilterExt<T>(s: seq<T>, p: T -> bool, q: T -> bool)
    requires forall i :: 0 <= i < |s| ==> p(s[i]) == q(s[i])
    ensures Filter(s, p) == Filter(s, q)
  {
    if s != [] {
      FilterExt(s[..|s| - 1], p, q);
    }
  }

  /** `[f(x) for x in s]` */
  function Map<T, U>(s: seq<T>, f: T -> U): (r: seq<U>)
    ensures |r| == |s| && forall i :: 0 <= i < |s| ==> r[i] == f(s[i])
  {
    seq(|s|, i requires 0 <= i < |s| => f(s[i]))
  }

  /** `[f(x) for x in s[..i + 1] if p(x)]` grows by `f(s[i])` exactly when `p(s[i])`. */
  lemma FilterMapStep<T, U>(s: seq<T>, i: nat, p: T -> bool, f: T -> U)
    requires i < |s|
    ensures Map(Filter(s[..i + 1], p), f) == Map(Filter(s[..i], p), f) + if p(s[i]) then [f(s[i])] else []
  {
    assert s[..i + 1][..i] == s[..i];
    var a := Filter(s[..i], p);
    if p(s[i]) {
      assert Filter(s[..i + 1], p) == a + [s[i]];
      assert Map(a + [s[i]], f) == Map(a, f) + [f(s[i])];
    }
  }

  /** `[f(x) for x in s[..i + 1]]` grows by `f(s[i])`. */
  lemma MapStep<T, U>(s: seq<T>, i: nat, f: T -> U)
    requires i < |s|
    ensures Map(s[..i + 1], f) == Map(s[..i], f) + [f(s[i])]
  {
    assert s[..i + 1][..i] == s[..i];
  }

  /** Mapping a concatenation maps each part. */
  lemma MapAppend<T, U>(a: seq<T>, b: seq<T>, f: T -> U)
    ensures Map(a + b, f) == Map(a, f) + Map(b, f)
  {
  }

  /** Filtering mapped elements is mapping the elements whose image passes. */
  lemma {:induction false} FilterMap<T, U>(s: seq<T>, f: T -> U, p: U -> bool, pf: T -> bool)
    requires forall x :: pf(x) == p(f(x))
    ensures Filter(Map(s, f), p) == Map(Filter(s, pf), f)
  {
    if s != [] {
      var init := s[..|s| - 1];
      FilterMap(init, f, p, pf);
      assert Map(s, f) == Map(init, f) + [f(s[|s| - 1])];
      MapAppend(Filter(init, pf), if pf(s[|s| - 1]) then [s[|s| - 1]] else [], f);
    }
  }

  /**
    Filtering, mapping and filtering again is filtering once by a condition
    that does both and then mapping.
  */
  lemma FilterMapFilter<T, U>(s: seq<T>, p: T -> bool, f: T -> U, q: U -> bool, k: T -> bool)
    requires forall x :: k(x) == (p(x) && q(f(x)))
    ensures Filter(Map(Filter(s, p), f), q) == Map(Filter(s, k), f)
  {
    var qf := x => q(f(x));
    FilterMap(Filter(s, p), f, q, qf);
    FilterFilter(s, p, qf, k);
  }

  /** `[f(x) for x in s if p(x)]` holds the images of the elements that pass. */
  lemma MapFilterMembers<T, U>(s: seq<T>, p: T -> bool, f: T -> U)
    ensures forall y :: y in Map(Filter(s, p), f) <==> exists x :: x in s && p(x) && y == f(x)
  {
    var k := Filter(s, p);
    FilterMembers(s, p);
    forall y | y in Map(k, f)
      ensures exists x :: x in s && p(x) && y == f(x)
    {
      var i :| 0 <= i < |k| && y == f(k[i]);
      assert k[i] in s && p(k[i]);
    }
    forall y | exists x :: x in s && p(x) && y == f(x)
      ensures y in Map(k, f)
    {
      var x :| x in s && p(x) && y == f(x);
      var i :| 0 <= i < |s| && s[i] == x;
      var j :| 0 <= j < |k| && k[j] == x;
      assert Map(k, f)[j] == y;
    }
  }

  /** Mapping twice is mapping the composition. */
  lemma MapMap<T, U, V>(s: seq<T>, f: T -> U, g: U -> V)
    ensures Map(Map(s, f), g) == Map(s, x => g(f(x)))
  {
  }

  /** Functions that agree on every element map alike. */
  lemma MapExt<T, U>(s: seq<T>, f: T -> U, g: T -> U)
    requires forall i :: 0 <= i < |s| ==> f(s[i]) == g(s[i])
    ensures Map(s, f) == Map(s, g)
  {
  }

  /** The lists of `ss` one after the other. */
  function Concat<T>(ss: seq<seq<T>>): seq<T> {
    if ss == [] then [] else Concat(ss[..|ss| - 1]) + ss[|ss| - 1]
  }

  /** An element of the joined lists is an element of one of them. */
  lemma {:induction false} ConcatMember<T>(ss: seq<seq<T>>, x: T)
    ensures x in Concat(ss) <==> exists i :: 0 <= i < |ss| && x in ss[i]
  {
    if ss != [] {
      var init := ss[..|ss| - 1];
      ConcatMember(init, x);
      assert forall i :: 0 <= i < |init| ==> init[i] == ss[i];
    }
  }

  /** Joining one more list appends it. */
  lemma ConcatSnoc<T>(ss: seq<seq<T>>, s: seq<T>)
    ensures Concat(ss + [s]) == Concat(ss) + s
  {
    assert (ss + [s])[..|ss|] == ss;
  }

  /** `saved` followed by what is left gives `whole`; so does `saved` with the next part, then the rest. */
  lemma PrefixStep<T>(saved: seq<T>, here: seq<T>, head: seq<T>, rest: seq<T>, whole: seq<T>)
    requires here == head + rest && saved + here == whole
    ensures saved + head + rest == whole
    ensures head == [] ==> saved + rest == whole
    ensures rest == [] ==> saved + head == whole
  {
    assert saved + head + rest == saved + (head + rest);
    if head == [] {
      assert head + rest == rest;
    }
    if rest == [] {
      assert head + rest == head;
    }
  }

  /** Replacing one element is cutting it out and putting the new one in its place. */
  lemma UpdateSplice<T>(s: seq<T>, k: nat, x: T)
    requires k < |s|
    ensures s[k := x] == s[..k] + [x] + s[k + 1..]
  {
  }

  /** A slice of the middle part of a concatenation is a slice of that part. */
  lemma SliceMiddle<T>(p: seq<T>, a: seq<T>, q: seq<T>, i: nat, j: nat)
    requires i <= j <= |a|
    ensures (p + a + q)[|p| + i..|p| + j] == a[i..j]
  {
    var s := p + a + q;
    forall k | 0 <= k < j - i ensures s[|p| + i..|p| + j][k] == a[i..j][k] {
      assert s[|p| + i + k] == a[i + k];
    }
  }

  /** The prefix one longer is the prefix with the next element. */
  lemma TakeStep<T>(s: seq<T>, i: nat)
    requires i < |s|
    ensures s[..i + 1][..i] == s[..i] && s[..i + 1][i] == s[i]
  {
  }

  /** A slice within a prefix is the same slice of the whole. */
  lemma SliceOfTake<T>(s: seq<T>, n: nat, lo: nat, hi: nat)
    requires lo <= hi <= n <= |s|
    ensures s[..n][lo..hi] == s[lo..hi]
  {
  }

  /** A slice that ends just before `n`, followed by `s[n]`, is the slice through `n`. */
  lemma SliceSnoc<T>(s: seq<T>, lo: nat, n: nat)
    requires lo <= n < |s|
    ensures s[..n][lo..n] + [s[n]] == s[lo..n + 1]
  {
  }
}
