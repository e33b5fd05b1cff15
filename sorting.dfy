/**
  Python's `sorted(...)` with a key, and `sorted(set(...))`, over sequences.
  The order is given as a `<=` relation that must be a total preorder.
*/
module Sorting {

  ghost predicate TotalPreorder<T(!new)>(le: (T, T) -> bool) {
    (forall a, b :: le(a, b) || le(b, a)) &&
    (forall a, b, c :: le(a, b) && le(b, c) ==> le(a, c))
  }

  ghost predicate Antisymmetric<T(!new)>(le: (T, T) -> bool) {
    forall a, b :: le(a, b) && le(b, a) ==> a == b
  }

  predicate SortedBy<T>(s: seq<T>, le: (T, T) -> bool) {
    forall i, j :: 0 <= i < j < |s| ==> le(s[i], s[j])
  }

  predicate Distinct<T(==)>(s: seq<T>) {
    forall i, j :: 0 <= i < j < |s| ==> s[i] != s[j]
  }

  /** Puts `x` into the sorted `s` after every element that is not above it. */
  function Insert<T(!new)>(x: T, s: seq<T>, le: (T, T) -> bool): (r: seq<T>)
    requires TotalPreorder(le) && SortedBy(s, le)
    ensures SortedBy(r, le)
    ensures multiset(r) == multiset(s) + multiset{x}
    ensures |r| == |s| + 1
  {
    if s == [] then [x]
    else if !le(s[0], x) then [x] + s
    else
      var t := Insert(x, s[1..], le);
      assert s == [s[0]] + s[1..];
      forall k | 0 <= k < |t| ensures le(s[0], t[k]) {
        assert t[k] in multiset(t);
        if t[k] != x {
          assert t[k] in s[1..];
          var m :| 0 <= m < |s[1..]| && s[1..][m] == t[k];
          assert s[m + 1] == t[k];
        }
      }
      ConsSorted(s[0], t, le);
      [s[0]] + t
  }

  /** An element not above any of a sorted sequence can go in front of it. */
  lemma ConsSorted<T>(y: T, t: seq<T>, le: (T, T) -> bool)
    requires SortedBy(t, le) && forall k :: 0 <= k < |t| ==> le(y, t[k])
    ensures SortedBy([y] + t, le)
  {
    var r := [y] + t;
    forall i, j | 0 <= i < j < |r| ensures le(r[i], r[j]) {
      assert r[j] == t[j - 1];
      if i > 0 {
        assert r[i] == t[i - 1];
      }
    }
  }

  /** `sorted(s, key=...)`: a stable insertion sort. */
  function SortBy<T(!new)>(s: seq<T>, le: (T, T) -> bool): (r: seq<T>)
    requires TotalPreorder(le)
    ensures SortedBy(r, le)
    ensures multiset(r) == multiset(s)
    ensures |r| == |s|
  {
    if s == [] then []
    else
      assert s == s[..|s| - 1] + [s[|s| - 1]];
      Insert(s[|s| - 1], SortBy(s[..|s| - 1], le), le)
  }

  /** `a` and `b` have the same key: neither sorts before the other. */
  predicate Tie<T>(a: T, b: T, le: (T, T) -> bool) {
    le(a, b) && le(b, a)
  }

  /** The elements of `s` that tie with `y`, in their order in `s`. */
  function Tied<T>(s: seq<T>, y: T, le: (T, T) -> bool): seq<T> {
    if s == [] then []
    else (if Tie(s[0], y, le) then [s[0]] else []) + Tied(s[1..], y, le)
  }

  lemma {:induction false} TiedAppend<T>(a: seq<T>, b: seq<T>, y: T, le: (T, T) -> bool)
    ensures Tied(a + b, y, le) == Tied(a, y, le) + Tied(b, y, le)
  {
    if a == [] {
      assert a + b == b;
    } else {
      assert (a + b)[0] == a[0] && (a + b)[1..] == a[1..] + b;
      TiedAppend(a[1..], b, y, le);
    }
  }

  lemma {:induction false} TiedNone<T>(s: seq<T>, y: T, le: (T, T) -> bool)
    requires forall i :: 0 <= i < |s| ==> !Tie(s[i], y, le)
    ensures Tied(s, y, le) == []
  {
    if s != [] {
      assert !Tie(s[0], y, le);
      assert forall i :: 0 <= i < |s[1..]| ==> s[1..][i] == s[i + 1];
      TiedNone(s[1..], y, le);
    }
  }

  lemma AboveNoTie<T(!new)>(x: T, s: seq<T>, y: T, le: (T, T) -> bool, i: nat)
    requires TotalPreorder(le) && SortedBy(s, le) && i < |s| && !le(s[0], x) && Tie(x, y, le)
    ensures !Tie(s[i], y, le)
  {
    if i > 0 {
      assert le(s[0], s[i]);
    }
  }

  /** Inserting `x` adds it behind the elements of `s` it ties with. */
  lemma {:induction false} InsertTied<T(!new)>(x: T, s: seq<T>, y: T, le: (T, T) -> bool)
    requires TotalPreorder(le) && SortedBy(s, le)
    ensures Tied(Insert(x, s, le), y, le) == Tied(s, y, le) + (if Tie(x, y, le) then [x] else [])
  {
    if s == [] {
      assert [x][1..] == [];
    } else if !le(s[0], x) {
      assert ([x] + s)[1..] == s;
      if Tie(x, y, le) {
        forall i | 0 <= i < |s| ensures !Tie(s[i], y, le) {
          AboveNoTie(x, s, y, le, i);
        }
        TiedNone(s, y, le);
      }
    } else {
      var t := Insert(x, s[1..], le);
      assert ([s[0]] + t)[1..] == t;
      InsertTied(x, s[1..], y, le);
    }
  }

  /**
    `sorted` is stable: the elements that tie with any `y` come out in the
    order they went in.
  */
  lemma {:induction false} SortByStable<T(!new)>(s: seq<T>, y: T, le: (T, T) -> bool)
    requires TotalPreorder(le)
    ensures Tied(SortBy(s, le), y, le) == Tied(s, y, le)
  {
    if s != [] {
      var init, last := s[..|s| - 1], s[|s| - 1];
      assert s == init + [last];
      var sorted := SortBy(init, le);
      assert SortBy(s, le) == Insert(last, sorted, le);
      SortByStable(init, y, le);
      InsertTied(last, sorted, y, le);
      TiedAppend(init, [last], y, le);
      assert Tied([last], y, le) == if Tie(last, y, le) then [last] else [] by {
        assert [last][1..] == [];
      }
    }
  }

  /** `list(dict.fromkeys(s))`: the first occurrence of every element, in order. */
  function Dedup<T(==,!new)>(s: seq<T>): (r: seq<T>)
    ensures Distinct(r)
    ensures forall x :: x in r <==> x in s
  {
    if s == [] then []
    else
      var d := Dedup(s[..|s| - 1]);
      assert forall x :: x in s <==> x in s[..|s| - 1] || x == s[|s| - 1] by {
        assert s == s[..|s| - 1] + [s[|s| - 1]];
      }
      if s[|s| - 1] in d then d else d + [s[|s| - 1]]
  }

  /** `sorted(set(s))`: strictly increasing, and the same elements as `s`. */
  function SortedSet<T(==,!new)>(s: seq<T>, le: (T, T) -> bool): (r: seq<T>)
    requires TotalPreorder(le) && Antisymmetric(le)
    ensures SortedBy(r, le) && Distinct(r)
    ensures forall x :: x in r <==> x in s
  {
    var d := Dedup(s);
    var r := SortBy(d, le);
    assert forall x :: x in r <==> x in multiset(r);
    assert forall x :: x in d <==> x in multiset(d);
    assert Distinct(r) by {
      forall i, j | 0 <= i < j < |r| ensures r[i] != r[j] {
        if r[i] == r[j] {
          MultisetCountTwo(r, i, j);
          DistinctCountOne(d, r[i]);
        }
      }
    }
    r
  }

  lemma MultisetCountTwo<T>(s: seq<T>, i: nat, j: nat)
    requires i < j < |s| && s[i] == s[j]
    ensures multiset(s)[s[i]] >= 2
  {
    assert s == s[..i] + [s[i]] + s[i + 1..j] + [s[j]] + s[j + 1..];
  }

  lemma {:induction false} DistinctCountOne<T>(s: seq<T>, x: T)
    requires Distinct(s)
    ensures multiset(s)[x] <= 1
  {
    if s != [] {
      assert s == [s[0]] + s[1..];
      DistinctCountOne(s[1..], x);
      if s[0] == x {
        assert x !in s[1..];
      }
    }
  }

  /** With a strict order at hand, sorted and distinct means strictly increasing. */
  lemma StrictlySorted<T(!new)>(s: seq<T>, le: (T, T) -> bool, i: nat, j: nat)
    requires Antisymmetric(le) && SortedBy(s, le) && Distinct(s)
    requires i < j < |s|
    ensures le(s[i], s[j]) && !le(s[j], s[i])
  {
  }
}
