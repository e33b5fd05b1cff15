/**
  Python's `dict` as an association list in insertion order.  Assigning to a
  key that is present keeps its position and replaces its value; assigning to
  a new key appends it.  `a | b` and dict comprehensions are folds of that
  assignment.
*/
module PyDict {
  import opened Wrappers

  type Dict<K, V> = seq<(K, V)>

  function Keys<K(==,!new), V>(d: Dict<K, V>): (r: seq<K>)
    ensures |r| == |d| && forall i :: 0 <= i < |d| ==> r[i] == d[i].0
  {
    seq(|d|, i requires 0 <= i < |d| => d[i].0)
  }

  /** No key occurs twice. */
  predicate Valid<K(==,!new), V>(d: Dict<K, V>) {
    forall i, j :: 0 <= i < j < |d| ==> d[i].0 != d[j].0
  }

  predicate HasKey<K(==,!new), V>(d: Dict<K, V>, k: K) {
    exists i :: 0 <= i < |d| && d[i].0 == k
  }

  /** The position of key `k` in `d`, if any (the first one). */
  function KeyIndex<K(==,!new), V>(d: Dict<K, V>, k: K): (r: Option<nat>)
    ensures r.Some? ==> r.value < |d| && d[r.value].0 == k
    ensures r.Some? ==> forall j :: 0 <= j < r.value ==> d[j].0 != k
    ensures r.None? <==> !HasKey(d, k)
  {
    if d == [] then None
    else if d[0].0 == k then Some(0)
    else
      match KeyIndex(d[1..], k)
      case Some(i) => Some(i + 1)
      case None =>
        assert forall i :: 1 <= i < |d| ==> d[i] == d[1..][i - 1];
        None
  }

  /** The keys of two pair lists one after the other. */
  lemma KeysConcat<K(!new), V>(x: Dict<K, V>, y: Dict<K, V>)
    ensures Keys(x + y) == Keys(x) + Keys(y)
  {
    assert forall i :: 0 <= i < |x| + |y| ==> Keys(x + y)[i] == (Keys(x) + Keys(y))[i];
  }

  /** Reordering the pairs reorders the keys. */
  lemma {:induction false} KeysPermutation<K(!new), V>(a: Dict<K, V>, b: Dict<K, V>)
    requires multiset(a) == multiset(b)
    ensures multiset(Keys(a)) == multiset(Keys(b))
    decreases |a|
  {
    if a == [] {
      assert |b| == |multiset(b)| == 0;
    } else {
      var x := a[|a| - 1];
      var a' := a[..|a| - 1];
      assert a == a' + [x];
      assert x in multiset(b);
      var k :| 0 <= k < |b| && b[k] == x;
      var b' := b[..k] + b[k + 1..];
      assert b == b[..k] + [x] + b[k + 1..];
      assert multiset(a') == multiset(a) - multiset{x};
      assert multiset(b') == multiset(b) - multiset{x};
      KeysPermutation(a', b');
      KeysConcat(a', [x]);
      KeysConcat(b[..k], [x]);
      KeysConcat(b[..k] + [x], b[k + 1..]);
      KeysConcat(b[..k], b[k + 1..]);
    }
  }

  /** Two dicts with the same keys at the same positions find every key at the same place. */
  lemma SameKeysSameIndex<K(!new), V, W>(d: Dict<K, V>, e: Dict<K, W>, k: K)
    requires Keys(d) == Keys(e)
    ensures KeyIndex(d, k) == KeyIndex(e, k)
  {
    forall j | 0 <= j < |d| ensures d[j].0 == e[j].0 {
      assert Keys(d)[j] == Keys(e)[j];
    }
  }

  /** Appending a pair leaves the position of every earlier key alone. */
  lemma AppendIndex<K(!new), V>(d: Dict<K, V>, k: K, v: V, k': K)
    ensures KeyIndex(d + [(k, v)], k') ==
      if KeyIndex(d, k').Some? then KeyIndex(d, k') else if k' == k then Some(|d|) else None
  {
    var r := d + [(k, v)];
    assert forall j :: 0 <= j < |d| ==> r[j] == d[j];
    assert r[|d|] == (k, v);
  }

  /** In a dict without repeated keys, a key is found wherever it occurs. */
  lemma GetAt<K(!new), V>(d: Dict<K, V>, i: nat)
    requires Valid(d) && i < |d|
    ensures Get(d, d[i].0) == Some(d[i].1)
  {
  }

  /** `d.get(k)`, with `None` for a missing key. */
  function Get<K(==,!new), V>(d: Dict<K, V>, k: K): (r: Option<V>)
    ensures r.Some? <==> HasKey(d, k)
    ensures r.Some? ==> (k, r.value) in d
  {
    match KeyIndex(d, k)
    case Some(i) => Some(d[i].1)
    case None => None
  }

  /** `d[k] = v` */
  function Set<K(==,!new), V>(d: Dict<K, V>, k: K, v: V): (r: Dict<K, V>)
    ensures Get(r, k) == Some(v)
    ensures forall k' :: k' != k ==> Get(r, k') == Get(d, k')
    ensures HasKey(d, k) ==> Keys(r) == Keys(d)
    ensures !HasKey(d, k) ==> r == d + [(k, v)]
    ensures Valid(d) ==> Valid(r)
  {
    match KeyIndex(d, k)
    case Some(i) =>
      var r := d[i := (k, v)];
      assert Keys(r) == Keys(d);
      forall k' ensures Get(r, k') == if k' == k then Some(v) else Get(d, k') {
        SameKeysSameIndex(r, d, k');
      }
      r
    case None =>
      var r := d + [(k, v)];
      forall k' ensures Get(r, k') == if k' == k then Some(v) else Get(d, k') {
        AppendIndex(d, k, v, k');
      }
      r
  }

  /** `del d[k]` for a key that may be absent (`d.pop(k, None)`). */
  function Remove<K(==,!new), V>(d: Dict<K, V>, k: K): (r: Dict<K, V>)
    requires Valid(d)
    ensures Valid(r)
    ensures Get(r, k).None?
    ensures forall k' :: k' != k ==> Get(r, k') == Get(d, k')
  {
    match KeyIndex(d, k)
    case None => d
    case Some(i) =>
      var r := d[..i] + d[i + 1..];
      assert forall j :: 0 <= j < |r| ==> r[j] == if j < i then d[j] else d[j + 1];
      forall k' | k' != k ensures Get(r, k') == Get(d, k') {
        if HasKey(d, k') {
          var p :| 0 <= p < |d| && d[p].0 == k';
          GetAt(d, p);
          var q := if p < i then p else p - 1;
          assert r[q] == d[p];
          GetAt(r, q);
        } else {
          assert !HasKey(r, k');
        }
      }
      assert !HasKey(r, k);
      r
  }

  /** The value of the last pair with key `k`: what a sequence of assignments leaves behind. */
  function GetLast<K(==,!new), V>(pairs: seq<(K, V)>, k: K): (r: Option<V>)
    ensures r.Some? <==> HasKey(pairs, k)
    ensures r.Some? ==> (k, r.value) in pairs
  {
    if pairs == [] then None
    else if pairs[|pairs| - 1].0 == k then Some(pairs[|pairs| - 1].1)
    else
      var init := pairs[..|pairs| - 1];
      assert HasKey(pairs, k) ==> HasKey(init, k) by {
        if HasKey(pairs, k) {
          var i :| 0 <= i < |pairs| && pairs[i].0 == k;
          assert init[i].0 == k;
        }
      }
      assert HasKey(init, k) ==> HasKey(pairs, k) by {
        if HasKey(init, k) {
          var i :| 0 <= i < |init| && init[i].0 == k;
          assert pairs[i].0 == k;
        }
      }
      GetLast(init, k)
  }

  /** In a dict without repeated keys the first and the last pair of a key are the same. */
  lemma {:induction false} GetLastValid<K(!new), V>(d: Dict<K, V>, k: K)
    requires Valid(d)
    ensures GetLast(d, k) == Get(d, k)
  {
    if d != [] {
      var init := d[..|d| - 1];
      assert Valid(init);
      GetLastValid(init, k);
      if d[|d| - 1].0 == k {
        forall i | 0 <= i < |init| ensures init[i].0 != k {
          assert init[i] == d[i];
        }
        GetPrefix(d, k);
      } else {
        GetPrefix(d, k);
      }
    }
  }

  /** Looking a key up in a dict whose last key is different, or missing from the front. */
  lemma {:induction false} GetPrefix<K(!new), V>(d: Dict<K, V>, k: K)
    requires d != []
    ensures d[|d| - 1].0 != k ==> Get(d, k) == Get(d[..|d| - 1], k)
    ensures !HasKey(d[..|d| - 1], k) && d[|d| - 1].0 == k ==> Get(d, k) == Some(d[|d| - 1].1)
  {
    if |d| > 1 {
      var init := d[..|d| - 1];
      if d[0].0 != k {
        assert d[1..][..|d[1..]| - 1] == init[1..];
        assert d[1..][|d[1..]| - 1] == d[|d| - 1];
        GetPrefix(d[1..], k);
        assert !HasKey(init, k) ==> !HasKey(init[1..], k) by {
          if HasKey(init[1..], k) {
            var i :| 0 <= i < |init[1..]| && init[1..][i].0 == k;
            assert init[i + 1].0 == k;
          }
        }
      } else {
        assert init[0].0 == k;
      }
    }
  }

  /** The pair at `i` is the last one of its key, so its value is what the assignments leave. */
  lemma {:induction false} GetLastAt<K(!new), V>(pairs: seq<(K, V)>, i: nat)
    requires i < |pairs|
    requires forall j :: i < j < |pairs| ==> pairs[j].0 != pairs[i].0
    ensures GetLast(pairs, pairs[i].0) == Some(pairs[i].1)
  {
    if i < |pairs| - 1 {
      GetLastAt(pairs[..|pairs| - 1], i);
    }
  }

  /** `a | b`: the keys of `a` in their order, then the new keys of `b`; the last value of `b` wins. */
  function Union<K(==,!new), V>(a: Dict<K, V>, b: seq<(K, V)>): (r: Dict<K, V>)
    ensures forall k :: Get(r, k) == if HasKey(b, k) then GetLast(b, k) else Get(a, k)
    ensures Valid(a) ==> Valid(r)
  {
    if b == [] then a
    else
      var init := b[..|b| - 1];
      var last := b[|b| - 1];
      var u := Union(a, init);
      assert forall k :: HasKey(b, k) <==> HasKey(init, k) || k == last.0 by {
        forall k ensures HasKey(b, k) <==> HasKey(init, k) || k == last.0 {
          if HasKey(init, k) {
            var i :| 0 <= i < |init| && init[i].0 == k;
            assert b[i].0 == k;
          }
          if HasKey(b, k) && k != last.0 {
            var i :| 0 <= i < |b| && b[i].0 == k;
            assert init[i].0 == k;
          }
        }
      }
      Set(u, last.0, last.1)
  }

  /** `{k: v for (k, v) in pairs}`: the first position and the last value of each key. */
  function FromPairs<K(==,!new), V>(pairs: seq<(K, V)>): (r: Dict<K, V>)
    ensures Valid(r)
    ensures forall k :: Get(r, k) == GetLast(pairs, k)
  {
    Union([], pairs)
  }

  /** Pairs without a repeated key make a dict that is those pairs, in that order. */
  lemma {:induction false} FromValidPairs<K(!new), V>(pairs: seq<(K, V)>)
    requires Valid(pairs)
    ensures FromPairs(pairs) == pairs
  {
    if pairs != [] {
      var init := pairs[..|pairs| - 1];
      var last := pairs[|pairs| - 1];
      assert Valid(init);
      FromValidPairs(init);
      assert !HasKey(init, last.0);
      assert Union([], pairs) == Set(init, last.0, last.1);
      assert init + [last] == pairs;
    }
  }
}
