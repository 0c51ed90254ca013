/**
 * Python's insertion-ordered `dict`, as a sequence of key/value pairs.
 * `Put` is `d[k] = v`: it overwrites the value of an existing key in place
 * and appends a new key at the end, so the key order is the order of first insertion.
 */
module Dicts {
  import opened Wrappers

  type Dict<K, V> = seq<(K, V)>

  /** No element occurs twice. */
  predicate NoDup<T(==)>(s: seq<T>) {
    forall i, j | 0 <= i < j < |s| :: s[i] != s[j]
  }

  /** The keys in insertion order, as `d.keys()`. */
  function Keys<K, V>(d: Dict<K, V>): (ks: seq<K>)
    ensures |ks| == |d|
    ensures forall i | 0 <= i < |d| :: ks[i] == d[i].0
  {
    if d == [] then [] else [d[0].0] + Keys(d[1..])
  }

  /** `d[k]`, or `None` where Python raises `KeyError`. */
  function Get<K(==), V>(d: Dict<K, V>, k: K): (r: Option<V>)
    ensures r.Some? <==> k in Keys(d)
  {
    if d == [] then None
    else if d[0].0 == k then Some(d[0].1)
    else Get(d[1..], k)
  }

  /** `d[k] = v`. */
  function Put<K(==), V>(d: Dict<K, V>, k: K, v: V): (r: Dict<K, V>)
    ensures Keys(r) == if k in Keys(d) then Keys(d) else Keys(d) + [k]
  {
    if d == [] then [(k, v)]
    else if d[0].0 == k then [(k, v)] + d[1..]
    else
      var rest := Put(d[1..], k, v);
      var r := [d[0]] + rest;
      assert r[0] == d[0] && r[1..] == rest;
      r
  }

  /** After `d[k] = v`, `d[k]` is v and every other key reads as before. */
  lemma {:induction false} PutGet<K, V>(d: Dict<K, V>, k: K, v: V, k': K)
    ensures Get(Put(d, k, v), k') == if k' == k then Some(v) else Get(d, k')
  {
    if d != [] && d[0].0 != k {
      PutGet(d[1..], k, v, k');
      assert Put(d, k, v)[1..] == Put(d[1..], k, v);
    }
  }

  /** After `d[k] = v` the keys are those of d and k. */
  lemma PutKeyIn<K, V>(d: Dict<K, V>, k: K, v: V, k': K)
    ensures k' in Keys(Put(d, k, v)) <==> k' == k || k' in Keys(d)
  {
  }

  /** Appending a new element keeps a sequence free of duplicates. */
  lemma AppendKeepsDistinct<T>(s: seq<T>, x: T)
    requires NoDup(s) && x !in s
    ensures NoDup(s + [x])
  {
    var t := s + [x];
    forall i, j | 0 <= i < j < |t|
      ensures t[i] != t[j]
    {
      assert t[i] == s[i];
      if j == |s| {
        assert t[j] == x;
      } else {
        assert t[j] == s[j];
      }
    }
  }

  /** Writing a key keeps the keys distinct. */
  lemma PutKeepsKeysDistinct<K, V>(d: Dict<K, V>, k: K, v: V)
    requires NoDup(Keys(d))
    ensures NoDup(Keys(Put(d, k, v)))
  {
    if k !in Keys(d) {
      AppendKeepsDistinct(Keys(d), k);
    }
  }

  /** Python's `abs` on a real. */
  function Abs(x: real): real {
    if x < 0.0 then -x else x
  }

  /** A value read from a dictionary is one of its entries. */
  lemma {:induction false} GetIsStored<K, V>(d: Dict<K, V>, k: K)
    requires Get(d, k).Some?
    ensures exists i | 0 <= i < |d| :: d[i] == (k, Get(d, k).value)
  {
    if d[0].0 != k {
      GetIsStored(d[1..], k);
      var i :| 0 <= i < |d[1..]| && d[1..][i] == (k, Get(d[1..], k).value);
      assert d[i + 1] == (k, Get(d, k).value);
    }
  }

  /** `sum(d.values())`. */
  function Total<K>(d: Dict<K, real>): real {
    if d == [] then 0.0 else d[0].1 + Total(d[1..])
  }

  /** Two distinct keys written into an empty dictionary stay in the order written. */
  lemma TwoPuts<K, V>(a: K, b: K, p: V, q: V)
    requires a != b
    ensures Put(Put([], a, p), b, q) == [(a, p), (b, q)]
  {
    assert Put([], a, p) == [(a, p)];
    assert Put([(a, p)], b, q) == [(a, p)] + Put([], b, q);
  }

  /** Writing the second of two distinct keys of a map again replaces its value. */
  lemma OverwriteSecond<K, V>(a: K, b: K, x: V, y: V, z: V)
    requires a != b
    ensures map[a := x, b := y][b := z] == map[a := x, b := z]
  {
  }
}
