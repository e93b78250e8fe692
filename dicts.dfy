/** Python dictionaries keep their keys in insertion order. They are modelled
    as association lists whose keys are pairwise distinct; assignment
    `d[k] = v` replaces the value in place when `k` is present and appends the
    pair otherwise. */
module Dicts {

  type Dict<K, V> = seq<(K, V)>

  function Keys<K, V>(d: Dict<K, V>): (ks: seq<K>)
    ensures |ks| == |d|
    ensures forall i :: 0 <= i < |d| ==> ks[i] == d[i].0
  {
    seq(|d|, i requires 0 <= i < |d| => d[i].0)
  }

  ghost predicate DistinctKeys<K, V>(d: Dict<K, V>) {
    forall i, j :: 0 <= i < j < |d| ==> d[i].0 != d[j].0
  }

  /** `d[k] = v` on an insertion-ordered dictionary. */
  function Set<K(==), V>(d: Dict<K, V>, k: K, v: V): Dict<K, V> {
    if d == [] then [(k, v)]
    else if d[0].0 == k then [(k, v)] + d[1..]
    else [d[0]] + Set(d[1..], k, v)
  }

  /** Assigning a new key appends the pair at the end. */
  lemma {:induction false} SetNewKey<K, V>(d: Dict<K, V>, k: K, v: V)
    requires k !in Keys(d)
    ensures Set(d, k, v) == d + [(k, v)]
  {
    if d != [] {
      assert k !in Keys(d[1..]) by {
        assert forall j :: 0 <= j < |d| - 1 ==> Keys(d[1..])[j] == Keys(d)[j + 1];
      }
      SetNewKey(d[1..], k, v);
      assert d == [d[0]] + d[1..];
    }
  }

  /** Assigning a present key replaces its value where it stands and keeps
      every other entry. */
  lemma {:induction false} SetExistingKey<K, V>(d: Dict<K, V>, k: K, v: V)
    requires DistinctKeys(d) && k in Keys(d)
    ensures |Set(d, k, v)| == |d| && Keys(Set(d, k, v)) == Keys(d)
    ensures forall i :: 0 <= i < |d| ==> Set(d, k, v)[i] == (if d[i].0 == k then (k, v) else d[i])
  {
    if d[0].0 != k {
      assert k in Keys(d[1..]) by {
        var j :| 0 <= j < |d| && Keys(d)[j] == k;
        assert Keys(d[1..])[j - 1] == k;
      }
      SetExistingKey(d[1..], k, v);
    }
  }

  /** Assignment keeps the keys distinct and adds exactly `k` to them. */
  lemma SetKeys<K, V>(d: Dict<K, V>, k: K, v: V)
    requires DistinctKeys(d)
    ensures DistinctKeys(Set(d, k, v))
    ensures forall x :: x in Keys(Set(d, k, v)) <==> x in Keys(d) || x == k
  {
    if k in Keys(d) {
      SetExistingKey(d, k, v);
    } else {
      SetNewKey(d, k, v);
      assert Keys(Set(d, k, v)) == Keys(d) + [k];
    }
  }
}
