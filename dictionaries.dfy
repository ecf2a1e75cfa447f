/**
  A hash dictionary as the controls use it: entries are only ever added or
  overwritten, never removed, so enumeration visits keys in the order they
  were first added. `keys` records that order, `vals` the mapping.
*/
module Dictionaries {

  datatype Dict<K, V> = Dict(keys: seq<K>, vals: map<K, V>) {

    /** Every key is enumerated exactly once, and only keys are enumerated. */
    ghost predicate Valid() {
      (forall i, j :: 0 <= i < j < |keys| ==> keys[i] != keys[j]) &&
      (forall i :: 0 <= i < |keys| ==> keys[i] in vals) &&
      (forall k :: k in vals ==> k in keys)
    }

    /**
      `d[k] = v` when `d` contains `k`, `d.Add(k, v)` otherwise: the value
      is overwritten in place, or a new key is enumerated last.
    */
    function Put(k: K, v: V): (d: Dict<K, V>)
      ensures d.vals == vals[k := v]
      ensures Valid() ==> d.Valid()
      ensures k in vals ==> d.keys == keys
      ensures k !in vals ==> d.keys == keys + [k]
    {
      if k in vals then Dict(keys, vals[k := v]) else Dict(keys + [k], vals[k := v])
    }

    /** The values in enumeration order. */
    function Values(): (s: seq<V>)
      requires Valid()
      ensures |s| == |keys|
      ensures forall i :: 0 <= i < |keys| ==> s[i] == vals[keys[i]]
    {
      ValuesOf(keys, vals)
    }
  }

  /** An empty dictionary, as `new Dictionary<K, V>()` makes. */
  function Empty<K, V>(): (d: Dict<K, V>)
    ensures d.Valid() && d.vals == map[] && d.keys == []
  {
    Dict([], map[])
  }

  function ValuesOf<K, V>(keys: seq<K>, vals: map<K, V>): (s: seq<V>)
    requires forall k :: k in keys ==> k in vals
    ensures |s| == |keys|
    ensures forall i :: 0 <= i < |keys| ==> s[i] == vals[keys[i]]
  {
    if keys == [] then [] else ValuesOf(keys[..|keys| - 1], vals) + [vals[keys[|keys| - 1]]]
  }

  /** Adding a new key enumerates its value last and leaves the others as they were. */
  lemma PutAbsentValues<K, V>(d: Dict<K, V>, k: K, v: V)
    requires d.Valid() && k !in d.vals
    ensures d.Put(k, v).Values() == d.Values() + [v]
  {
    var s, t := d.Put(k, v).Values(), d.Values() + [v];
    forall i | 0 <= i < |s| ensures s[i] == t[i] {
      if i < |d.keys| {
        assert d.keys[i] in d.vals;
      }
    }
  }

  /** Overwriting a key keeps the enumeration order and changes only that key's value. */
  lemma PutPresentValues<K, V>(d: Dict<K, V>, k: K, v: V, i: int)
    requires d.Valid() && k in d.vals && 0 <= i < |d.keys|
    ensures |d.Put(k, v).Values()| == |d.Values()|
    ensures d.Put(k, v).Values()[i] == if d.keys[i] == k then v else d.Values()[i]
  {
  }

  /** Storing the value a key already holds leaves the dictionary as it was. */
  lemma PutSameIsIdentity<K, V>(d: Dict<K, V>, k: K)
    requires k in d.vals
    ensures d.Put(k, d.vals[k]) == d
  {
    assert d.vals[k := d.vals[k]] == d.vals;
  }

  /** Writing the same value twice is the same as writing it once. */
  lemma PutIdempotent<K, V>(d: Dict<K, V>, k: K, v: V)
    ensures d.Put(k, v).Put(k, v) == d.Put(k, v)
  {
    PutSameIsIdentity(d.Put(k, v), k);
  }
}
