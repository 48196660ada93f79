/**
 * A Python dict keyed by strings: a map from keys to values together with the
 * order in which the keys were first inserted, which is the order iteration
 * (dict.items()) follows. Assigning to a present key keeps its position;
 * deleting a key keeps the order of the others.
 */
module Dicts {
  import opened Wrappers

  datatype Dict<V> = Dict(keys: seq<string>, values: map<string, V>)
  {
    /** The keys are listed once each, and exactly the keys of the map are listed. */
    ghost predicate Valid() {
      && (forall i, j :: 0 <= i < j < |keys| ==> keys[i] != keys[j])
      && (forall k :: k in values <==> k in keys)
    }
  }

  /** {} */
  function Empty<V>(): (d: Dict<V>)
    ensures d.Valid() && d.values == map[] && d.keys == []
  {
    Dict([], map[])
  }

  /** d.get(k) */
  function Get<V>(d: Dict<V>, k: string): (r: Option<V>)
    ensures r.Some? <==> k in d.values
    ensures r.Some? ==> r.value == d.values[k]
  {
    if k in d.values then Some(d.values[k]) else None
  }

  /** d[k] = v: a present key keeps its place in the order, a new key goes last. */
  function Put<V>(d: Dict<V>, k: string, v: V): (r: Dict<V>)
    requires d.Valid()
    ensures r.Valid()
    ensures r.values == d.values[k := v]
    ensures r.keys == if k in d.values then d.keys else d.keys + [k]
  {
    if k in d.values then Dict(d.keys, d.values[k := v]) else Dict(d.keys + [k], d.values[k := v])
  }

  /** Position of `k` among the keys of `d`. */
  function IndexOf(keys: seq<string>, k: string): (i: nat)
    requires k in keys
    ensures i < |keys| && keys[i] == k
    ensures forall j :: 0 <= j < i ==> keys[j] != k
  {
    if keys[0] == k then 0 else 1 + IndexOf(keys[1..], k)
  }

  /** Dropping the entry at `i` from a list of distinct keys leaves distinct keys: all but keys[i]. */
  lemma RemoveAt(keys: seq<string>, i: nat)
    requires i < |keys|
    requires forall a, b :: 0 <= a < b < |keys| ==> keys[a] != keys[b]
    ensures var r := keys[..i] + keys[i + 1..];
      && (forall a, b :: 0 <= a < b < |r| ==> r[a] != r[b])
      && (forall x :: x in r <==> x in keys && x != keys[i])
  {
    var r := keys[..i] + keys[i + 1..];
    assert forall j :: 0 <= j < |r| ==> r[j] == keys[if j < i then j else j + 1];
    forall x | x in keys && x != keys[i] ensures x in r {
      var j :| 0 <= j < |keys| && keys[j] == x;
      if j < i { assert r[j] == x; } else { assert r[j - 1] == x; }
    }
  }

  /** del d[k] when k is present (a no-op otherwise): the other keys keep their order. */
  function Remove<V>(d: Dict<V>, k: string): (r: Dict<V>)
    requires d.Valid()
    ensures r.Valid()
    ensures r.values == d.values - {k}
    ensures k !in d.values ==> r == d
    ensures k in d.values ==> r.keys == d.keys[..IndexOf(d.keys, k)] + d.keys[IndexOf(d.keys, k) + 1..]
  {
    if k in d.values then
      var i := IndexOf(d.keys, k);
      RemoveAt(d.keys, i);
      Dict(d.keys[..i] + d.keys[i + 1..], d.values - {k})
    else
      d
  }

  /** The entries in iteration order, as dict.items() lists them. */
  function Items<V>(d: Dict<V>): (r: seq<(string, V)>)
    requires d.Valid()
    ensures |r| == |d.keys|
    ensures forall i :: 0 <= i < |r| ==> r[i].0 == d.keys[i] && r[i].1 == d.values[d.keys[i]]
  {
    seq(|d.keys|, i requires 0 <= i < |d.keys| => (d.keys[i], d.values[d.keys[i]]))
  }

  /** A dict is falsy exactly when it has no entries, however its keys are looked at. */
  lemma EmptyIff<V>(d: Dict<V>)
    requires d.Valid()
    ensures |d.keys| == 0 <==> d.values == map[]
  {
    if |d.keys| > 0 {
      assert d.keys[0] in d.values;
    }
  }

  /** After d[k] = v, d.get(k) is v and every other key reads as before. */
  lemma GetPut<V>(d: Dict<V>, k: string, v: V, other: string)
    requires d.Valid()
    ensures Get(Put(d, k, v), k) == Some(v)
    ensures other != k ==> Get(Put(d, k, v), other) == Get(d, other)
  {
  }

  /** Assigning twice to the same key is assigning the second value: the key keeps the place the
      first assignment gave it. */
  lemma PutPut<V>(d: Dict<V>, k: string, v: V, w: V)
    requires d.Valid()
    ensures Put(Put(d, k, v), k, w) == Put(d, k, w)
  {
  }

  /** After del d[k], d.get(k) is None and every other key reads as before. */
  lemma GetRemove<V>(d: Dict<V>, k: string, other: string)
    requires d.Valid()
    ensures Get(Remove(d, k), k) == None
    ensures other != k ==> Get(Remove(d, k), other) == Get(d, other)
  {
  }
}
