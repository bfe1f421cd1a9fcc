/** A JavaScript `Map`: a finite map whose entries iterate in the order their
    keys were first inserted. `set` on a key already present keeps its
    position; `delete` removes it, so a later `set` appends it again. */
module JsMap {

  datatype OrderedMap<K, V> = OrderedMap(keys: seq<K>, values: map<K, V>)

  /** No key twice, and the key list and the value map agree on the keys. */
  ghost predicate Valid<K(!new), V>(m: OrderedMap<K, V>)
  {
    && (forall i, j :: 0 <= i < j < |m.keys| ==> m.keys[i] != m.keys[j])
    && (forall k :: k in m.values <==> k in m.keys)
  }

  /** `new Map()`. */
  function Empty<K(!new), V>(): (m: OrderedMap<K, V>)
    ensures Valid(m)
    ensures m.values == map[]
  {
    OrderedMap([], map[])
  }

  /** `m.set(k, v)`. */
  function Set<K(==, !new), V>(m: OrderedMap<K, V>, k: K, v: V): (r: OrderedMap<K, V>)
    ensures Valid(m) ==> Valid(r)
    ensures r.values == m.values[k := v]
    ensures k in m.values ==> r.keys == m.keys
    ensures k !in m.values ==> r.keys == m.keys + [k]
  {
    if k in m.values then OrderedMap(m.keys, m.values[k := v])
    else OrderedMap(m.keys + [k], m.values[k := v])
  }

  /** `keys` without any occurrence of `k`, order kept. */
  function Without<K(==, !new)>(keys: seq<K>, k: K): (r: seq<K>)
    ensures forall x :: x in r <==> x in keys && x != k
    ensures (forall i, j :: 0 <= i < j < |keys| ==> keys[i] != keys[j]) ==>
              (forall i, j :: 0 <= i < j < |r| ==> r[i] != r[j])
  {
    if |keys| == 0 then []
    else
      var rest := Without(keys[..|keys| - 1], k);
      var last := keys[|keys| - 1];
      assert forall x :: x in keys <==> x in keys[..|keys| - 1] || x == last;
      if last == k then rest
      else
        assert (forall i, j :: 0 <= i < j < |keys| ==> keys[i] != keys[j]) ==> last !in keys[..|keys| - 1];
        rest + [last]
  }

  /** `m.delete(k)`. */
  function Delete<K(==, !new), V>(m: OrderedMap<K, V>, k: K): (r: OrderedMap<K, V>)
    ensures Valid(m) ==> Valid(r)
    ensures r.values == m.values - {k}
  {
    OrderedMap(Without(m.keys, k), m.values - {k})
  }
}
