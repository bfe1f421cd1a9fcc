/** Netting one split against the opposite direction of a debt map: the
    plain-map form of the update, its frame and the facts the ledger's
    proofs rest on, and the same update applied to an insertion-ordered
    map. */
module Netting {
  import JsMap

  /** `map.get(k) || 0`. */
  function Get<K>(m: map<K, real>, k: K): real
  {
    if k in m then m[k] else 0.0
  }

  ghost predicate NonNegativeValues<K>(m: map<K, real>)
  {
    forall k :: k in m ==> m[k] >= 0.0
  }

  /** One split of `share` owed along `key`, netted against `reverseKey`,
      on the stored amounts: when the reverse debt exceeds the share it
      shrinks, otherwise the reverse entry is cleared and the remainder is
      added along `key`. */
  function Netted<K>(m: map<K, real>, key: K, reverseKey: K, share: real): map<K, real>
  {
    if Get(m, reverseKey) > share then m[reverseKey := Get(m, reverseKey) - share]
    else m[key := Get(m, key) + share - Get(m, reverseKey)] - {reverseKey}
  }

  /** Netting touches only the two keys of the pair. */
  lemma NettedFrame<K>(m: map<K, real>, key: K, reverseKey: K, share: real)
    ensures forall k :: k != key && k != reverseKey ==>
              (k in Netted(m, key, reverseKey, share) <==> k in m) && Get(Netted(m, key, reverseKey, share), k) == Get(m, k)
  {
  }

  /** Netting adds the share to the difference between the two directions. */
  lemma NettedDifference<K>(m: map<K, real>, key: K, reverseKey: K, share: real)
    requires key != reverseKey
    ensures var r := Netted(m, key, reverseKey, share);
            Get(r, key) - Get(r, reverseKey) == Get(m, key) - Get(m, reverseKey) + share
  {
  }

  /** A non-negative share keeps every amount non-negative. */
  lemma NettedNonNegative<K>(m: map<K, real>, key: K, reverseKey: K, share: real)
    requires share >= 0.0 && NonNegativeValues(m)
    ensures NonNegativeValues(Netted(m, key, reverseKey, share))
  {
  }

  /** A non-negative share never leaves both directions stored. */
  lemma NettedOneDirection<K>(m: map<K, real>, key: K, reverseKey: K, share: real)
    requires share >= 0.0 && key != reverseKey && !(key in m && reverseKey in m)
    ensures var r := Netted(m, key, reverseKey, share);
            !(key in r && reverseKey in r)
  {
  }

  /** The same split on the map itself (`balanceMap.set` / `.delete`). */
  function ApplySplit<K(==, !new)>(m: JsMap.OrderedMap<K, real>, key: K, reverseKey: K, share: real)
    : JsMap.OrderedMap<K, real>
  {
    if Get(m.values, reverseKey) > share then JsMap.Set(m, reverseKey, Get(m.values, reverseKey) - share)
    else JsMap.Delete(JsMap.Set(m, key, Get(m.values, key) + share - Get(m.values, reverseKey)), reverseKey)
  }

  /** The split keeps the map well formed. */
  lemma ApplySplitValid<K(!new)>(m: JsMap.OrderedMap<K, real>, key: K, reverseKey: K, share: real)
    requires JsMap.Valid(m)
    ensures JsMap.Valid(ApplySplit(m, key, reverseKey, share))
  {
  }

  /** The map's stored amounts after the split are the netted amounts. */
  lemma ApplySplitNets<K(!new)>(m: JsMap.OrderedMap<K, real>, key: K, reverseKey: K, share: real)
    ensures ApplySplit(m, key, reverseKey, share).values == Netted(m.values, key, reverseKey, share)
  {
    if Get(m.values, reverseKey) > share {
      ShrinkNets(m, key, reverseKey, share);
    } else {
      ClearNets(m, key, reverseKey, share);
    }
  }

  lemma ShrinkNets<K(!new)>(m: JsMap.OrderedMap<K, real>, key: K, reverseKey: K, share: real)
    requires Get(m.values, reverseKey) > share
    ensures ApplySplit(m, key, reverseKey, share).values == Netted(m.values, key, reverseKey, share)
  {
  }

  lemma ClearNets<K(!new)>(m: JsMap.OrderedMap<K, real>, key: K, reverseKey: K, share: real)
    requires Get(m.values, reverseKey) <= share
    ensures ApplySplit(m, key, reverseKey, share).values == Netted(m.values, key, reverseKey, share)
  {
  }

  /** The first split into an empty map stores just its share. */
  lemma SplitIntoEmpty<K(!new)>(key: K, reverseKey: K, share: real)
    requires key != reverseKey && share >= 0.0
    ensures ApplySplit(JsMap.Empty(), key, reverseKey, share) == JsMap.OrderedMap([key], map[key := share])
  {
    var added := JsMap.Set(JsMap.Empty(), key, share);
    assert added == JsMap.OrderedMap([key], map[key := share]);
    assert ApplySplit(JsMap.Empty(), key, reverseKey, share) == JsMap.Delete(added, reverseKey);
    assert [key][..0] == [];
    assert JsMap.Without([key], reverseKey) == [key];
    RemoveAbsent(map[key := share], reverseKey);
  }

  lemma RemoveAbsent<K, V>(m: map<K, V>, x: K)
    requires x !in m
    ensures m - {x} == m
  {
  }
}
