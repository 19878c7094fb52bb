/**
 * Python's `dict` as the redirect handler uses it: a map that remembers
 * the order in which its keys were first inserted. Assigning to a key that
 * is already present replaces its value and leaves its position alone.
 */
module OrderedMap {

  datatype OMap<K(!new), V> = OMap(keys: seq<K>, entries: map<K, V>) {

    /** The keys are listed once each, and they are exactly the keys of
        the map. */
    ghost predicate Valid() {
      && (forall i, j :: 0 <= i < j < |keys| ==> keys[i] != keys[j])
      && (forall k :: k in entries <==> k in keys)
    }

    /** `d[k] = v`. */
    function Put(k: K, v: V): (r: OMap<K, V>)
      requires Valid()
      ensures r.Valid()
      ensures r.entries == entries[k := v]
      ensures k in entries ==> r.keys == keys
      ensures k !in entries ==> r.keys == keys + [k]
    {
      if k in entries then OMap(keys, entries[k := v]) else OMap(keys + [k], entries[k := v])
    }

    /** `d.items()`: the pairs in insertion order. */
    function Items(): (r: seq<(K, V)>)
      requires Valid()
      ensures |r| == |keys|
      ensures forall i :: 0 <= i < |r| ==> r[i].0 == keys[i] && keys[i] in entries && r[i].1 == entries[keys[i]]
    {
      seq(|keys|, i requires 0 <= i < |keys| => (keys[i], entries[keys[i]]))
    }
  }

  /** `{}`. */
  function Empty<K(!new), V>(): (r: OMap<K, V>)
    ensures r.Valid() && r.keys == [] && r.entries == map[]
  {
    OMap([], map[])
  }
}
