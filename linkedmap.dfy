/** java.util.LinkedHashMap with string keys: a mapping that remembers the order keys were first put. */
module LinkedMaps {

  datatype LinkedMap<V> = LinkedMap(keys: seq<string>, values: map<string, V>) {

    /** Every key once, in insertion order, and exactly the keys of the mapping. */
    ghost predicate Valid() {
      && (forall i, j :: 0 <= i < j < |keys| ==> keys[i] != keys[j])
      && (forall k :: k in values <==> k in keys)
    }

    /**
     * put(k, v): a new key goes to the end of the order; an existing key keeps its place and
     * only its value changes.
     */
    function Put(k: string, v: V): (r: LinkedMap<V>)
      requires Valid()
      ensures r.Valid()
      ensures r.values == values[k := v]
      ensures k in values ==> r.keys == keys
      ensures k !in values ==> r.keys == keys + [k]
    {
      if k in values then LinkedMap(keys, values[k := v]) else LinkedMap(keys + [k], values[k := v])
    }
  }

  function Empty<V>(): (r: LinkedMap<V>)
    ensures r.Valid() && r.keys == [] && r.values == map[]
  {
    LinkedMap([], map[])
  }
}
