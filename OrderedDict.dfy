/** A Python `dict`: a key-value mapping that also remembers the order in
    which keys were first inserted (iteration follows that order). */
module OrderedDict {

  datatype Dict<K(==), V> = Dict(keys: seq<K>, items: map<K, V>) {

    /** The keys are distinct and are exactly the mapped keys. */
    ghost predicate Valid() {
      && (forall i, j :: 0 <= i < j < |keys| ==> keys[i] != keys[j])
      && (forall k :: k in items ==> k in keys)
      && (forall i :: 0 <= i < |keys| ==> keys[i] in items)
    }

    /** `d[k] = v`: a new key goes to the end, an existing key keeps its place
        and only its value changes. */
    function Put(k: K, v: V): (d: Dict<K, V>)
      requires Valid()
      ensures d.Valid()
      ensures d.items == items[k := v]
      ensures k in items ==> d.keys == keys
      ensures k !in items ==> d.keys == keys + [k]
    {
      if k in items then Dict(keys, items[k := v]) else Dict(keys + [k], items[k := v])
    }

    /** `d.get(k, default)` */
    function GetOr(k: K, default: V): (v: V)
      ensures k in items ==> v == items[k]
      ensures k !in items ==> v == default
    {
      if k in items then items[k] else default
    }
  }

  function Empty<K(==), V>(): (d: Dict<K, V>)
    ensures d.Valid() && d.keys == [] && d.items == map[]
  {
    Dict([], map[])
  }
}
