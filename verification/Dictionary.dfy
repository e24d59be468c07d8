/** An insertion-ordered dictionary: its keys in order, and a table. */
module Dictionary {
  import opened Text

  datatype Dict<!K(==), V> = Dict(keys: seq<K>, table: map<K, V>) {
    ghost predicate Valid() {
      Distinct(keys) && Elements(keys) == table.Keys
    }

    /** Assignment: a new key goes to the end, a known key keeps its place. */
    function Put(k: K, v: V): (r: Dict<K, V>)
      requires Valid()
      ensures r.Valid() && r.table == table[k := v]
      ensures keys <= r.keys
    {
      if k in table then Dict(keys, table[k := v])
      else
        assert k !in keys by { assert k in keys ==> k in Elements(keys); }
        var r := Dict(keys + [k], table[k := v]);
        assert Elements(r.keys) == r.table.Keys;
        r
    }
  }

  function Empty<K, V>(): (r: Dict<K, V>)
    ensures r.Valid()
  {
    Dict([], map[])
  }
}
