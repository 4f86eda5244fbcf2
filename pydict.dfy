/**
 * A Python dictionary with string keys: a map together with the order in
 * which its keys were first inserted. Assigning to a key that is already
 * present changes its value and keeps its position; a new key goes last.
 * Iteration (`items()`, `values()`) follows that order.
 */
module PyDict {
  import opened Seqs

  datatype Dict<V> = Dict(keys: seq<string>, items: map<string, V>)
  {
    ghost predicate Valid()
    {
      Distinct(keys) && forall k :: k in items <==> k in keys
    }

    /** `d[k] = v`. */
    function Set(k: string, v: V): (d: Dict<V>)
      requires Valid()
      ensures d.Valid()
      ensures d.items == items[k := v]
      ensures d.keys == if k in items then keys else keys + [k]
    {
      if k in items then Dict(keys, items[k := v])
      else
        assert forall i :: 0 <= i < |keys| ==> (keys + [k])[i] == keys[i];
        Dict(keys + [k], items[k := v])
    }

    /** An assignment never moves the keys already present: they stay a prefix, in order. */
    lemma SetPrefix(k: string, v: V)
      requires Valid()
      ensures |keys| <= |Set(k, v).keys| && Set(k, v).keys[..|keys|] == keys
    {
      assert (keys + [k])[..|keys|] == keys;
    }

    /** Assigning to a key twice leaves only the second value, in the first assignment's position. */
    lemma SetTwice(k: string, v: V, w: V)
      requires Valid()
      ensures Set(k, v).Set(k, w) == Set(k, w)
    {
    }

    /** `list(d.items())`: the pairs in key order. */
    function Entries(): (es: seq<(string, V)>)
      requires Valid()
      ensures |es| == |keys|
      ensures forall i :: 0 <= i < |keys| ==> es[i] == (keys[i], items[keys[i]])
    {
      EntriesOf(keys, items)
    }
  }

  function EntriesOf<V>(ks: seq<string>, m: map<string, V>): (es: seq<(string, V)>)
    requires forall k :: k in ks ==> k in m
    ensures |es| == |ks|
    ensures forall i :: 0 <= i < |ks| ==> es[i] == (ks[i], m[ks[i]])
  {
    if ks == [] then [] else EntriesOf(ks[..|ks| - 1], m) + [(ks[|ks| - 1], m[ks[|ks| - 1]])]
  }

  /** `{}`. */
  function Empty<V>(): (d: Dict<V>)
    ensures d.Valid() && d.keys == [] && d.items == map[]
  {
    Dict([], map[])
  }
}
