/** The language's `Map`: iteration follows first insertion, and setting a present key keeps its place. */
module InsertionMap {
  import opened Common

  datatype OMap<K(==), V> = OMap(order: seq<K>, at: map<K, V>) {

    ghost predicate Valid() {
      && Distinct(order)
      && (forall k :: k in order ==> k in at)
      && (forall k :: k in at ==> k in order)
    }

    function Set(k: K, v: V): OMap<K, V> {
      OMap(if k in at then order else order + [k], at[k := v])
    }

    function Get(k: K): Option<V> {
      if k in at then Some(at[k]) else None
    }

    /** The values in iteration order. */
    function Values(): (vs: seq<V>)
      requires Valid()
      ensures |vs| == |order| && forall i :: 0 <= i < |vs| ==> vs[i] == at[order[i]]
    {
      seq(|order|, i requires 0 <= i < |order| => assert order[i] in order; at[order[i]])
    }
  }

  function Empty<K(==), V>(): OMap<K, V> { OMap([], map[]) }

  lemma SetKeepsValid<K, V>(m: OMap<K, V>, k: K, v: V)
    requires m.Valid()
    ensures m.Set(k, v).Valid()
  {}

  /** Each key once, in order of first occurrence. */
  function FirstSeen<K(==)>(keys: seq<K>): seq<K> {
    if keys == [] then []
    else
      var init, last := keys[..|keys| - 1], keys[|keys| - 1];
      FirstSeen(init) + if last in init then [] else [last]
  }

  lemma {:induction false} FirstSeenMembers<K>(keys: seq<K>)
    ensures forall k :: k in FirstSeen(keys) <==> k in keys
  {
    if keys != [] {
      FirstSeenMembers(keys[..|keys| - 1]);
      assert keys == keys[..|keys| - 1] + [keys[|keys| - 1]];
    }
  }

  /** Setting the entry of one more key extends the order by that key if it is new. */
  lemma OneKeyMore<K, V>(m: OMap<K, V>, keys: seq<K>, k: K, v: V)
    requires m.Valid() && m.order == FirstSeen(keys)
    ensures m.Set(k, v).Valid() && m.Set(k, v).order == FirstSeen(keys + [k])
  {
    assert (keys + [k])[..|keys|] == keys;
    FirstSeenMembers(keys);
    SetKeepsValid(m, k, v);
    assert k in m.at <==> k in keys;
  }
}
