/**
 * A Python `dict` keyed by note label. Python dicts iterate in the order in which keys
 * were FIRST inserted; assigning to an existing key changes its value but not its place.
 * The note matcher's tie-breaking depends on that order, so the model keeps it.
 */
module FreqDict {

  datatype Dict<V> = Dict(keys: seq<string>, values: map<string, V>) {

    /**
     * The order lists exactly the keys of the map, each once: as many entries as keys.
     * `KeysDistinct` derives that no key occurs twice.
     */
    ghost predicate Valid() {
      && |keys| == |values|
      && (forall k :: k in values <==> k in keys)
    }

    /** `d[k] = v`. */
    function Put(k: string, v: V): (d: Dict<V>)
      ensures d.values == values[k := v]
      ensures k in values ==> d.keys == keys
      ensures k !in values ==> d.keys == keys + [k]
    {
      if k in values then Dict(keys, values[k := v]) else Dict(keys + [k], values[k := v])
    }

    /** `d.items()`: the (key, value) pairs in iteration order. */
    function Items(): (items: seq<(string, V)>)
      requires Valid()
      ensures |items| == |keys|
      ensures forall i :: 0 <= i < |items| ==> items[i].0 == keys[i] && items[i].1 == values[keys[i]]
    {
      seq(|keys|, i requires 0 <= i < |keys| => (keys[i], values[keys[i]]))
    }
  }

  /** In a valid dict no key occurs twice in the order. */
  lemma KeysDistinct<V>(d: Dict<V>, i: nat, j: nat)
    requires d.Valid() && i < j < |d.keys|
    ensures d.keys[i] != d.keys[j]
  {
    if d.keys[i] == d.keys[j] {
      assert d.values.Keys == Elements(d.keys);
      RepeatShrinks(d.keys, i, j);
      assert false;
    }
  }

  /** The set of elements of a sequence. */
  ghost function Elements(s: seq<string>): set<string> {
    set x | x in s
  }

  lemma {:induction false} ElementsBound(s: seq<string>)
    ensures |Elements(s)| <= |s|
  {
    if s != [] {
      var init := s[..|s| - 1];
      ElementsBound(init);
      assert Elements(s) == Elements(init) + {s[|s| - 1]};
    }
  }

  /** A sequence with a repeated element has fewer elements than positions. */
  lemma {:induction false} RepeatShrinks(s: seq<string>, i: nat, j: nat)
    requires i < j < |s| && s[i] == s[j]
    ensures |Elements(s)| < |s|
  {
    var init := s[..|s| - 1];
    assert Elements(s) == Elements(init) + {s[|s| - 1]};
    if j < |s| - 1 {
      RepeatShrinks(init, i, j);
    } else {
      ElementsBound(init);
      assert s[|s| - 1] == init[i];
    }
  }

  /** `d[k] = v` keeps the dict well formed: a new key is appended once, an old one stays in place. */
  lemma PutKeepsValid<V>(d: Dict<V>, k: string, v: V)
    requires d.Valid()
    ensures d.Put(k, v).Valid()
  {
  }

  /** `{}` */
  function Empty<V>(): (d: Dict<V>)
    ensures d.Valid() && d.keys == [] && d.values == map[]
  {
    Dict([], map[])
  }
}
