/** `keymap(keys)`: `Object.fromEntries(keys.map(k => [k, k]))`, the identity
    map over a list of keys. */
module KeyMaps {
  import opened Seqs

  /** Entries are added in list order; a repeated key overwrites its earlier
      entry with the same value. */
  function Keymap<T>(keys: seq<T>): (m: map<T, T>)
    ensures m.Keys == Elems(keys)
    ensures forall k :: k in m ==> m[k] == k
  {
    if |keys| == 0 then map[]
    else
      var init := keys[..|keys| - 1];
      var last := keys[|keys| - 1];
      assert keys == init + [last];
      assert Elems(keys) == Elems(init) + {last};
      Keymap(init)[last := last]
  }

  /** The map agrees with the comprehension over the list's elements. */
  lemma KeymapIsIdentityOnElems<T>(keys: seq<T>)
    ensures Keymap(keys) == map k | k in keys :: k
  {
  }

  /** Repeated keys collapse: only the set of keys matters. */
  lemma {:induction false} KeymapDedup<T>(keys: seq<T>)
    ensures Keymap(Dedup(keys)) == Keymap(keys)
  {
    var a, b := Keymap(Dedup(keys)), Keymap(keys);
    assert a.Keys == b.Keys;
    assert forall k :: k in a ==> a[k] == b[k];
  }

  lemma KeymapEmpty<T>()
    ensures Keymap<T>([]) == map[]
  {
  }
}
