/** Per-node snapshots of one field, and the uniform update a walk over a
    subtree makes to them (setDiagram gives every visited node one diagram). */
module NodeMaps {

  /** `m` with every key listed in `order` mapped to `v`. */
  function Mark<K, V>(m: map<K, V>, order: seq<K>, v: V): (r: map<K, V>)
    ensures r.Keys == m.Keys
  {
    map k | k in m :: if k in order then v else m[k]
  }

  /** Marking a concatenated visit is marking its two parts in turn. */
  lemma MarkAppend<K, V>(m: map<K, V>, a: seq<K>, b: seq<K>, v: V)
    ensures Mark(Mark(m, a, v), b, v) == Mark(m, a + b, v)
  {
    assert forall k :: k in a + b <==> k in a || k in b;
  }
}
