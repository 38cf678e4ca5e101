/** Small facts about maps with one entry more or less. */
module Maps {

  lemma MapAdd<K, V>(m: map<K, V>, k: K, v: V)
    requires k !in m
    ensures m[k := v].Keys == m.Keys + {k} && |m[k := v]| == |m| + 1 && m[k := v] - {k} == m
  {
    assert m[k := v] - {k} == m;
    assert m[k := v].Keys == m.Keys + {k};
    assert |m[k := v]| == |m[k := v].Keys| && |m| == |m.Keys|;
  }

  lemma MapDrop<K, V>(m: map<K, V>, k: K)
    ensures (m - {k}).Keys == m.Keys - {k}
    ensures |m - {k}| == if k in m then |m| - 1 else |m|
    ensures k !in m ==> m - {k} == m
  {
    assert k !in m ==> m - {k} == m;
    assert (m - {k}).Keys == m.Keys - {k};
    assert |m - {k}| == |(m - {k}).Keys| && |m| == |m.Keys|;
  }
}
