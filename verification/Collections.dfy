/** Sizes of sets and maps. */
module Collections {
  lemma SubsetSize<T>(a: set<T>, b: set<T>)
    requires a <= b
    ensures |a| <= |b|
  {
    assert b == a + (b - a);
  }

  lemma UpdateSize<K, V>(m: map<K, V>, key: K, v: V)
    ensures |m[key := v]| == if key in m then |m| else |m| + 1
  {
    assert m[key := v].Keys == m.Keys + {key};
    assert |m[key := v].Keys| == |m[key := v]| && |m.Keys| == |m|;
  }

  lemma RemoveSize<K, V>(m: map<K, V>, key: K)
    ensures |m - {key}| <= |m|
  {
    assert |(m - {key}).Keys| == |m - {key}| && |m.Keys| == |m|;
    SubsetSize((m - {key}).Keys, m.Keys);
  }
}
