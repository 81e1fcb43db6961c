/** Laws of finite sets and maps. */
module SetLaws {
  lemma {:induction false} SubsetSize<T>(a: set<T>, b: set<T>)
    requires a <= b
    ensures |a| <= |b|
  {
    if a != {} {
      var x :| x in a;
      SubsetSize(a - {x}, b - {x});
    }
  }

  lemma UnionSize<T>(a: set<T>, b: set<T>)
    ensures |a + b| <= |a| + |b|
  {}

  lemma DisjointSize<T>(a: set<T>, b: set<T>)
    requires a !! b
    ensures |a + b| == |a| + |b|
  {}

  lemma NoKeys<K, V>(m: map<K, V>)
    ensures m == map[] <==> m.Keys == {}
  {}

  lemma MapAdd<K, V>(m: map<K, V>, k: K, v: V)
    ensures m[k := v].Keys == m.Keys + {k}
    ensures k !in m ==> |m[k := v].Keys| == |m.Keys| + 1
  {}

  lemma MapRemove<K, V>(m: map<K, V>, k: K)
    ensures (m - {k}).Keys == m.Keys - {k}
    ensures k in m ==> |(m - {k}).Keys| == |m.Keys| - 1
  {}
}
