/** Finite sets and maps. */
module Collections {
  import opened Ir

  lemma {:induction false} SubsetSize<T>(a: set<T>, b: set<T>)
    requires a <= b
    ensures |a| <= |b|
  {
    if a != {} {
      var x :| x in a;
      SubsetSize(a - {x}, b - {x});
    }
  }

  function Get<K, V>(m: map<K, V>, k: K): Option<V> { if k in m then Some(m[k]) else None }

  lemma GetPut<K, V>(m: map<K, V>, k: K, v: V, x: K)
    ensures Get(m[k := v], x) == if x == k then Some(v) else Get(m, x)
  {}
}
