/** Maps whose values are sets, as the source uses them: `m[k][v] = true` after creating a
    missing inner set, and `delete(m[k], v)` followed by deleting an inner set left empty. */
module Multimaps {

  predicate Has<K, V>(m: map<K, set<V>>, k: K, v: V)
  {
    k in m && v in m[k]
  }

  /** No key is left with an empty set. */
  ghost predicate Pruned<K, V>(m: map<K, set<V>>)
  {
    forall k :: k in m ==> m[k] != {}
  }

  function Get<K(!new), V(!new)>(m: map<K, set<V>>, k: K): (vs: set<V>)
    ensures forall v :: v in vs <==> Has(m, k, v)
  {
    if k in m then m[k] else {}
  }

  function Add<K(!new), V(!new)>(m: map<K, set<V>>, k: K, v: V): (r: map<K, set<V>>)
    ensures forall k', v' :: Has(r, k', v') <==> Has(m, k', v') || (k' == k && v' == v)
    ensures Pruned(m) ==> Pruned(r)
  {
    m[k := Get(m, k) + {v}]
  }

  function Remove<K(!new), V(!new)>(m: map<K, set<V>>, k: K, v: V): (r: map<K, set<V>>)
    ensures forall k', v' :: Has(r, k', v') <==> Has(m, k', v') && !(k' == k && v' == v)
    ensures Pruned(m) ==> Pruned(r)
  {
    if k !in m then m
    else if m[k] - {v} == {} then
      assert m[k] <= {v};
      m - {k}
    else m[k := m[k] - {v}]
  }

  function Forget<K(!new), V(!new)>(m: map<K, set<V>>, k: K): (r: map<K, set<V>>)
    ensures forall k', v' :: Has(r, k', v') <==> Has(m, k', v') && k' != k
    ensures Pruned(m) ==> Pruned(r)
  {
    m - {k}
  }

  function Without<K(==,!new), V(==,!new)>(pairs: set<(K, V)>, k: K): (rest: set<(K, V)>)
    ensures forall k', v :: (k', v) in rest <==> (k', v) in pairs && k' != k
  {
    set p | p in pairs && p.0 != k
  }

  /** `m` holds exactly `pairs`. */
  ghost predicate Exact<K(!new), V(!new)>(m: map<K, set<V>>, pairs: set<(K, V)>)
  {
    Pruned(m) && forall k, v :: Has(m, k, v) <==> (k, v) in pairs
  }

  /** `m` holds exactly `pairs`, indexed by their second component. */
  ghost predicate Inverse<K(!new), V(!new)>(m: map<V, set<K>>, pairs: set<(K, V)>)
  {
    Pruned(m) && forall k, v :: Has(m, v, k) <==> (k, v) in pairs
  }

  lemma ExactSteps<K(!new), V(!new)>(m: map<K, set<V>>, pairs: set<(K, V)>, k: K, v: V)
    requires Exact(m, pairs)
    ensures Exact(Add(m, k, v), pairs + {(k, v)})
    ensures Exact(Remove(m, k, v), pairs - {(k, v)})
    ensures Exact(Forget(m, k), Without(pairs, k))
  {
  }

  lemma InverseSteps<K(!new), V(!new)>(m: map<V, set<K>>, pairs: set<(K, V)>, k: K, v: V)
    requires Inverse(m, pairs)
    ensures Inverse(Add(m, v, k), pairs + {(k, v)})
    ensures Inverse(Remove(m, v, k), pairs - {(k, v)})
  {
  }

  /** A pruned multimap is determined by its pairs. */
  lemma PairsDetermine<K(!new), V(!new)>(m: map<K, set<V>>, n: map<K, set<V>>)
    requires Pruned(m) && Pruned(n)
    requires forall k, v :: Has(m, k, v) <==> Has(n, k, v)
    ensures m == n
  {
    forall k | k in m || k in n
      ensures k in m && k in n && m[k] == n[k]
    {
      var v :| if k in m then v in m[k] else v in n[k];
      assert Has(m, k, v) || Has(n, k, v);
      assert forall u :: u in m[k] <==> Has(m, k, u);
      assert forall u :: u in n[k] <==> Has(n, k, u);
    }
  }
}
