/** Sums over a sequence, and over the values of a finite map, which do not depend on the order of adding. */
module MapSums {
  function SumNat(xs: seq<nat>): nat {
    if xs == [] then 0 else xs[0] + SumNat(xs[1..])
  }

  ghost function Sum<K(!new)>(m: map<K, int>): int {
    if m == map[] then 0
    else
      var k :| k in m;
      m[k] + Sum(m - {k})
  }

  lemma {:induction false} SumRemove<K(!new)>(m: map<K, int>, k: K)
    requires k in m
    ensures Sum(m) == m[k] + Sum(m - {k})
  {
    var j :| j in m && Sum(m) == m[j] + Sum(m - {j});
    if j != k {
      SumRemove(m - {j}, k);
      SumRemove(m - {k}, j);
      assert m - {j} - {k} == m - {k} - {j};
    }
  }

  lemma SumInsert<K(!new)>(m: map<K, int>, k: K, v: int)
    requires k !in m
    ensures Sum(m[k := v]) == Sum(m) + v
  {
    SumRemove(m[k := v], k);
    assert m[k := v] - {k} == m;
  }

  lemma SumUpdate<K(!new)>(m: map<K, int>, k: K, v: int)
    requires k in m
    ensures Sum(m[k := v]) == Sum(m) - m[k] + v
  {
    SumRemove(m[k := v], k);
    SumRemove(m, k);
    assert m[k := v] - {k} == m - {k};
  }

  lemma {:induction false} SumNonNegative<K(!new)>(m: map<K, int>)
    requires forall k :: k in m ==> m[k] >= 0
    ensures Sum(m) >= 0
    ensures forall k :: k in m ==> m[k] <= Sum(m)
  {
    if m != map[] {
      var j :| j in m && Sum(m) == m[j] + Sum(m - {j});
      SumNonNegative(m - {j});
      forall k | k in m ensures m[k] <= Sum(m) {
        if k != j { assert k in m - {j}; }
      }
    }
  }

  /** The sum of pointwise sums. */
  lemma {:induction false} SumAdd<K(!new)>(m: map<K, int>, a: map<K, int>, b: map<K, int>)
    requires m.Keys == a.Keys == b.Keys
    requires forall k :: k in m ==> m[k] == a[k] + b[k]
    ensures Sum(m) == Sum(a) + Sum(b)
  {
    if m != map[] {
      var j :| j in m;
      SumRemove(m, j);
      SumRemove(a, j);
      SumRemove(b, j);
      assert (m - {j}).Keys == m.Keys - {j} == (a - {j}).Keys == (b - {j}).Keys;
      SumAdd(m - {j}, a - {j}, b - {j});
    } else {
      assert a.Keys == {} && b.Keys == {};
      assert a == map[] && b == map[];
    }
  }
}
