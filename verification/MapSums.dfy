/**
 * A quantity added up over the values of a map, in no particular order.
 */
module MapSums {
  /** A quantity added up over every value. */
  ghost function Total<V>(m: map<string, V>, f: V -> int): int
    decreases |m|
  {
    if m == map[] then 0
    else
      var k :| k in m;
      f(m[k]) + Total(m - {k}, f)
  }

  lemma {:induction false} TotalWithout<V>(m: map<string, V>, f: V -> int, k: string)
    requires k in m
    ensures Total(m, f) == f(m[k]) + Total(m - {k}, f)
    decreases |m|
  {
    var j :| j in m && Total(m, f) == f(m[j]) + Total(m - {j}, f);
    if j != k {
      TotalWithout(m - {j}, f, k);
      TotalWithout(m - {k}, f, j);
      assert m - {j} - {k} == m - {k} - {j};
    }
  }

  lemma TotalUpdate<V>(m: map<string, V>, f: V -> int, k: string, s: V)
    ensures Total(m[k := s], f) == Total(m, f) + f(s) - if k in m then f(m[k]) else 0
  {
    TotalWithout(m[k := s], f, k);
    assert m[k := s] - {k} == m - {k};
    if k in m {
      TotalWithout(m, f, k);
    } else {
      assert m - {k} == m;
    }
  }

  lemma {:induction false} TotalAtMost<V>(m: map<string, V>, f: V -> int, hi: int)
    requires forall k :: k in m ==> f(m[k]) <= hi
    ensures Total(m, f) <= hi * |m|
    decreases |m|
  {
    if m != map[] {
      var k :| k in m;
      TotalWithout(m, f, k);
      TotalAtMost(m - {k}, f, hi);
      OneMore(hi, |m - {k}|);
      assert |m| == |m - {k}| + 1;
    }
  }

  lemma {:induction false} TotalAtLeast<V>(m: map<string, V>, f: V -> int, lo: int)
    requires forall k :: k in m ==> lo <= f(m[k])
    ensures lo * |m| <= Total(m, f)
    decreases |m|
  {
    if m != map[] {
      var k :| k in m;
      TotalWithout(m, f, k);
      TotalAtLeast(m - {k}, f, lo);
      OneMore(lo, |m - {k}|);
      assert |m| == |m - {k}| + 1;
    }
  }

  lemma OneMore(x: int, n: nat)
    ensures x * (n + 1) == x * n + x
  {
  }
}
