/** Adding up the values of a finite map, in any order. */
module Sums {
  ghost function Sum(m: map<nat, int>): int
    decreases |m|
  {
    if m == map[] then 0 else var k :| k in m; m[k] + Sum(m - {k})
  }

  /** Any key may be the one added first. */
  lemma {:induction false} SumTake(m: map<nat, int>, k: nat)
    requires k in m
    ensures Sum(m) == m[k] + Sum(m - {k})
    decreases |m|
  {
    var j :| j in m && Sum(m) == m[j] + Sum(m - {j});
    if j != k {
      SumTake(m - {j}, k);
      SumTake(m - {k}, j);
      assert m - {j} - {k} == m - {k} - {j};
    }
  }

  lemma SumPut(m: map<nat, int>, k: nat, v: int)
    ensures Sum(m[k := v]) == v + Sum(m - {k})
  {
    SumTake(m[k := v], k);
    assert m[k := v] - {k} == m - {k};
  }

  lemma SumMissing(m: map<nat, int>, k: nat)
    requires k !in m
    ensures m - {k} == m
  {
  }

  lemma {:induction false} SumIsNat(m: map<nat, int>)
    requires forall k :: k in m ==> 0 <= m[k]
    ensures 0 <= Sum(m)
    decreases |m|
  {
    if m != map[] {
      var k :| k in m;
      SumTake(m, k);
      SumIsNat(m - {k});
    }
  }

  lemma {:induction false} SumOfPairs(a: map<nat, int>, b: map<nat, int>, c: map<nat, int>)
    requires a.Keys == b.Keys == c.Keys && forall k :: k in c ==> c[k] == a[k] + b[k]
    ensures Sum(c) == Sum(a) + Sum(b)
    decreases |c|
  {
    if c != map[] {
      var k :| k in c;
      SumOfPairs(a - {k}, b - {k}, c - {k});
      SumTake(a, k);
      SumTake(b, k);
      SumTake(c, k);
    } else {
      assert a == map[] && b == map[];
    }
  }

  /** Keys whose value is zero may be left out. */
  lemma {:induction false} SumDropsZeroes(m: map<nat, int>, keys: set<nat>)
    requires forall k :: k in keys && k in m ==> m[k] == 0
    ensures Sum(m - keys) == Sum(m)
    decreases |m|
  {
    if k :| k in m {
      SumDropsZeroes(m - {k}, keys);
      SumTake(m, k);
      if k in keys {
        assert m - {k} - keys == m - keys;
      } else {
        SumTake(m - keys, k);
        assert m - keys - {k} == m - {k} - keys;
      }
    }
  }
}
