/** Running totals over accounts: balances, data sizes and the lattice hash. Together they form an abelian group. */
module Totals {
  import opened Types
  import S = Sums

  const LANES: nat := 1024
  const LANE_SIZE: nat := 65536

  /** A lattice hash: 1024 lanes of 16 bits, mixed lane by lane with wrap-around. */
  type Hash = h: seq<nat> | |h| == LANES && forall i: nat :: i < LANES ==> h[i] < LANE_SIZE
    witness seq(LANES, _ => 0)

  function Identity(): Hash {
    seq(LANES, _ => 0)
  }

  function MixIn(a: Hash, b: Hash): Hash {
    seq(LANES, i requires 0 <= i < LANES => (a[i] + b[i]) % LANE_SIZE)
  }

  function MixOut(a: Hash, b: Hash): Hash {
    seq(LANES, i requires 0 <= i < LANES => (a[i] - b[i]) % LANE_SIZE)
  }

  datatype Total = Total(capitalization: int, dataLen: int, hash: Hash)

  function Zero(): Total {
    Total(0, 0, Identity())
  }

  function Add(a: Total, b: Total): Total {
    Total(a.capitalization + b.capitalization, a.dataLen + b.dataLen, MixIn(a.hash, b.hash))
  }

  function Sub(a: Total, b: Total): Total {
    Total(a.capitalization - b.capitalization, a.dataLen - b.dataLen, MixOut(a.hash, b.hash))
  }

  lemma AddZero(a: Total)
    ensures Add(a, Zero()) == a && Add(Zero(), a) == a
  {
    assert MixIn(a.hash, Identity()) == a.hash;
    assert MixIn(Identity(), a.hash) == a.hash;
  }

  lemma AddCommutes(a: Total, b: Total)
    ensures Add(a, b) == Add(b, a)
  {
    assert MixIn(a.hash, b.hash) == MixIn(b.hash, a.hash);
  }

  lemma AddAssociates(a: Total, b: Total, c: Total)
    ensures Add(Add(a, b), c) == Add(a, Add(b, c))
  {
    assert MixIn(MixIn(a.hash, b.hash), c.hash) == MixIn(a.hash, MixIn(b.hash, c.hash));
  }

  lemma SubUndoesAdd(a: Total, b: Total)
    ensures Sub(Add(a, b), b) == a
  {
    assert MixOut(MixIn(a.hash, b.hash), b.hash) == a.hash;
  }

  /** The total of a finite map, added in any order. */
  ghost function Sum(m: map<nat, Total>): Total
    decreases |m|
  {
    if m == map[] then Zero() else var k :| k in m; Add(Sum(m - {k}), m[k])
  }

  lemma {:induction false} SumTake(m: map<nat, Total>, k: nat)
    requires k in m
    ensures Sum(m) == Add(Sum(m - {k}), m[k])
    decreases |m|
  {
    hide Add, Zero;
    var j :| j in m && Sum(m) == Add(Sum(m - {j}), m[j]);
    if j != k {
      SumTake(m - {j}, k);
      SumTake(m - {k}, j);
      assert m - {j} - {k} == m - {k} - {j};
      SwapLast(Sum(m - {j} - {k}), m[k], m[j]);
    }
  }

  lemma SwapLast(a: Total, b: Total, c: Total)
    ensures Add(Add(a, b), c) == Add(Add(a, c), b)
  {
    hide Add;
    AddAssociates(a, b, c);
    AddCommutes(b, c);
    AddAssociates(a, c, b);
  }

  lemma SumPut(m: map<nat, Total>, k: nat, v: Total)
    ensures Sum(m[k := v]) == Add(Sum(m - {k}), v)
  {
    hide Add, Zero, Sum;
    SumTake(m[k := v], k);
    assert m[k := v] - {k} == m - {k};
  }

  lemma {:induction false} SumIsNat(m: map<nat, Total>)
    requires forall k :: k in m ==> 0 <= m[k].capitalization && 0 <= m[k].dataLen
    ensures 0 <= Sum(m).capitalization && 0 <= Sum(m).dataLen
    decreases |m|
  {
    if m != map[] {
      var k :| k in m;
      SumTake(m, k);
      SumIsNat(m - {k});
    }
  }

  // ---------- what a sum of totals holds ----------

  function Balances(m: map<nat, Total>): map<nat, int> {
    map k | k in m :: m[k].capitalization
  }

  function Lengths(m: map<nat, Total>): map<nat, int> {
    map k | k in m :: m[k].dataLen
  }

  function Lane(m: map<nat, Total>, i: nat): map<nat, int>
    requires i < LANES
  {
    map k | k in m :: m[k].hash[i]
  }

  lemma {:induction false} SumBalances(m: map<nat, Total>)
    ensures Sum(m).capitalization == S.Sum(Balances(m)) && Sum(m).dataLen == S.Sum(Lengths(m))
    decreases |m|
  {
    hide MixIn, Identity;
    if m != map[] {
      var k :| k in m;
      SumTake(m, k);
      SumBalances(m - {k});
      S.SumTake(Balances(m), k);
      S.SumTake(Lengths(m), k);
      assert Balances(m) - {k} == Balances(m - {k}) && Lengths(m) - {k} == Lengths(m - {k});
    } else {
      assert Balances(m) == map[] && Lengths(m) == map[];
    }
  }

  lemma AddLane(a: Total, b: Total, i: nat, x: int)
    requires i < LANES && a.hash[i] == x % LANE_SIZE
    ensures Add(a, b).hash[i] == (x + b.hash[i]) % LANE_SIZE
  {
  }

  lemma NoLane(m: map<nat, Total>, i: nat)
    requires i < LANES && m == map[]
    ensures Sum(m).hash[i] == 0 == S.Sum(Lane(m, i))
  {
    assert Lane(m, i) == map[];
  }

  lemma LaneWithout(m: map<nat, Total>, i: nat, k: nat)
    requires i < LANES && k in m
    ensures S.Sum(Lane(m, i)) == S.Sum(Lane(m - {k}, i)) + m[k].hash[i]
  {
    hide S.Sum;
    S.SumTake(Lane(m, i), k);
    assert Lane(m, i) - {k} == Lane(m - {k}, i);
  }

  /** Each lane of the hashes is added up, with wrap-around. */
  lemma {:induction false} SumLane(m: map<nat, Total>, i: nat)
    requires i < LANES
    ensures Sum(m).hash[i] == S.Sum(Lane(m, i)) % LANE_SIZE
    decreases |m|
  {
    hide Add, Sum, S.Sum, Lane;
    if m != map[] {
      var k :| k in m;
      SumTake(m, k);
      SumLane(m - {k}, i);
      LaneWithout(m, i, k);
      AddLane(Sum(m - {k}), m[k], i, S.Sum(Lane(m - {k}, i)));
    } else {
      NoLane(m, i);
    }
  }
}
