/** The order in which storages are visited, and threads taking them one by one from a shared position. */
module StorageOrder {
  import opened Types

  // ---------- choosing from both ends of a range ----------

  /** The `nth` choice from a range of `len`, `startRate` from the start for every `endRate` from the end. */
  function Select(len: nat, nth: nat, startRate: nat, endRate: nat): int
    requires 0 < startRate + endRate
  {
    var cycle := startRate + endRate;
    var cycleIndex, cycleNum := nth % cycle, nth / cycle;
    if cycleIndex < startRate then
      cycleNum * startRate + cycleIndex
    else
      len - (cycleNum * endRate + cycleIndex - startRate) - 1
  }

  /** How many of the first `n` choices come from the start. */
  function FromStart(n: nat, startRate: nat, endRate: nat): (r: nat)
    requires 0 < startRate + endRate
    ensures r <= n
  {
    if n == 0 then 0
    else FromStart(n - 1, startRate, endRate) + (if (n - 1) % (startRate + endRate) < startRate then 1 else 0)
  }

  lemma MulNext(q: nat, d: nat)
    ensures (q + 1) * d == q * d + d
  {
  }

  lemma MulGap(p: nat, q: nat, d: nat)
    requires p < q
    ensures p * d + d <= q * d
  {
    MulNext(p, d);
    assert (p + 1) * d <= q * d;
  }

  lemma DivIs(n: nat, d: nat, q: nat, r: nat)
    requires n == q * d + r && r < d
    ensures n / d == q && n % d == r
  {
    var q', r' := n / d, n % d;
    assert n == q' * d + r';
    if q' < q {
      MulGap(q', q, d);
    } else if q < q' {
      MulGap(q, q', d);
    }
  }

  /** Whole cycles so far contribute `startRate` each, the current one what it has reached. */
  lemma {:induction false} FromStartIs(n: nat, startRate: nat, endRate: nat, q: nat, r: nat)
    requires n == q * (startRate + endRate) + r && r < startRate + endRate
    ensures FromStart(n, startRate, endRate) == q * startRate + (if r < startRate then r else startRate)
    decreases n
  {
    var cycle := startRate + endRate;
    if r > 0 {
      FromStartIs(n - 1, startRate, endRate, q, r - 1);
      DivIs(n - 1, cycle, q, r - 1);
    } else if q > 0 {
      MulNext(q - 1, cycle);
      MulNext(q - 1, startRate);
      FromStartIs(n - 1, startRate, endRate, q - 1, cycle - 1);
      DivIs(n - 1, cycle, q - 1, cycle - 1);
    }
  }

  lemma MulSum(q: nat, a: nat, b: nat)
    ensures q * (a + b) == q * a + q * b
  {
  }

  /** A choice from the start follows the earlier ones from the start, and likewise from the end. */
  lemma SelectIs(len: nat, nth: nat, startRate: nat, endRate: nat)
    requires 0 < startRate + endRate
    ensures Select(len, nth, startRate, endRate) ==
      if nth % (startRate + endRate) < startRate then FromStart(nth, startRate, endRate)
      else len - 1 - (nth - FromStart(nth, startRate, endRate))
  {
    var cycle := startRate + endRate;
    var q, r := nth / cycle, nth % cycle;
    assert nth == q * cycle + r;
    FromStartIs(nth, startRate, endRate, q, r);
    MulSum(q, startRate, endRate);
  }

  lemma {:induction false} FromStartGrows(n: nat, m: nat, startRate: nat, endRate: nat)
    requires 0 < startRate + endRate && n <= m
    ensures 0 <= FromStart(m, startRate, endRate) - FromStart(n, startRate, endRate) <= m - n
    decreases m
  {
    if n < m {
      FromStartGrows(n, m - 1, startRate, endRate);
    }
  }

  /** The selector stays in the range, without underflow. */
  lemma SelectInRange(len: nat, nth: nat, startRate: nat, endRate: nat)
    requires 0 < startRate + endRate && nth < len
    ensures 0 <= Select(len, nth, startRate, endRate) < len
  {
    SelectIs(len, nth, startRate, endRate);
  }

  /** No two choices coincide: those from the start stay below those from the end. */
  lemma SelectIsInjective(len: nat, n: nat, m: nat, startRate: nat, endRate: nat)
    requires 0 < startRate + endRate && n < m < len
    ensures Select(len, n, startRate, endRate) != Select(len, m, startRate, endRate)
  {
    SelectIs(len, n, startRate, endRate);
    SelectIs(len, m, startRate, endRate);
    FromStartGrows(n + 1, m, startRate, endRate);
    FromStartGrows(m + 1, len, startRate, endRate);
    FromStartGrows(n + 1, len, startRate, endRate);
  }

  // ---------- the order ----------

  predicate IsPermutation(indices: seq<nat>, n: nat) {
    && |indices| == n
    && (forall i: nat :: i < n ==> indices[i] < n)
    && (forall i: nat, j: nat :: i < j < n ==> indices[i] != indices[j])
  }

  /** The selector is applied in place to each index, wherever sorting by size has put it. */
  method WithSmallToLargeRatio(sorted: seq<nat>, startRate: nat, endRate: nat) returns (indices: seq<nat>)
    requires IsPermutation(sorted, |sorted|) && 0 < startRate + endRate
    ensures IsPermutation(indices, |sorted|)
    ensures forall i: nat :: i < |sorted| ==> indices[i] == Select(|sorted|, sorted[i], startRate, endRate)
  {
    var n := |sorted|;
    indices := sorted;
    for p := 0 to n
      invariant |indices| == n
      invariant forall i: nat :: i < p ==> indices[i] == Select(n, sorted[i], startRate, endRate)
      invariant forall i: nat :: p <= i < n ==> indices[i] == sorted[i]
    {
      SelectInRange(n, sorted[p], startRate, endRate);
      indices := indices[p := Select(n, sorted[p], startRate, endRate)];
    }
    forall i: nat | i < n ensures indices[i] < n {
      SelectInRange(n, sorted[i], startRate, endRate);
    }
    forall i: nat, j: nat | i < j < n ensures indices[i] != indices[j] {
      if sorted[i] < sorted[j] {
        SelectIsInjective(n, sorted[i], sorted[j], startRate, endRate);
      } else {
        SelectIsInjective(n, sorted[j], sorted[i], startRate, endRate);
      }
    }
  }

  // ---------- every index appears ----------

  function Below(n: nat): (r: set<nat>)
    ensures |r| == n && forall i :: i in r <==> 0 <= i < n
  {
    if n == 0 then {} else Below(n - 1) + {n - 1}
  }

  function ElementsOf(indices: seq<nat>): set<nat> {
    set x | x in indices
  }

  lemma {:induction false} DistinctSize(indices: seq<nat>)
    requires forall i: nat, j: nat :: i < j < |indices| ==> indices[i] != indices[j]
    ensures |ElementsOf(indices)| == |indices|
  {
    if indices != [] {
      var n := |indices| - 1;
      DistinctSize(indices[..n]);
      assert indices == indices[..n] + [indices[n]];
      assert ElementsOf(indices) == ElementsOf(indices[..n]) + {indices[n]};
    }
  }

  lemma {:induction false} WholeSet(part: set<nat>, whole: set<nat>)
    requires part <= whole && |part| == |whole|
    ensures part == whole
  {
    assert |whole - part| == 0;
  }

  /** A permutation leaves no index out. */
  lemma PermutationIsOnto(indices: seq<nat>, n: nat, x: nat)
    requires IsPermutation(indices, n) && x < n
    ensures x in indices
  {
    DistinctSize(indices);
    WholeSet(ElementsOf(indices), Below(n));
    assert x in Below(n);
  }

  // ---------- concurrent consumers ----------

  class Consumer {
    const indices: seq<nat>
    var position: nat

    constructor (indices: seq<nat>)
      ensures this.indices == indices && position == 0
    {
      this.indices := indices;
      position := 0;
    }

    /** Takes the position and advances it in one atomic step. */
    method Next() returns (item: Option<(nat, nat)>)
      modifies this
      ensures position == old(position) + 1
      ensures item == if old(position) < |indices| then Some((old(position), indices[old(position)])) else None
    {
      var taken := position;
      position := position + 1;
      item := if taken < |indices| then Some((taken, indices[taken])) else None;
    }
  }

  /** Everything the threads have taken. */
  function TakenBy(got: seq<seq<nat>>): multiset<nat> {
    if got == [] then multiset{} else TakenBy(got[..|got| - 1]) + multiset(got[|got| - 1])
  }

  lemma {:induction false} TakeOne(got: seq<seq<nat>>, t: nat, x: nat)
    requires t < |got|
    ensures TakenBy(got[t := got[t] + [x]]) == TakenBy(got) + multiset{x}
  {
    var n := |got| - 1;
    var got' := got[t := got[t] + [x]];
    if t == n {
      assert got'[..n] == got[..n];
    } else {
      TakeOne(got[..n], t, x);
      assert got'[..n] == got[..n][t := got[..n][t] + [x]];
    }
  }

  lemma {:induction false} TakenNothing(got: seq<seq<nat>>)
    requires forall t: nat :: t < |got| ==> got[t] == []
    ensures TakenBy(got) == multiset{}
  {
    if got != [] {
      TakenNothing(got[..|got| - 1]);
    }
  }

  /** What `calls` calls hand out. */
  function Handed(indices: seq<nat>, calls: nat): seq<nat> {
    if calls < |indices| then indices[..calls] else indices
  }

  lemma HandedNext(indices: seq<nat>, calls: nat)
    requires calls < |indices|
    ensures multiset(Handed(indices, calls + 1)) == multiset(Handed(indices, calls)) + multiset{indices[calls]}
  {
    assert indices[..calls + 1] == indices[..calls] + [indices[calls]];
    assert indices[..|indices|] == indices;
  }

  /**
   Threads call `Next` in any interleaving. Between them they take each position at most once, in
   order, and all of them once there have been enough calls.
   */
  method Consume(consumer: Consumer, schedule: seq<nat>, threads: nat) returns (got: seq<seq<nat>>)
    requires consumer.position == 0 && forall c: nat :: c < |schedule| ==> schedule[c] < threads
    modifies consumer
    ensures |got| == threads
    ensures TakenBy(got) == multiset(Handed(consumer.indices, |schedule|))
  {
    got := seq(threads, _ => []);
    TakenNothing(got);
    var indices := consumer.indices;
    for c := 0 to |schedule|
      invariant |got| == threads && consumer.position == c
      invariant TakenBy(got) == multiset(Handed(indices, c))
    {
      var t := schedule[c];
      var item := consumer.Next();
      if item.Some? {
        TakeOne(got, t, item.value.1);
        HandedNext(indices, c);
        got := got[t := got[t] + [item.value.1]];
      }
    }
  }

  /** Given a permutation and enough calls, every storage is taken exactly once. */
  method ConsumeAll(indices: seq<nat>, schedule: seq<nat>, threads: nat) returns (got: seq<seq<nat>>)
    requires IsPermutation(indices, |indices|) && |indices| <= |schedule|
    requires forall c: nat :: c < |schedule| ==> schedule[c] < threads
    ensures forall x: nat :: TakenBy(got)[x] == if x < |indices| then 1 else 0
  {
    var consumer := new Consumer(indices);
    got := Consume(consumer, schedule, threads);
    forall x: nat ensures multiset(indices)[x] == if x < |indices| then 1 else 0 {
      CountInPermutation(indices, x);
    }
  }

  lemma {:induction false} DistinctCount(s: seq<nat>, x: nat)
    requires forall i: nat, j: nat :: i < j < |s| ==> s[i] != s[j]
    ensures multiset(s)[x] == if x in s then 1 else 0
  {
    if s != [] {
      var n := |s| - 1;
      DistinctCount(s[..n], x);
      assert s == s[..n] + [s[n]];
    }
  }

  lemma CountInPermutation(indices: seq<nat>, x: nat)
    requires IsPermutation(indices, |indices|)
    ensures multiset(indices)[x] == if x < |indices| then 1 else 0
  {
    DistinctCount(indices, x);
    if x < |indices| {
      PermutationIsOnto(indices, |indices|, x);
    }
  }
}
