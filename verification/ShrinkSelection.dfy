/** Choosing which sparse storages to shrink: just enough of them to bring the overall alive ratio above a goal. */
module ShrinkSelection {
  import opened Types

  /** A candidate: its bytes after a shrink and the bytes it takes now. */
  datatype Usage = Usage(slot: Slot, alive: nat, written: nat)

  function Ratio(alive: int, written: int): (ratio: real)
    requires 0 < written
    ensures ratio * written as real == alive as real
  {
    alive as real / written as real
  }

  predicate AllWritten(usages: seq<Usage>) {
    forall i: nat :: i < |usages| ==> 0 < usages[i].written
  }

  function RatioOf(u: Usage): real
    requires 0 < u.written
  {
    Ratio(u.alive, u.written)
  }

  function TotalAlive(usages: seq<Usage>): nat {
    if usages == [] then 0 else TotalAlive(usages[..|usages| - 1]) + usages[|usages| - 1].alive
  }

  function TotalWritten(usages: seq<Usage>): nat {
    if usages == [] then 0 else TotalWritten(usages[..|usages| - 1]) + usages[|usages| - 1].written
  }

  /** What shrinking a candidate gives back, and never less than nothing. */
  function Saved(u: Usage): (saved: nat)
    ensures saved <= u.written <= saved + u.alive && (saved > 0 ==> saved + u.alive == u.written)
  {
    if u.alive < u.written then u.written - u.alive else 0
  }

  function TotalSaved(usages: seq<Usage>): nat {
    if usages == [] then 0 else TotalSaved(usages[..|usages| - 1]) + Saved(usages[|usages| - 1])
  }

  lemma {:induction false} SavedFits(usages: seq<Usage>, n: nat)
    requires AllWritten(usages) && n <= |usages|
    ensures TotalSaved(usages[..n]) <= TotalWritten(usages)
    ensures n < |usages| ==> TotalSaved(usages[..n]) < TotalWritten(usages)
    decreases |usages|
  {
    if usages != [] {
      var m := |usages| - 1;
      if n <= m {
        SavedFits(usages[..m], n);
        assert usages[..m][..n] == usages[..n];
      } else {
        SavedFits(usages[..m], m);
        assert usages[..n] == usages;
        assert usages[..m][..m] == usages[..m];
      }
    }
  }

  /** The overall alive ratio once the first `n` candidates are shrunk. */
  function Projected(usages: seq<Usage>, n: nat): real
    requires AllWritten(usages) && n < |usages|
  {
    SavedFits(usages, n);
    Ratio(TotalAlive(usages), TotalWritten(usages) - TotalSaved(usages[..n]))
  }

  // ---------- sorting ----------

  predicate Ascending(usages: seq<Usage>)
    requires AllWritten(usages)
  {
    forall i: nat, j: nat :: i < j < |usages| ==> RatioOf(usages[i]) <= RatioOf(usages[j])
  }

  function Insert(u: Usage, sorted: seq<Usage>): seq<Usage>
    requires 0 < u.written && AllWritten(sorted)
  {
    if sorted == [] || RatioOf(sorted[|sorted| - 1]) <= RatioOf(u) then sorted + [u]
    else Insert(u, sorted[..|sorted| - 1]) + [sorted[|sorted| - 1]]
  }

  lemma {:induction false} InsertSame(u: Usage, sorted: seq<Usage>)
    requires 0 < u.written && AllWritten(sorted)
    ensures multiset(Insert(u, sorted)) == multiset(sorted) + multiset{u}
  {
    hide RatioOf;
    var n := |sorted| - 1;
    if sorted != [] && RatioOf(sorted[n]) > RatioOf(u) {
      InsertSame(u, sorted[..n]);
      assert sorted == sorted[..n] + [sorted[n]];
    }
  }

  lemma {:induction false} InsertTotals(u: Usage, sorted: seq<Usage>)
    requires 0 < u.written && AllWritten(sorted)
    ensures TotalAlive(Insert(u, sorted)) == TotalAlive(sorted) + u.alive
    ensures TotalWritten(Insert(u, sorted)) == TotalWritten(sorted) + u.written
  {
    hide RatioOf;
    var n := |sorted| - 1;
    if sorted == [] || RatioOf(sorted[n]) <= RatioOf(u) {
      assert (sorted + [u])[..|sorted|] == sorted;
    } else {
      InsertTotals(u, sorted[..n]);
      var front := Insert(u, sorted[..n]);
      assert (front + [sorted[n]])[..|front|] == front;
    }
  }

  lemma InsertHas(u: Usage, sorted: seq<Usage>, i: nat)
    requires 0 < u.written && AllWritten(sorted) && i < |Insert(u, sorted)|
    ensures Insert(u, sorted)[i] == u || Insert(u, sorted)[i] in sorted
  {
    InsertSame(u, sorted);
    assert Insert(u, sorted)[i] in multiset(Insert(u, sorted));
  }

  lemma {:induction false} InsertAscends(u: Usage, sorted: seq<Usage>)
    requires 0 < u.written && AllWritten(sorted) && Ascending(sorted)
    ensures AllWritten(Insert(u, sorted)) && Ascending(Insert(u, sorted))
  {
    hide RatioOf;
    var n := |sorted| - 1;
    if sorted != [] && RatioOf(sorted[n]) > RatioOf(u) {
      InsertAscends(u, sorted[..n]);
      var front := Insert(u, sorted[..n]);
      forall i: nat | i < |front| ensures RatioOf(front[i]) <= RatioOf(sorted[n]) {
        InsertHas(u, sorted[..n], i);
      }
    }
  }

  // ---------- selecting ----------

  function SlotsOf(usages: seq<Usage>): set<Slot> {
    set i: nat | i < |usages| :: usages[i].slot
  }

  function SparseSlots(usages: seq<Usage>, goal: real): set<Slot>
    requires AllWritten(usages)
  {
    set i: nat | i < |usages| && RatioOf(usages[i]) < goal :: usages[i].slot
  }

  /** The shortest prefix whose projected ratio exceeds the goal, or everything if none does. */
  predicate IsEnough(sorted: seq<Usage>, n: nat, goal: real)
    requires AllWritten(sorted)
  {
    && n <= |sorted|
    && (forall m: nat :: m < n ==> Projected(sorted, m) <= goal)
    && (n < |sorted| ==> Projected(sorted, n) > goal)
  }

  /** A selection: in order of increasing ratio, the first `n` are shrunk and the sparse ones behind them put off. */
  ghost predicate IsSelection(usages: seq<Usage>, goal: real, sorted: seq<Usage>, n: nat, selected: set<Slot>,
                              putOff: set<Slot>) {
    && multiset(sorted) == multiset(usages) && AllWritten(sorted) && Ascending(sorted) && IsEnough(sorted, n, goal)
    && selected == SlotsOf(sorted[..n]) && putOff == SparseSlots(sorted[n..], goal)
  }

  /** The first pass: totals over all candidates, and the candidates by increasing alive ratio. */
  method SortByRatio(usages: seq<Usage>) returns (sorted: seq<Usage>, totalAlive: nat, totalBytes: nat)
    requires AllWritten(usages)
    ensures multiset(sorted) == multiset(usages) && AllWritten(sorted) && Ascending(sorted)
    ensures totalAlive == TotalAlive(sorted) && totalBytes == TotalWritten(sorted)
  {
    hide RatioOf, Insert, Ascending;
    sorted, totalAlive, totalBytes := [], 0, 0;
    NothingAscends();
    for i := 0 to |usages|
      invariant multiset(sorted) == multiset(usages[..i]) && AllWritten(sorted) && Ascending(sorted)
      invariant totalAlive == TotalAlive(sorted) && totalBytes == TotalWritten(sorted)
    {
      InsertSame(usages[i], sorted);
      InsertTotals(usages[i], sorted);
      InsertAscends(usages[i], sorted);
      assert usages[..i + 1] == usages[..i] + [usages[i]];
      totalAlive, totalBytes := totalAlive + usages[i].alive, totalBytes + usages[i].written;
      sorted := Insert(usages[i], sorted);
    }
    assert usages[..|usages|] == usages;
  }

  lemma NothingAscends()
    ensures AllWritten([]) && Ascending([])
  {
  }

  /**
   Selects the shortest prefix, by increasing alive ratio, that reaches the goal, and puts off the
   other candidates that are sparser than the goal. The running byte total never goes below zero.
   */
  method SelectCandidatesByTotalUsage(usages: seq<Usage>, goal: real)
    returns (selected: set<Slot>, putOff: set<Slot>)
    requires AllWritten(usages)
    ensures exists sorted, n :: IsSelection(usages, goal, sorted, n, selected, putOff)
  {
    hide RatioOf, Ratio, Ascending;
    var order, totalAlive, totalBytes := SortByRatio(usages);
    selected, putOff := {}, {};
    var i := 0;
    ghost var n := 0;
    while i < |order|
      invariant n <= i <= |order|
      invariant totalBytes == TotalWritten(order) - TotalSaved(order[..n])
      invariant forall m: nat :: m < n ==> Projected(order, m) <= goal
      invariant n < i ==> Projected(order, n) > goal
      invariant selected == SlotsOf(order[..n]) && putOff == SparseSlots(order[n..i], goal)
    {
      SavedFits(order, n);
      var aliveRatio := Ratio(totalAlive, totalBytes);
      assert aliveRatio == Projected(order, n);
      if aliveRatio > goal {
        if RatioOf(order[i]) < goal {
          SparseNext(order, n, i, goal);
          putOff := putOff + {order[i].slot};
        } else {
          NoneSparser(order, n, i, goal);
          assert IsSelection(usages, goal, order, n, selected, putOff);
          return;
        }
      } else {
        SavedFits(order, n + 1);
        NextSelected(order, n, goal);
        totalBytes := totalBytes - Saved(order[i]);
        selected := selected + {order[i].slot};
        n := n + 1;
      }
      i := i + 1;
    }
    assert order[n..i] == order[n..];
    assert IsSelection(usages, goal, order, n, selected, putOff);
  }

  lemma SparseNext(order: seq<Usage>, n: nat, i: nat, goal: real)
    requires AllWritten(order) && n <= i < |order| && RatioOf(order[i]) < goal
    ensures SparseSlots(order[n..i + 1], goal) == SparseSlots(order[n..i], goal) + {order[i].slot}
  {
    hide RatioOf;
    var part, next := order[n..i], order[n..i + 1];
    assert next[i - n] == order[i];
    forall j: nat | j < |part| ensures next[j] == part[j] {
    }
    assert SparseSlots(part, goal) <= SparseSlots(next, goal);
  }

  /** Candidates come by increasing ratio, so past one that is not sparse there is none. */
  lemma NoneSparser(order: seq<Usage>, n: nat, i: nat, goal: real)
    requires AllWritten(order) && Ascending(order) && n <= i < |order| && goal <= RatioOf(order[i])
    ensures SparseSlots(order[n..], goal) == SparseSlots(order[n..i], goal)
  {
    hide RatioOf;
    var whole, part := order[n..], order[n..i];
    forall j: nat | j < |whole| && RatioOf(whole[j]) < goal ensures j < |part| && part[j] == whole[j] {
      assert whole[j] == order[n + j];
    }
  }

  lemma NextSelected(order: seq<Usage>, n: nat, goal: real)
    requires AllWritten(order) && n < |order|
    ensures TotalSaved(order[..n + 1]) == TotalSaved(order[..n]) + Saved(order[n])
    ensures SlotsOf(order[..n + 1]) == SlotsOf(order[..n]) + {order[n].slot}
    ensures SparseSlots(order[n + 1..n + 1], goal) == {}
  {
    assert order[..n + 1] == order[..n] + [order[n]];
    assert (order[..n] + [order[n]])[..n] == order[..n];
  }
}
