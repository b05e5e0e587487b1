/** Rebuilding the index at startup, and the totals over all accounts that come out of it. */
module StartupTotals {
  import opened Types
  import opened StorageEntry
  import opened T = Totals
  import S = Sums

  type HashFn = (Pubkey, Account) -> Hash
  type Index = map<Pubkey, map<Slot, Account>>

  /** What one account adds to the totals: nothing when it has no lamports. */
  function ValueOf(h: HashFn, k: Pubkey, a: Account): Total {
    if a.IsZeroLamport() then Zero() else Total(a.lamports, |a.data|, h(k, a))
  }

  ghost function ValuesOf(h: HashFn, k: Pubkey, versions: map<Slot, Account>): map<Slot, Total> {
    map s | s in versions :: ValueOf(h, k, versions[s])
  }

  /** Every version of a key, duplicates included. */
  ghost function KeyTotal(h: HashFn, k: Pubkey, versions: map<Slot, Account>): Total {
    Sum(ValuesOf(h, k, versions))
  }

  ghost function KeyTotals(h: HashFn, index: Index): map<Pubkey, Total> {
    map k | k in index :: KeyTotal(h, k, index[k])
  }

  ghost predicate NoneEmpty(index: Index) {
    forall k :: k in index ==> index[k] != map[]
  }

  /** The value of each key's newest version. */
  ghost function NewestValues(h: HashFn, index: Index): map<Pubkey, Total>
    requires NoneEmpty(index)
  {
    map k | k in index :: ValueOf(h, k, index[k][Max(index[k].Keys)])
  }

  // ---------- filling the index ----------

  function Inserted(index: Index, s: Slot, k: Pubkey, a: Account): Index {
    index[k := (if k in index then index[k] else map[])[s := a]]
  }

  predicate Found(index: Index, k: Pubkey, s: Slot, a: Account) {
    k in index && s in index[k] && index[k][s] == a
  }

  /** A live record for the key among the first `n` of a storage. */
  predicate Has(st: Storage, n: nat, k: Pubkey, a: Account) {
    exists i: nat :: i < n <= |st.records| && st.Live(i) && st.records[i] == Record(k, a)
  }

  lemma InsertTotals(h: HashFn, index: Index, s: Slot, k: Pubkey, a: Account)
    requires k in index ==> s !in index[k]
    ensures Sum(KeyTotals(h, Inserted(index, s, k, a))) == Add(Sum(KeyTotals(h, index)), ValueOf(h, k, a))
  {
    hide Sum, Add, Zero, ValueOf;
    var v, was, now := ValueOf(h, k, a), KeyTotals(h, index), KeyTotals(h, Inserted(index, s, k, a));
    var versions := if k in index then index[k] else map[];
    InsertVersion(h, k, versions, s, a);
    assert now == was[k := KeyTotal(h, k, versions[s := a])];
    SumPut(was, k, KeyTotal(h, k, versions[s := a]));
    if k in index {
      SumTake(was, k);
      AddAssociates(Sum(was - {k}), KeyTotal(h, k, versions), v);
    } else {
      assert was - {k} == was;
      NoVersions(h, k);
      AddZero(v);
    }
  }

  lemma NoVersions(h: HashFn, k: Pubkey)
    ensures KeyTotal(h, k, map[]) == Zero()
  {
  }

  lemma InsertVersion(h: HashFn, k: Pubkey, versions: map<Slot, Account>, s: Slot, a: Account)
    requires s !in versions
    ensures KeyTotal(h, k, versions[s := a]) == Add(KeyTotal(h, k, versions), ValueOf(h, k, a))
  {
    hide Sum, Add, Zero, ValueOf;
    var values := ValuesOf(h, k, versions);
    SumPut(values, s, ValueOf(h, k, a));
    assert ValuesOf(h, k, versions[s := a]) == values[s := ValueOf(h, k, a)];
    assert values - {s} == values;
  }

  /** The index holds the live records of the storages done, and of the first `n` records of one more. */
  ghost predicate Scanned(index: Index, storages: map<Slot, Storage>, done: set<Slot>, slot: Slot, n: nat) {
    && NoneEmpty(index)
    && forall k, s, a :: Found(index, k, s, a) <==>
        || (s in done && s in storages && Has(storages[s], |storages[s].records|, k, a))
        || (s == slot && s in storages && Has(storages[s], n, k, a))
  }

  lemma InsertFound(index: Index, s: Slot, k: Pubkey, a: Account, j: Pubkey, t: Slot, b: Account)
    requires k in index ==> s !in index[k]
    ensures Found(Inserted(index, s, k, a), j, t, b) <==> Found(index, j, t, b) || (j == k && t == s && b == a)
  {
  }

  lemma HasNext(st: Storage, n: nat, k: Pubkey, a: Account)
    requires n < |st.records|
    ensures Has(st, n + 1, k, a) <==> Has(st, n, k, a) || (st.Live(n) && st.records[n] == Record(k, a))
  {
    if st.Live(n) && st.records[n] == Record(k, a) {
      assert n < n + 1 <= |st.records|;
    }
  }

  lemma NextIsNew(index: Index, storages: map<Slot, Storage>, done: set<Slot>, slot: Slot, n: nat)
    requires Scanned(index, storages, done, slot, n) && slot in storages && slot !in done
    requires storages[slot].Shaped() && n < |storages[slot].records|
    ensures var k := storages[slot].records[n].key; k in index ==> slot !in index[k]
  {
    var k := storages[slot].records[n].key;
    if k in index && slot in index[k] {
      assert Found(index, k, slot, index[k][slot]);
    }
  }

  lemma ScanNext(index: Index, storages: map<Slot, Storage>, done: set<Slot>, slot: Slot, n: nat)
    requires Scanned(index, storages, done, slot, n) && slot in storages && slot !in done
    requires storages[slot].Shaped() && n < |storages[slot].records|
    ensures var r := storages[slot].records[n];
      Scanned(if storages[slot].Live(n) then Inserted(index, slot, r.key, r.account)
        else index, storages, done, slot, n + 1)
  {
    hide Has;
    var st, r := storages[slot], storages[slot].records[n];
    NextIsNew(index, storages, done, slot, n);
    var index' := if st.Live(n) then Inserted(index, slot, r.key, r.account) else index;
    forall k | k in index' ensures index'[k] != map[] {
      assert k == r.key && st.Live(n) ==> slot in index'[k];
    }
    forall k, s, a ensures Found(index', k, s, a) <==>
      || (s in done && s in storages && Has(storages[s], |storages[s].records|, k, a))
      || (s == slot && s in storages && Has(storages[s], n + 1, k, a))
    {
      InsertFound(index, slot, r.key, r.account, k, s, a);
      HasNext(st, n, k, a);
    }
  }

  /** Adds a storage's live records to the index, and their total to the accumulator of the thread at work. */
  method GenerateIndexForSlot(h: HashFn, storages: map<Slot, Storage>, ghost done: set<Slot>, slot: Slot, index: Index)
    returns (index': Index, slotTotal: Total)
    requires slot in storages && slot !in done && storages[slot].Shaped()
    requires Scanned(index, storages, done, slot, 0)
    ensures Scanned(index', storages, done, slot, |storages[slot].records|)
    ensures Sum(KeyTotals(h, index')) == Add(Sum(KeyTotals(h, index)), slotTotal)
  {
    hide Sum, Add, Zero, Scanned, KeyTotals, ValueOf, Inserted;
    index', slotTotal := index, Zero();
    AddZero(Sum(KeyTotals(h, index)));
    var st := storages[slot];
    for n := 0 to |st.records|
      invariant Scanned(index', storages, done, slot, n)
      invariant Sum(KeyTotals(h, index')) == Add(Sum(KeyTotals(h, index)), slotTotal)
    {
      NextIsNew(index', storages, done, slot, n);
      ScanNext(index', storages, done, slot, n);
      if st.Live(n) {
        var r := st.records[n];
        InsertTotals(h, index', slot, r.key, r.account);
        AddAssociates(Sum(KeyTotals(h, index)), slotTotal, ValueOf(h, r.key, r.account));
        slotTotal := Add(slotTotal, ValueOf(h, r.key, r.account));
        index' := Inserted(index', slot, r.key, r.account);
      }
    }
  }

  // ---------- the threads ----------

  /** Merging the accumulators of all threads. */
  function Merged(accums: seq<Total>): Total {
    if accums == [] then Zero() else Add(Merged(accums[..|accums| - 1]), accums[|accums| - 1])
  }

  /** A total may be added to any thread's accumulator. */
  lemma {:induction false} MergeAny(accums: seq<Total>, t: nat, v: Total)
    requires t < |accums|
    ensures Merged(accums[t := Add(accums[t], v)]) == Add(Merged(accums), v)
  {
    hide Add, Zero;
    var n := |accums| - 1;
    var front, accums' := accums[..n], accums[t := Add(accums[t], v)];
    if t == n {
      assert accums'[..n] == front;
      AddAssociates(Merged(front), accums[n], v);
    } else {
      MergeAny(front, t, v);
      assert accums'[..n] == front[t := Add(front[t], v)];
      SwapLast(Merged(front), v, accums[n]);
    }
  }

  lemma {:induction false} NothingMerged(accums: seq<Total>)
    requires forall t: nat :: t < |accums| ==> accums[t] == Zero()
    ensures Merged(accums) == Zero()
  {
    if accums != [] {
      NothingMerged(accums[..|accums| - 1]);
      AddZero(Zero());
    }
  }

  /**
   Every storage is taken by some thread, in some order: `order` is the order in which they are
   done and `owner` the thread that does each.
   */
  method BuildIndex(h: HashFn, storages: map<Slot, Storage>, order: seq<Slot>, owner: seq<nat>, threads: nat)
    returns (index: Index, total: Total)
    requires forall s :: s in storages ==> storages[s].Shaped()
    requires forall s :: s in order <==> s in storages
    requires forall i: nat, j: nat :: i < j < |order| ==> order[i] != order[j]
    requires |owner| == |order| && forall i: nat :: i < |owner| ==> owner[i] < threads
    ensures IsIndexOf(index, storages)
    ensures total == Sum(KeyTotals(h, index))
  {
    hide Sum, Add, Zero, KeyTotals, Scanned;
    index := map[];
    NothingScanned(h, storages);
    var accums := seq(threads, _ => Zero());
    NothingMerged(accums);
    for i := 0 to |order|
      invariant |accums| == threads
      invariant ScannedAll(index, storages, order[..i])
      invariant Merged(accums) == Sum(KeyTotals(h, index))
    {
      ghost var done := SlotsOf(order[..i]);
      assert order[i] !in done;
      StartSlot(index, storages, order[..i], order[i]);
      var slotTotal;
      index, slotTotal := GenerateIndexForSlot(h, storages, done, order[i], index);
      MergeAny(accums, owner[i], slotTotal);
      accums := accums[owner[i] := Add(accums[owner[i]], slotTotal)];
      EndSlot(index, storages, order, i);
    }
    assert order[..|order|] == order;
    AllScanned(index, storages, order);
    total := Merged(accums);
  }

  ghost function SlotsOf(order: seq<Slot>): set<Slot> {
    set s | s in order
  }

  ghost predicate ScannedAll(index: Index, storages: map<Slot, Storage>, order: seq<Slot>) {
    && NoneEmpty(index)
    && forall k, s, a ::
         Found(index, k, s, a) <==> s in order && s in storages && Has(storages[s], |storages[s].records|, k, a)
  }

  /** The index lists each live record of each storage, and nothing else. */
  ghost predicate IsIndexOf(index: Index, storages: map<Slot, Storage>) {
    && NoneEmpty(index)
    && forall k, s, a :: Found(index, k, s, a) <==> s in storages && Has(storages[s], |storages[s].records|, k, a)
  }

  lemma NothingScanned(h: HashFn, storages: map<Slot, Storage>)
    ensures ScannedAll(map[], storages, [])
    ensures Sum(KeyTotals(h, map[])) == Zero()
  {
  }

  lemma StartSlot(index: Index, storages: map<Slot, Storage>, order: seq<Slot>, slot: Slot)
    requires ScannedAll(index, storages, order)
    ensures Scanned(index, storages, SlotsOf(order), slot, 0)
  {
  }

  lemma EndSlot(index: Index, storages: map<Slot, Storage>, order: seq<Slot>, i: nat)
    requires i < |order| && order[i] in storages
    requires Scanned(index, storages, SlotsOf(order[..i]), order[i], |storages[order[i]].records|)
    ensures ScannedAll(index, storages, order[..i + 1])
  {
    hide Has;
    assert order[..i + 1] == order[..i] + [order[i]];
    var all := order[..i + 1];
    assert forall s :: s in all <==> s in order[..i] || s == order[i];
  }

  lemma AllScanned(index: Index, storages: map<Slot, Storage>, order: seq<Slot>)
    requires ScannedAll(index, storages, order) && forall s :: s in order <==> s in storages
    ensures IsIndexOf(index, storages)
  {
    hide Has;
  }

  // ---------- removing the duplicates ----------

  /** The older versions of the keys visited so far; keys not visited yet count for nothing. */
  ghost function OlderValues(h: HashFn, index: Index, done: set<Pubkey>): map<Pubkey, Total>
    requires NoneEmpty(index)
  {
    map k | k in index :: if k in done then KeyTotal(h, k, index[k] - {Max(index[k].Keys)}) else Zero()
  }

  lemma SplitNewest(h: HashFn, k: Pubkey, versions: map<Slot, Account>, newest: Slot)
    requires newest in versions
    ensures KeyTotal(h, k, versions) == Add(ValueOf(h, k, versions[newest]), KeyTotal(h, k, versions - {newest}))
  {
    hide Sum, Add, Zero, ValueOf;
    var values: map<Slot, Total> := ValuesOf(h, k, versions);
    SumTake(values, newest);
    assert ValuesOf(h, k, versions - {newest}) == values - {newest};
    AddCommutes(Sum(values - {newest}), values[newest]);
  }

  lemma {:induction false} SumOfPairs(a: map<nat, Total>, b: map<nat, Total>, c: map<nat, Total>)
    requires a.Keys == b.Keys == c.Keys && forall k :: k in c ==> c[k] == Add(a[k], b[k])
    ensures Sum(c) == Add(Sum(a), Sum(b))
    decreases |c|
  {
    hide Add;
    if c == map[] {
      assert a == map[] && b == map[];
      AddZero(Zero());
    } else {
      var k :| k in c;
      SumOfPairs(a - {k}, b - {k}, c - {k});
      SumTake(a, k);
      SumTake(b, k);
      SumTake(c, k);
      Interchange(Sum(a - {k}), Sum(b - {k}), a[k], b[k]);
    }
  }

  lemma Interchange(a: Total, b: Total, c: Total, d: Total)
    ensures Add(Add(a, b), Add(c, d)) == Add(Add(a, c), Add(b, d))
  {
    hide Add;
    AddAssociates(Add(a, b), c, d);
    SwapLast(a, b, c);
    AddAssociates(Add(a, c), b, d);
  }

  /** Once every key with several versions has been visited, the older versions are all accounted for. */
  lemma NewestPlusOlder(h: HashFn, index: Index, done: set<Pubkey>)
    requires NoneEmpty(index) && forall k :: k in index && |index[k]| > 1 ==> k in done
    ensures Add(Sum(NewestValues(h, index)), Sum(OlderValues(h, index, done))) == Sum(KeyTotals(h, index))
  {
    hide Sum, Add, Zero, ValueOf;
    var newest, older, all := NewestValues(h, index), OlderValues(h, index, done), KeyTotals(h, index);
    forall k | k in index ensures all[k] == Add(newest[k], older[k]) {
      var m := Max(index[k].Keys);
      SplitNewest(h, k, index[k], m);
      if k !in done {
        OnlyOne(index[k], m);
        NoVersions(h, k);
      }
    }
    SumOfPairs(newest, older, all);
  }

  lemma OnlyOne(versions: map<Slot, Account>, s: Slot)
    requires s in versions && |versions| <= 1
    ensures versions - {s} == map[]
  {
    assert (versions - {s}).Keys == versions.Keys - {s};
    assert |versions.Keys - {s}| == 0;
  }

  lemma VisitKey(h: HashFn, index: Index, done: set<Pubkey>, k: Pubkey)
    requires NoneEmpty(index) && k in index && k !in done
    ensures Sum(OlderValues(h, index, done + {k})) ==
      Add(Sum(OlderValues(h, index, done)), KeyTotal(h, k, index[k] - {Max(index[k].Keys)}))
  {
    hide Sum, Add, Zero, KeyTotal;
    var was := OlderValues(h, index, done);
    var older := KeyTotal(h, k, index[k] - {Max(index[k].Keys)});
    SumTake(was, k);
    AddZero(Sum(was - {k}));
    SumPut(was, k, older);
    assert OlderValues(h, index, done + {k}) == was[k := older];
  }

  /** The total of every version of a key but the newest. */
  method OlderVersions(h: HashFn, k: Pubkey, versions: map<Slot, Account>) returns (older: Total)
    requires versions != map[]
    ensures older == KeyTotal(h, k, versions - {Max(versions.Keys)})
  {
    hide Sum, Add, Zero, ValueOf, KeyTotal;
    assert versions.Keys != {};
    var _, newest := Bounds(versions.Keys);
    assert newest == Max(versions.Keys);
    var todo := versions.Keys;
    ghost var seen: map<Slot, Account> := map[];
    older := Zero();
    NoVersions(h, k);
    while todo != {}
      invariant todo <= versions.Keys && seen == map s | s in versions && s !in todo && s != newest :: versions[s]
      invariant older == KeyTotal(h, k, seen)
      decreases todo
    {
      var s :| s in todo;
      todo := todo - {s};
      if s != newest {
        InsertVersion(h, k, seen, s, versions[s]);
        older := Add(older, ValueOf(h, k, versions[s]));
        seen := seen[s := versions[s]];
      }
    }
    assert seen == versions - {newest};
  }

  /** The total of all versions that are not the newest of their key, visited in any order. */
  method VisitDuplicates(h: HashFn, index: Index) returns (duplicates: Total)
    requires NoneEmpty(index)
    ensures Add(Sum(NewestValues(h, index)), duplicates) == Sum(KeyTotals(h, index))
  {
    hide Sum, Add, Zero, OlderValues, NewestValues, KeyTotals;
    var all := set k | k in index && |index[k]| > 1;
    var todo := all;
    duplicates := Zero();
    NoneVisited(h, index);
    assert all - todo == {};
    while todo != {}
      invariant todo <= all && duplicates == Sum(OlderValues(h, index, all - todo))
      decreases todo
    {
      var k :| k in todo;
      VisitKey(h, index, all - todo, k);
      assert all - todo + {k} == all - (todo - {k});
      var older := OlderVersions(h, k, index[k]);
      duplicates := Add(duplicates, older);
      todo := todo - {k};
    }
    NewestPlusOlder(h, index, all - todo);
  }

  lemma NoneVisited(h: HashFn, index: Index)
    requires NoneEmpty(index)
    ensures Sum(OlderValues(h, index, {})) == Zero()
  {
    AllZeroes(OlderValues(h, index, {}));
  }

  lemma {:induction false} AllZeroes(m: map<nat, Total>)
    requires forall k :: k in m ==> m[k] == Zero()
    ensures Sum(m) == Zero()
    decreases |m|
  {
    if m != map[] {
      var k :| k in m;
      SumTake(m, k);
      AllZeroes(m - {k});
      AddZero(Zero());
    }
  }

  lemma NewestIsNat(h: HashFn, index: Index)
    requires NoneEmpty(index)
    ensures 0 <= Sum(NewestValues(h, index)).capitalization && 0 <= Sum(NewestValues(h, index)).dataLen
  {
    SumIsNat(NewestValues(h, index));
  }

  // ---------- what the totals are ----------

  /** Each key's newest version. */
  ghost function NewestOf(index: Index): map<Pubkey, Account>
    requires NoneEmpty(index)
  {
    map k | k in index :: index[k][Max(index[k].Keys)]
  }

  ghost function NewestBalances(index: Index): map<Pubkey, int>
    requires NoneEmpty(index)
  {
    map k | k in index :: NewestOf(index)[k].lamports
  }

  /** How much data the newest versions hold, where those have lamports. */
  ghost function NewestLengths(index: Index): map<Pubkey, int>
    requires NoneEmpty(index)
  {
    map k | k in index && NewestOf(index)[k].lamports > 0 :: |NewestOf(index)[k].data|
  }

  /** One lane of the hashes of the newest versions, where those have lamports. */
  ghost function NewestLane(h: HashFn, index: Index, i: nat): map<Pubkey, int>
    requires NoneEmpty(index) && i < LANES
  {
    map k | k in index && NewestOf(index)[k].lamports > 0 :: h(k, NewestOf(index)[k])[i]
  }

  lemma BalancesAddUp(h: HashFn, index: Index)
    requires NoneEmpty(index)
    ensures Sum(NewestValues(h, index)).capitalization == S.Sum(NewestBalances(index))
    ensures Sum(NewestValues(h, index)).dataLen == S.Sum(NewestLengths(index))
  {
    hide Sum, S.Sum, Identity, NewestBalances;
    var values := NewestValues(h, index);
    var empty := set k | k in index && NewestOf(index)[k].lamports == 0;
    SumBalances(values);
    EachBalance(h, index);
    S.SumDropsZeroes(Lengths(values), empty);
    assert Lengths(values) - empty == NewestLengths(index);
  }

  lemma EachBalance(h: HashFn, index: Index)
    requires NoneEmpty(index)
    ensures Balances(NewestValues(h, index)) == NewestBalances(index)
  {
    hide Identity;
  }

  lemma LanesAddUp(h: HashFn, index: Index, i: nat)
    requires NoneEmpty(index) && i < LANES
    ensures Sum(NewestValues(h, index)).hash[i] == S.Sum(NewestLane(h, index, i)) % LANE_SIZE
  {
    hide Sum, S.Sum;
    var values := NewestValues(h, index);
    var empty := set k | k in index && NewestOf(index)[k].lamports == 0;
    SumLane(values, i);
    forall k | k in empty ensures Lane(values, i)[k] == 0 {
      assert values[k] == Zero();
    }
    S.SumDropsZeroes(Lane(values, i), empty);
    assert Lane(values, i) - empty == NewestLane(h, index, i);
  }

  /**
   The totals at startup are those of the newest version of every key, whichever threads took the
   storages and in whatever order. Taking the duplicates out never goes below zero.
   */
  method GenerateIndex(h: HashFn, storages: map<Slot, Storage>, order: seq<Slot>, owner: seq<nat>, threads: nat)
    returns (index: Index, total: Total)
    requires forall s :: s in storages ==> storages[s].Shaped()
    requires forall s :: s in order <==> s in storages
    requires forall i: nat, j: nat :: i < j < |order| ==> order[i] != order[j]
    requires |owner| == |order| && forall i: nat :: i < |owner| ==> owner[i] < threads
    ensures IsIndexOf(index, storages)
    ensures total == Sum(NewestValues(h, index))
    ensures 0 <= total.capitalization == S.Sum(NewestBalances(index))
    ensures 0 <= total.dataLen == S.Sum(NewestLengths(index))
    ensures forall i: nat :: i < LANES ==> total.hash[i] == S.Sum(NewestLane(h, index, i)) % LANE_SIZE
  {
    hide Sum, Add, Sub, Zero, NewestValues, KeyTotals, S.Sum;
    index, total := BuildIndex(h, storages, order, owner, threads);
    var duplicates := VisitDuplicates(h, index);
    SubUndoesAdd(Sum(NewestValues(h, index)), duplicates);
    NewestIsNat(h, index);
    total := Sub(total, duplicates);
    forall i: nat | i < LANES ensures total.hash[i] == S.Sum(NewestLane(h, index, i)) % LANE_SIZE {
      LanesAddUp(h, index, i);
    }
    BalancesAddUp(h, index);
  }
}
