/** Writing a batch of accounts to the cache, last first, without the writes that cannot be seen. */
module CacheWriter {
  import opened Types
  import L = Ledger
  import P = LedgerProofs

  type Batch = seq<(Pubkey, Account)>
  type SlotAccounts = map<Pubkey, Account>
  type Cache = map<Slot, SlotAccounts>

  /** Storing a batch in order: a later account replaces an earlier one with the same key. */
  function StoreForwards(m: SlotAccounts, batch: Batch): SlotAccounts
    decreases |batch|
  {
    if batch == [] then m else StoreForwards(m[batch[0].0 := batch[0].1], batch[1..])
  }

  /** The last account of each key. */
  function Latest(batch: Batch): SlotAccounts {
    if batch == [] then map[]
    else
      var rest := Latest(batch[1..]);
      if batch[0].0 in rest then rest else rest[batch[0].0 := batch[0].1]
  }

  function Over(m: SlotAccounts, top: SlotAccounts): SlotAccounts {
    map k | k in m.Keys + top.Keys :: if k in top then top[k] else m[k]
  }

  lemma {:induction false} ForwardsIsLatest(m: SlotAccounts, batch: Batch)
    ensures StoreForwards(m, batch) == Over(m, Latest(batch))
    decreases |batch|
  {
    if batch != [] {
      ForwardsIsLatest(m[batch[0].0 := batch[0].1], batch[1..]);
    }
  }

  /** The accounts worth writing: not the zero-lamport ones of keys that answer as absent already. */
  function Written(batch: Batch, absent: set<Pubkey>): SlotAccounts {
    map k | k in Latest(batch) && !(Latest(batch)[k].IsZeroLamport() && k in absent) :: Latest(batch)[k]
  }

  function SlotOf(cache: Cache, slot: Slot): SlotAccounts {
    if slot in cache then cache[slot] else map[]
  }

  /** Whether the account at a position is written: the last of its key, and not an invisible zero. */
  predicate IsWritten(batch: Batch, i: nat, absent: set<Pubkey>)
    requires i < |batch|
  {
    batch[i].0 !in Latest(batch[i + 1..]) && !(batch[i].1.IsZeroLamport() && batch[i].0 in absent)
  }

  lemma NextWritten(batch: Batch, i: nat, absent: set<Pubkey>, m: SlotAccounts)
    requires i < |batch|
    ensures Latest(batch[i..]).Keys == Latest(batch[i + 1..]).Keys + {batch[i].0}
    ensures var below := Over(m, Written(batch[i + 1..], absent));
      Over(m, Written(batch[i..], absent)) == if IsWritten(batch, i, absent) then below[batch[i].0 := batch[i].1]
        else below
  {
    assert batch[i..][0] == batch[i] && batch[i..][1..] == batch[i + 1..];
  }

  /** The keys of a batch for which both searches find nothing, or a zero balance, before anything is written. */
  function AbsentKeys(cache: Cache, batch: Batch, isAbsent: (Cache, Pubkey) -> bool): set<Pubkey> {
    set k | k in Latest(batch) && isAbsent(cache, k)
  }

  /** `isAbsent` is what a load of the store says with the given cache. */
  ghost predicate Searches(isAbsent: (Cache, Pubkey) -> bool, l: L.Ledger, ancestors: set<Slot>) {
    forall c: Cache, k :: isAbsent(c, k) <==> L.LookUp(l.(cache := c), ancestors, k) == None
  }

  /** Writing other keys does not change what is found for a key. */
  lemma OtherKeysUnseen(l: L.Ledger, cache: Cache, cache': Cache, ancestors: set<Slot>, k: Pubkey)
    requires forall s :: k in SlotOf(cache', s) <==> k in SlotOf(cache, s)
    requires forall s :: k in SlotOf(cache, s) ==> SlotOf(cache', s)[k] == SlotOf(cache, s)[k]
    ensures L.LookUp(l.(cache := cache'), ancestors, k) == L.LookUp(l.(cache := cache), ancestors, k)
  {
    var was, now := l.(cache := cache), l.(cache := cache');
    forall s ensures s in L.Cached(now, k) <==> s in L.Cached(was, k) {
      assert k in SlotOf(cache', s) <==> k in SlotOf(cache, s);
    }
    forall s | s in L.Cached(was, k) ensures L.Cached(now, k)[s] == L.Cached(was, k)[s] {
      assert k in SlotOf(cache, s);
    }
    SameMap(L.Cached(now, k), L.Cached(was, k));
  }

  /** So a search made in the middle of the batch finds for a key not seen yet what it would have found before it. */
  lemma SearchedMidway(l: L.Ledger, cache: Cache, cache': Cache, slot: Slot, batch: Batch, i: nat, absent: set<Pubkey>,
                       isAbsent: (Cache, Pubkey) -> bool, ancestors: set<Slot>)
    requires i < |batch| && Searches(isAbsent, l, ancestors) && batch[i].0 !in Latest(batch[i + 1..])
    requires SlotOf(cache', slot) == Over(SlotOf(cache, slot), Written(batch[i + 1..], absent))
    requires forall s :: s != slot ==> SlotOf(cache', s) == SlotOf(cache, s)
    ensures isAbsent(cache', batch[i].0) == isAbsent(cache, batch[i].0)
  {
    hide L.LookUp;
    OtherKeysUnseen(l, cache, cache', ancestors, batch[i].0);
  }

  lemma {:induction false} InLatest(batch: Batch, i: nat)
    requires i < |batch|
    ensures batch[i].0 in Latest(batch)
  {
    if i > 0 {
      InLatest(batch[1..], i - 1);
    }
  }

  /** Writes the batch backwards, searching the half-written cache for each zero-lamport account. */
  method WriteAccountsToCache(cache: Cache, slot: Slot, batch: Batch, isAbsent: (Cache, Pubkey) -> bool,
                              ghost l: L.Ledger, ghost ancestors: set<Slot>)
    returns (cache': Cache, stored: seq<bool>)
    requires Searches(isAbsent, l, ancestors)
    ensures SlotOf(cache', slot) == Over(SlotOf(cache, slot), Written(batch, AbsentKeys(cache, batch, isAbsent)))
    ensures forall s :: s != slot ==> SlotOf(cache', s) == SlotOf(cache, s)
    ensures |stored| == |batch|
    ensures forall i: nat :: i < |batch| ==> stored[i] == IsWritten(batch, i, AbsentKeys(cache, batch, isAbsent))
  {
    hide IsWritten, Written, Over, Latest, Searches;
    ghost var absent := AbsentKeys(cache, batch, isAbsent);
    var seen: set<Pubkey> := {};
    cache', stored := cache, seq(|batch|, _ => false);
    var i := |batch|;
    NothingWritten(SlotOf(cache, slot), absent);
    assert batch[i..] == [];
    while i > 0
      invariant i <= |batch| && |stored| == |batch| && seen == Latest(batch[i..]).Keys
      invariant SlotOf(cache', slot) == Over(SlotOf(cache, slot), Written(batch[i..], absent))
      invariant forall s :: s != slot ==> SlotOf(cache', s) == SlotOf(cache, s)
      invariant forall j: nat :: i <= j < |batch| ==> stored[j] == IsWritten(batch, j, absent)
      invariant forall j: nat :: j < i ==> !stored[j]
    {
      i := i - 1;
      var (k, account) := batch[i];
      NextWritten(batch, i, absent, SlotOf(cache, slot));
      WrittenIs(batch, i, absent);
      InLatest(batch, i);
      if k in seen {
        assert seen + {k} == seen;
        continue;
      }
      SearchedMidway(l, cache, cache', slot, batch, i, absent, isAbsent, ancestors);
      seen := seen + {k};
      if account.IsZeroLamport() && isAbsent(cache', k) {
        continue;
      }
      cache' := cache'[slot := SlotOf(cache', slot)[k := account]];
      stored := stored[i := true];
    }
    assert batch[0..] == batch;
  }

  lemma WrittenIs(batch: Batch, i: nat, absent: set<Pubkey>)
    requires i < |batch|
    ensures IsWritten(batch, i, absent) <==>
      batch[i].0 !in Latest(batch[i + 1..]).Keys && !(batch[i].1.IsZeroLamport() && batch[i].0 in absent)
  {
  }

  lemma NothingWritten(m: SlotAccounts, absent: set<Pubkey>)
    ensures Latest([]).Keys == {} && Over(m, Written([], absent)) == m
  {
  }

  // ---------- what a load sees ----------

  lemma ZeroStaysHidden(m: map<Slot, Account>, s: Slot, z: Account)
    requires L.Newest(m) == None && z.IsZeroLamport()
    ensures L.Newest(m[s := z]) == None
  {
    var m' := m[s := z];
    assert s in m'.Keys;
    var top := Max(m'.Keys);
    P.NewestIs(m', top);
    if top != s {
      assert forall t :: t in m ==> t in m'.Keys;
      P.NewestIs(m, top);
    }
  }

  /** Where an account cached at `s` turns up in the search of the cache. */
  lemma CachedChoice(cached: map<Slot, Account>, unflushed: set<Slot>, ancestors: set<Slot>, s: Slot, z: Account)
    ensures var roots, roots' := map t | t in cached && t in unflushed ::
      cached[t], map t | t in cached[s := z] && t in unflushed :: cached[s := z][t];
      var was, now := L.AncestorsFirst(cached, ancestors, roots), L.AncestorsFirst(cached[s := z], ancestors, roots');
      now == was || now == was[s := z] || now == map[s := z]
  {
  }

  /** Caching a zero balance for a key that answers as absent changes nothing, at any slot and for any ancestors. */
  lemma ZeroWriteUnseen(stored: map<Slot, Account>, cached: map<Slot, Account>, unflushed: set<Slot>,
                        ancestors: set<Slot>, s: Slot, z: Account)
    requires L.Search(stored, cached, unflushed, ancestors) == None && z.IsZeroLamport()
    ensures L.Search(stored, cached[s := z], unflushed, ancestors) == None
  {
    CachedChoice(cached, unflushed, ancestors, s, z);
    var roots := map t | t in cached && t in unflushed :: cached[t];
    var was := L.AncestorsFirst(cached, ancestors, roots);
    if was != map[] {
      ZeroStaysHidden(was, s, z);
    }
    var none: map<Slot, Account> := map[];
    ZeroStaysHidden(none, s, z);
  }

  /** The cache holds `now` at the slot and is otherwise as it was. */
  ghost predicate HasAtSlot(l: L.Ledger, l': L.Ledger, slot: Slot, now: SlotAccounts) {
    && l' == l.(cache := l'.cache)
    && SlotOf(l'.cache, slot) == now
    && forall s :: s != slot ==> SlotOf(l'.cache, s) == SlotOf(l.cache, s)
  }

  lemma CachedAfter(l: L.Ledger, l': L.Ledger, slot: Slot, now: SlotAccounts, k: Pubkey)
    requires HasAtSlot(l, l', slot, now)
    ensures L.Cached(l', k) == if k in now then L.Cached(l, k)[slot := now[k]] else L.Cached(l, k) - {slot}
  {
    var was, now' := L.Cached(l, k), L.Cached(l', k);
    forall s ensures s in was <==> k in SlotOf(l.cache, s) {
    }
    forall s ensures s in now' <==> k in SlotOf(l'.cache, s) {
    }
  }

  /**
   The cache written backwards, with the skipped accounts left out, answers every load for the same
   ancestors like the cache written forwards with every account.
   */
  lemma BackwardsLoadsLikeForwards(l: L.Ledger, back: L.Ledger, forth: L.Ledger, slot: Slot, batch: Batch,
                                   absent: set<Pubkey>,
                                   ancestors: set<Slot>, k: Pubkey)
    requires forall j :: j in Latest(batch) ==> (j in absent <==> L.LookUp(l, ancestors, j) == None)
    requires HasAtSlot(l, back, slot, Over(SlotOf(l.cache, slot), Written(batch, absent)))
    requires HasAtSlot(l, forth, slot, StoreForwards(SlotOf(l.cache, slot), batch))
    ensures L.LookUp(back, ancestors, k) == L.LookUp(forth, ancestors, k)
  {
    hide L.Search, HasAtSlot;
    var m := SlotOf(l.cache, slot);
    ForwardsIsLatest(m, batch);
    CachedAfter(l, back, slot, Over(m, Written(batch, absent)), k);
    CachedAfter(l, forth, slot, Over(m, Latest(batch)), k);
    Rest(l, back, slot, Over(m, Written(batch, absent)), k);
    Rest(l, forth, slot, Over(m, Latest(batch)), k);
    if k in Latest(batch) && k !in Written(batch, absent) {
      CachedIsSame(l, slot, k);
      ZeroWriteUnseen(L.Stored(l, k), L.Cached(l, k), l.unflushed, ancestors, slot, Latest(batch)[k]);
    }
  }

  lemma Rest(l: L.Ledger, l': L.Ledger, slot: Slot, now: SlotAccounts, k: Pubkey)
    requires HasAtSlot(l, l', slot, now)
    ensures L.Stored(l', k) == L.Stored(l, k) && l'.unflushed == l.unflushed
  {
  }

  lemma CachedIsSame(l: L.Ledger, slot: Slot, k: Pubkey)
    ensures var m := SlotOf(l.cache, slot);
      L.Cached(l, k) == if k in m then L.Cached(l, k)[slot := m[k]] else L.Cached(l, k) - {slot}
  {
  }
}
