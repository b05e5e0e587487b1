/** The account store itself: flush, clean, shrink, sweep and snapshot over its fields. */
module AccountsDb {
  import opened Types
  import opened StorageEntry
  import opened AccountsIndex
  import opened Reclaim
  import opened Flush
  import opened Clean
  import opened Shrink
  import opened Snapshot
  import opened View
  import L = Ledger
  import P = LedgerProofs
  import R = LedgerRuns
  import CP = CleanPurge
  import FK = FlushedKeys

  /** Which of a root's cached accounts a flush writes. */
  datatype PubkeysToStore = All | Only(keys: set<Pubkey>) {
    predicate Has(k: Pubkey) {
      this.All? || k in keys
    }
  }

  datatype FlushShouldClean = Yes(maxCleanRoot: Option<Slot>) | No

  predicate IsCleaned(maxCleanRoot: Option<Slot>, root: Slot) {
    maxCleanRoot.Some? ==> root <= maxCleanRoot.value
  }

  /** A newer root being flushed and cleaned holds the key too. */
  ghost predicate Replaced(cache: map<Slot, map<Pubkey, Account>>, roots: set<Slot>, maxCleanRoot: Option<Slot>,
                           root: Slot, k: Pubkey) {
    exists r :: r in roots && root < r && IsCleaned(maxCleanRoot, r) && r in cache && k in cache[r]
  }

  /** What to keep of a root: everything above the clean bound, elsewhere only each key's newest version. */
  ghost predicate KeepsNewest(cache: map<Slot, map<Pubkey, Account>>, roots: set<Slot>, maxCleanRoot: Option<Slot>,
                              root: Slot, keep: PubkeysToStore) {
    if !IsCleaned(maxCleanRoot, root) then keep.All?
    else keep.Only? && forall k ::
      k in keep.keys <==> root in cache && k in cache[root] && !Replaced(cache, roots, maxCleanRoot, root, k)
  }

  /** Chooses, newest root first, which root writes each account. */
  method SelectPubkeysToStore(cache: map<Slot, map<Pubkey, Account>>, roots: set<Slot>, maxCleanRoot: Option<Slot>)
    returns (keep: map<Slot, PubkeysToStore>)
    ensures keep.Keys == roots
    ensures forall r :: r in roots ==> KeepsNewest(cache, roots, maxCleanRoot, r, keep[r])
  {
    keep := map[];
    var todo, written := roots, {};
    while todo != {}
      invariant todo <= roots && keep.Keys == roots - todo
      invariant forall r, d :: r in todo && d in roots - todo ==> r < d
      invariant forall k :: k in written <==> exists d ::
        d in roots - todo && IsCleaned(maxCleanRoot, d) && d in cache && k in cache[d]
      invariant forall r :: r in keep ==> KeepsNewest(cache, roots, maxCleanRoot, r, keep[r])
    {
      MaxExists(todo);
      var root :| root in todo && forall s :: s in todo ==> s <= root;
      NewerAreDone(cache, roots, todo, maxCleanRoot, root);
      if IsCleaned(maxCleanRoot, root) {
        var mine := if root in cache then cache[root].Keys else {};
        keep := keep[root := Only(mine - written)];
        written := written + mine;
      } else {
        keep := keep[root := All];
      }
      todo := todo - {root};
    }
  }

  lemma NewerAreDone(cache: map<Slot, map<Pubkey, Account>>, roots: set<Slot>, todo: set<Slot>,
                     maxCleanRoot: Option<Slot>, root: Slot)
    requires todo <= roots && root in todo && (forall s :: s in todo ==> s <= root)
    requires forall r, d :: r in todo && d in roots - todo ==> r < d
    ensures forall k :: Replaced(cache, roots, maxCleanRoot, root, k) <==>
      exists d :: d in roots - todo && IsCleaned(maxCleanRoot, d) && d in cache && k in cache[d]
  {
    forall k ensures Replaced(cache, roots, maxCleanRoot, root, k) <==>
      exists d :: d in roots - todo && IsCleaned(maxCleanRoot, d) && d in cache && k in cache[d]
    {
      if Replaced(cache, roots, maxCleanRoot, root, k) {
        var r :| r in roots && root < r && IsCleaned(maxCleanRoot, r) && r in cache && k in cache[r];
        assert r in roots - todo;
      }
    }
  }

  /** Sizes of the records at `offsets`, added up in file order. */
  method DeadBytes(records: seq<Record>, offsets: set<nat>) returns (bytes: nat)
    ensures bytes == BytesAt(records, offsets)
  {
    bytes := 0;
    for i := 0 to |records|
      invariant bytes == BytesAt(records[..i], offsets)
    {
      assert records[..i + 1][..i] == records[..i];
      if i in offsets {
        bytes := bytes + RecordSize(records[i]);
      }
    }
    assert records[..|records|] == records;
  }

  /**
   Takes live records out of a storage. Reclaimed at the storage's own slot they stay counted, as
   tombstones; otherwise count and bytes fall by exactly what they held, by either of two paths.
   */
  method RemoveRecords(st: Storage, slot: Slot, offsets: set<nat>, mark: Slot) returns (after: Storage)
    requires st.Valid() && Reclaimable(st, offsets)
    requires mark == slot ==> forall o :: o in offsets ==> st.records[o].account.IsZeroLamport()
    ensures |offsets| <= st.aliveCount && BytesAt(st.records, offsets) <= st.aliveBytes
    ensures TakesOut(st, after, slot, offsets, mark) && after == AfterReclaim(st, slot, offsets, mark)
  {
    ReclaimTakesOut(st, slot, offsets, mark);
    after := Subtract(st, slot, offsets, mark);
  }

  method Subtract(st: Storage, slot: Slot, offsets: set<nat>, mark: Slot) returns (after: Storage)
    requires |offsets| <= st.aliveCount && BytesAt(st.records, offsets) <= st.aliveBytes
    ensures after == AfterReclaim(st, slot, offsets, mark)
  {
    if mark == slot {
      after := st.(tombstones := st.tombstones + offsets);
    } else if |offsets| == st.aliveCount {
      after := st.(aliveCount := 0, aliveBytes := 0);
    } else {
      var bytes := DeadBytes(st.records, offsets);
      after := st.(aliveCount := st.aliveCount - |offsets|, aliveBytes := st.aliveBytes - bytes,
                   obsolete := map i | i in st.obsolete.Keys + offsets ::
                     if i in offsets then mark else st.obsolete[i]);
    }
  }

  /** Everything to be reclaimed is pending, and what is reclaimed at the marking slot has no lamports. */
  ghost predicate CanSettleAll(storages: Storages, pending: Locations, offsets: SlotOffsets, mark: Slot) {
    forall s :: s in offsets ==> CanSettle(storages, pending, s, offsets[s], mark)
  }

  lemma ReadyToSettle(index: Index, storages: Storages, pending: Locations, slot: Slot, offsets: set<nat>, mark: Slot)
    requires Linked(index, storages, pending) && CanSettle(storages, pending, slot, offsets, mark)
    ensures slot in storages && storages[slot].Valid() && Reclaimable(storages[slot], offsets)
    ensures mark == slot ==> forall o :: o in offsets ==> storages[slot].records[o].account.IsZeroLamport()
  {
    SettleFits(storages, pending, slot, offsets, mark);
  }

  lemma AllFit(storages: Storages, pending: Locations, offsets: SlotOffsets, mark: Slot)
    requires StoragesOk(storages) && PendingOk(storages, pending) && CanSettleAll(storages, pending, offsets, mark)
    ensures Fits(storages, offsets)
  {
    forall s | s in offsets
      ensures |offsets[s]| <= storages[s].aliveCount
      ensures BytesAt(storages[s].records, offsets[s]) <= storages[s].aliveBytes
    {
      SettleFits(storages, pending, s, offsets[s], mark);
    }
  }

  /** Reclaiming slot by slot adds up to reclaiming everything at once. */
  lemma SettleNext(storages: Storages, offsets: SlotOffsets, done: set<Slot>, slot: Slot, mark: Slot,
                   full: Option<Slot>)
    requires Fits(storages, offsets) && slot in storages && slot in offsets && slot !in done
    ensures Fits(storages, Part(offsets, done)) && Fits(storages, Part(offsets, done + {slot}))
    ensures var now := SettleAll(storages, Part(offsets, done), mark, full);
      && slot in now && now[slot] == storages[slot]
      && SettleSlot(now, slot, offsets[slot], mark, full) ==
           SettleAll(storages, Part(offsets, done + {slot}), mark, full)
  {
    hide AfterReclaim, IsDead;
    var some, more := Part(offsets, done), Part(offsets, done + {slot});
    assert forall s :: s in some ==> some[s] == offsets[s];
    assert forall s :: s in more ==> more[s] == offsets[s];
    var now, next := SettleAll(storages, some, mark, full), SettleAll(storages, more, mark, full);
    assert now[slot] == storages[slot];
    var after := SettleSlot(now, slot, offsets[slot], mark, full);
    assert forall s :: s in after <==> s in next;
  }

  lemma PendingNext(was: Storages, now: Storages, pending: Locations, offsets: SlotOffsets, done: set<Slot>, slot: Slot,
                    mark: Slot)
    requires CanSettleAll(was, pending, offsets, mark) && slot in offsets && slot !in done
    requires slot in now && now[slot] == was[slot]
    ensures CanSettle(now, pending - Flat(Part(offsets, done)), slot, offsets[slot], mark)
    ensures pending - Flat(Part(offsets, done)) - Scaled(slot, offsets[slot]) ==
      pending - Flat(Part(offsets, done + {slot}))
  {
    assert CanSettle(was, pending, slot, offsets[slot], mark);
  }

  lemma NothingSettled(storages: Storages, pending: Locations, offsets: SlotOffsets, mark: Slot, full: Option<Slot>)
    ensures Part(offsets, offsets.Keys - offsets.Keys) == map[] && SettleAll(storages, map[], mark, full) == storages
    ensures pending - Flat(map[]) == pending
  {
  }

  lemma OneMore(all: set<Slot>, todo: set<Slot>, slot: Slot)
    requires slot in todo && todo <= all
    ensures all - todo + {slot} == all - (todo - {slot})
  {
  }

  lemma PartAll(offsets: SlotOffsets)
    ensures Part(offsets, offsets.Keys - {}) == offsets
  {
  }

  function Part(offsets: SlotOffsets, slots: set<Slot>): SlotOffsets {
    map s | s in offsets && s in slots :: offsets[s]
  }

  ghost function Flat(offsets: SlotOffsets): (locs: Locations)
    ensures forall s, o :: (s, o) in locs <==> s in offsets && o in offsets[s]
  {
    set s, o | s in offsets && o in offsets[s] :: (s, o)
  }

  /** A storage is never empty, belongs to a flushed root, and knows no mark beyond the clean bound. */
  ghost predicate StorageInPlace(st: Storage, s: Slot, cache: map<Slot, map<Pubkey, Account>>, unflushed: set<Slot>,
                                 maxRoot: Slot, cleaned: Slot, nextId: nat) {
    && st.aliveCount > 0 && st.id < nextId
    && s !in cache && s <= maxRoot && (forall r :: r in unflushed ==> s < r)
    && (forall i :: i in st.obsolete ==> st.obsolete[i] <= cleaned)
  }

  ghost predicate StoragesInPlace(storages: Storages, cache: map<Slot, map<Pubkey, Account>>, unflushed: set<Slot>,
                                  maxRoot: Slot, cleaned: Slot, nextId: nat) {
    forall s :: s in storages ==> StorageInPlace(storages[s], s, cache, unflushed, maxRoot, cleaned, nextId)
  }

  class AccountsDb {
    var index: Index
    var storages: Storages
    var cache: map<Slot, map<Pubkey, Account>>
    var unflushed: set<Slot>
    var maxRoot: Slot
    var fullSnapshot: Option<Slot>
    var nextId: nat
    ghost var archive: map<Pubkey, Account>   // what the latest full snapshot holds
    ghost var cleaned: Slot                   // older versions may be gone up to this slot

    /** The part of the ledger kept as it is. */
    ghost function Rest(): L.Ledger
      reads this
    {
      L.Ledger(cache, unflushed, maxRoot, map[], map[], fullSnapshot, archive, cleaned)
    }

    ghost function View(): L.Ledger
      reads this
    {
      ViewOf(index, storages, Rest())
    }

    ghost predicate Valid()
      reads this
    {
      && Linked(index, storages, {})
      && StoragesInPlace(storages, cache, unflushed, maxRoot, cleaned, nextId)
      && L.Inv(View())
    }

    /**
     The records an incremental snapshot at a fully flushed root reads, laid over what the latest full
     snapshot holds, rebuild what a bank at that root loads now and loaded at any time since the root
     was made. The run is any that leads here, such as the steps of the operations below.
     */
    lemma RestartIsSafe(states: seq<L.Ledger>, steps: seq<L.Step>, m: nat, slot: Slot, k: Pubkey)
      requires Valid() && (fullSnapshot.Some? ==> fullSnapshot.value <= slot) && cleaned <= slot
      requires forall r :: r in unflushed ==> slot < r
      requires R.IsRun(states, steps) && states[0] == L.Init() && states[|steps|] == View()
      requires m <= |steps| && L.HoldsRoot(states[m], slot)
      ensures Rebuilt(storages, fullSnapshot, archive, slot, k) == L.Load(states[m], {slot}, k)
    {
      MarksAreOld(storages, Rest(), nextId, slot);
      hide L.Inv, L.Restart, L.Load, L.Next, Linked, StoragesInPlace, Rebuilt;
      RebuiltIsRestart(index, storages, slot, Rest(), k);
      R.RestartIsSafe(states, steps, m, |steps|, slot, k);
    }

    constructor ()
      ensures Valid() && View() == L.Init()
    {
      index, storages, cache, unflushed, maxRoot, fullSnapshot, nextId := map[], map[], map[], {}, 0, None, 0;
      archive, cleaned := map[], 0;
      new;
      assert View() == L.Init();
    }

    /** Writes an account of a bank that is not rooted yet. */
    method StoreCached(slot: Slot, k: Pubkey, account: Account)
      requires Valid() && maxRoot < slot
      modifies this`cache
      ensures Valid() && L.Next(old(View()), L.Store(slot, k, account), View())
    {
      hide Linked, L.Inv, StoragesInPlace;
      ghost var l, rest := View(), Rest();
      var slotCache := if slot in cache then cache[slot] else map[];
      cache := cache[slot := slotCache[k := account]];
      WriterDone(index, storages, nextId, l, rest, L.Store(slot, k, account), Rest());
    }

    /** Makes a slot a root; roots come in increasing order. */
    method AddRoot(slot: Slot)
      requires Valid() && maxRoot < slot
      modifies this`unflushed, this`maxRoot
      ensures Valid() && L.Next(old(View()), L.AddRoot(slot), View())
    {
      hide Linked, L.Inv, StoragesInPlace;
      ghost var l, rest := View(), Rest();
      unflushed, maxRoot := unflushed + {slot}, slot;
      WriterDone(index, storages, nextId, l, rest, L.AddRoot(slot), Rest());
    }

    /** Forgets a slot that never became a root. */
    method PurgeUnrooted(slot: Slot)
      requires Valid() && slot !in unflushed
      modifies this`cache
      ensures Valid() && L.Next(old(View()), L.DropUnrooted(slot), View())
    {
      hide Linked, L.Inv, StoragesInPlace;
      ghost var l, rest := View(), Rest();
      cache := cache - {slot};
      WriterDone(index, storages, nextId, l, rest, L.DropUnrooted(slot), Rest());
    }

    /** Takes reclaimed records out of one slot's storage, and drops the storage if it dies. */
    method ReclaimFromSlot(slot: Slot, offsets: set<nat>, mark: Slot, ghost pending: Locations)
      requires Linked(index, storages, pending) && CanSettle(storages, pending, slot, offsets, mark)
      modifies this`storages
      ensures Linked(index, storages, pending - Scaled(slot, offsets))
      ensures |offsets| <= old(storages)[slot].aliveCount
      ensures BytesAt(old(storages)[slot].records, offsets) <= old(storages)[slot].aliveBytes
      ensures storages == SettleSlot(old(storages), slot, offsets, mark, fullSnapshot)
    {
      hide TakesOut, Linked, CanSettle, Reclaimable, AfterReclaim, StorageEntry.Storage.Valid;
      Settle(index, storages, pending, slot, offsets, mark, fullSnapshot);
      ReadyToSettle(index, storages, pending, slot, offsets, mark);
      var after := RemoveRecords(storages[slot], slot, offsets, mark);
      if after.aliveCount == 0 || (after.aliveCount == |after.tombstones| && CanPurge(fullSnapshot, slot)) {
        storages := storages - {slot};
      } else {
        storages := storages[slot := after];
      }
    }

    method RemoveDeadAccounts(offsets: SlotOffsets, mark: Slot, ghost pending: Locations)
      requires Linked(index, storages, pending) && CanSettleAll(storages, pending, offsets, mark)
      modifies this`storages
      ensures Linked(index, storages, pending - Flat(offsets))
      ensures Fits(old(storages), offsets) && storages == SettleAll(old(storages), offsets, mark, fullSnapshot)
    {
      var todo := offsets.Keys;
      NothingSettled(storages, pending, offsets, mark, fullSnapshot);
      while todo != {}
        invariant todo <= offsets.Keys
        invariant Settled(old(storages), pending, offsets, offsets.Keys - todo, mark)
      {
        var slot :| slot in todo;
        ReclaimNext(offsets, slot, mark, pending, old(storages), offsets.Keys - todo);
        OneMore(offsets.Keys, todo, slot);
        todo := todo - {slot};
      }
      PartAll(offsets);
    }

    /** The state once the slots in `done` have been dealt with. */
    ghost predicate Settled(was: Storages, pending: Locations, offsets: SlotOffsets, done: set<Slot>, mark: Slot)
      reads this
    {
      && Linked(index, storages, pending - Flat(Part(offsets, done)))
      && Fits(was, Part(offsets, done))
      && storages == SettleAll(was, Part(offsets, done), mark, fullSnapshot)
    }

    method ReclaimNext(offsets: SlotOffsets, slot: Slot, mark: Slot, ghost pending: Locations, ghost was: Storages,
                       ghost done: set<Slot>)
      requires StoragesOk(was) && PendingOk(was, pending) && CanSettleAll(was, pending, offsets, mark)
      requires slot in offsets && slot !in done && Settled(was, pending, offsets, done, mark)
      modifies this`storages
      ensures Settled(was, pending, offsets, done + {slot}, mark)
    {
      AllFit(was, pending, offsets, mark);
      SettleNext(was, offsets, done, slot, mark, fullSnapshot);
      PendingNext(was, storages, pending, offsets, done, slot, mark);
      ReclaimFromSlot(slot, offsets[slot], mark, pending - Flat(Part(offsets, done)));
    }
  
    // ---------- flush ----------

    /** The accounts of `slot` to write: those selected, except zero-lamport ones with nothing older in the index. */
    method SelectRecords(slot: Slot, keep: PubkeysToStore) returns (records: seq<Record>)
      requires slot in cache
      ensures FromCache(records, cache[slot])
      ensures forall k :: k in Keys(records) <==>
        k in cache[slot] && keep.Has(k) && !(cache[slot][k].IsZeroLamport() && k !in index)
    {
      var todo := cache[slot].Keys;
      records := [];
      while todo != {}
        invariant todo <= cache[slot].Keys && FromCache(records, cache[slot])
        invariant forall k :: k in Keys(records) <==>
          k in cache[slot] && k !in todo && keep.Has(k) && !(cache[slot][k].IsZeroLamport() && k !in index)
      {
        var k :| k in todo;
        var account := cache[slot][k];
        if keep.Has(k) && !(account.IsZeroLamport() && k !in index) {
          KeysGrow(records, Record(k, account));
          records := records + [Record(k, account)];
        }
        todo := todo - {k};
      }
    }

    /** Puts written records into the index; returns what that pushes out or buries. */
    method IndexRecords(slot: Slot, id: nat, records: seq<Record>, reclaim: bool) returns (reclaims: Locations)
      requires Linked(index, storages, Unindexed(slot, records, 0)) && DistinctKeys(records) && AllOlder(index, slot)
      requires slot in storages && storages[slot] == Written(id, records, {})
      modifies this`index
      ensures Linked(index, storages, reclaims)
      ensures IndexedUpTo(old(index), index, slot, id, records, reclaim, |records|)
      ensures ReclaimsUpTo(reclaims, slot, records, reclaim, |records|)
    {
      reclaims := {};
      NoReclaims(Unindexed(slot, records, 0));
      for i := 0 to |records|
        invariant Linked(index, storages, reclaims + Unindexed(slot, records, i))
        invariant IndexedUpTo(old(index), index, slot, id, records, reclaim, i)
        invariant ReclaimsUpTo(reclaims, slot, records, reclaim, i)
      {
        var k, info := records[i].key, InfoOf(id, records, i);
        NextIndexed(old(index), index, slot, id, records, reclaim, i);
        NextReclaims(reclaims, Slots(index, k), slot, records, reclaim, i);
        NextLinked(index, storages, reclaims, slot, id, records, reclaim, i);
        reclaims := reclaims + FlushReclaims(Slots(index, k), slot, i, info.zeroLamport, reclaim);
        if info.zeroLamport && reclaim {
          index := index - {k};
        } else {
          UpsertCounts(index, k, slot, info, reclaim);
          index := Upsert(index, k, slot, info, reclaim);
        }
      }
      NothingUnindexed(reclaims, slot, records);
    }

    /** Writes records into a new storage, indexes them and handles what that reclaims. */
    method StoreForFlush(slot: Slot, id: nat, records: seq<Record>, reclaim: bool) returns (reclaims: Locations)
      requires Linked(index, storages, {}) && DistinctKeys(records) && AllOlder(index, slot) && slot !in storages
      modifies this`index, this`storages
      ensures Linked(index, storages, {})
      ensures IndexedUpTo(old(index), index, slot, id, records, reclaim, |records|)
      ensures ReclaimsUpTo(reclaims, slot, records, reclaim, |records|)
      ensures AllFared(old(storages)[slot := Written(id, records, {})], storages, GroupBySlot(reclaims), slot,
        fullSnapshot)
    {
      WrittenIsLinked(index, storages, slot, id, records);
      storages := storages[slot := Written(id, records, {})];
      reclaims := IndexRecords(slot, id, records, reclaim);
      SettleReclaims(slot, records, reclaims, reclaim);
    }

    method SettleReclaims(slot: Slot, ghost records: seq<Record>, reclaims: Locations, ghost reclaim: bool)
      requires Linked(index, storages, reclaims) && ReclaimsUpTo(reclaims, slot, records, reclaim, |records|)
      requires slot in storages && storages[slot].records == records
      modifies this`storages
      ensures Linked(index, storages, {})
      ensures AllFared(old(storages), storages, GroupBySlot(reclaims), slot, fullSnapshot)
    {
      ReclaimsSettle(storages, reclaims, slot, records, reclaim, fullSnapshot);
      RemoveDeadAccounts(GroupBySlot(reclaims), slot, reclaims);
      AllSettled(reclaims);
    }

    method FlushRecords(slot: Slot, records: seq<Record>, reclaim: bool, ghost clean: Option<Slot>,
                        ghost rest: L.Ledger)
      requires Linked(index, storages, {}) && AllOlder(index, slot)
      requires StoragesInPlace(storages, rest.cache, rest.unflushed, rest.maxRoot, rest.cleaned, nextId)
      requires slot in rest.unflushed && slot in rest.cache && slot <= rest.maxRoot
      requires forall r :: r in rest.unflushed ==> slot <= r
      requires records != [] && FromCache(records, rest.cache[slot]) && reclaim == clean.Some?
      requires rest.full == fullSnapshot
      requires L.KeptIsRight(ViewOf(index, storages, rest), slot, clean, Keys(records))
      modifies this`index, this`storages, this`nextId
      ensures Linked(index, storages, {})
      ensures L.FlushStep(ViewOf(old(index), old(storages), rest), slot, clean, Keys(records),
        ViewOf(index, storages, AfterFlush(rest, slot, clean)))
      ensures var rest' := AfterFlush(rest, slot, clean);
        StoragesInPlace(storages, rest'.cache, rest'.unflushed, rest'.maxRoot, rest'.cleaned, nextId)
    {
      hide Linked, L.FlushStep, L.KeptIsRight, StoragesInPlace, AllFared, IndexedUpTo, ReclaimsUpTo;
      NotYetStored(storages, rest, nextId, slot);
      LinkedNoDangling(index, storages);
      var id := nextId;
      nextId := nextId + 1;
      ghost var reclaims := StoreForFlush(slot, id, records, reclaim);
      NoOffsets(reclaims, slot, records, reclaim);
      BoundIsReached(ViewOf(old(index), old(storages), rest), slot, clean, Keys(records));
      FlushedInPlace(old(storages), storages, slot, id, records, GroupBySlot(reclaims), clean, rest);
      LinkedNoDangling(index, storages);
      FlushIsStep(old(index), index, old(storages), storages, slot, id, records, reclaims, clean, rest,
        AfterFlush(rest, slot, clean));
    }

    /** Writes what must be written of a root, leaving the cache as it is. */
    method FlushContents(slot: Slot, keep: PubkeysToStore, ghost clean: Option<Slot>, ghost rest: L.Ledger)
      returns (ghost kept: set<Pubkey>)
      requires Linked(index, storages, {}) && AllOlder(index, slot) && rest == Rest()
      requires StoragesInPlace(storages, rest.cache, rest.unflushed, rest.maxRoot, rest.cleaned, nextId)
      requires slot in unflushed && slot in cache && slot <= maxRoot && forall r :: r in unflushed ==> slot <= r
      requires keep.Only? == clean.Some? && KeepIsRight(ViewOf(index, storages, rest), slot, keep, clean)
      modifies this`index, this`storages, this`nextId
      ensures Linked(index, storages, {})
      ensures kept == set k | k in cache[slot] && keep.Has(k) && !(cache[slot][k].IsZeroLamport() && k !in old(index))
      ensures L.FlushStep(ViewOf(old(index), old(storages), rest), slot, clean, kept,
        ViewOf(index, storages, AfterFlush(rest, slot, clean)))
      ensures var rest' := AfterFlush(rest, slot, clean);
        StoragesInPlace(storages, rest'.cache, rest'.unflushed, rest'.maxRoot, rest'.cleaned, nextId)
    {
      hide Linked, L.FlushStep, L.KeptIsRight, StoragesInPlace, KeepIsRight;
      var records := SelectRecords(slot, keep);
      kept := Keys(records);
      KeptHolds(ViewOf(index, storages, rest), slot, keep, clean, kept);
      if records != [] {
        FlushRecords(slot, records, keep.Only?, clean, rest);
      } else {
        assert kept == {};
        FlushNoneIsStep(index, storages, slot, clean, rest);
        InPlaceLater(storages, cache, unflushed, maxRoot, cleaned, nextId, slot, clean);
      }
    }

    /**
     Moves one root from the write cache to storage. With `Only`, superseded versions are dropped,
     older stored versions are reclaimed and stored zero-lamport accounts become tombstones.
     */
    method FlushSlot(slot: Slot, keep: PubkeysToStore, ghost clean: Option<Slot>) returns (ghost kept: set<Pubkey>)
      requires Valid() && slot in unflushed && slot in cache && forall r :: r in unflushed ==> slot <= r
      requires keep.Only? == clean.Some? && KeepIsRight(View(), slot, keep, clean)
      modifies this
      ensures Valid()
      ensures kept == set k | k in old(cache)[slot] && keep.Has(k) &&
        !(old(cache)[slot][k].IsZeroLamport() && k !in old(index))
      ensures L.Next(old(View()), L.Flush(slot, clean, kept), View())
      ensures cache == old(cache) - {slot} && unflushed == old(unflushed) - {slot}
      ensures maxRoot == old(maxRoot) && fullSnapshot == old(fullSnapshot)
    {
      hide Linked, L.Inv, L.FlushStep, L.Next, StoragesInPlace, KeepIsRight;
      ghost var l, rest := View(), Rest();
      AllOlderHolds(index, storages, rest, slot);
      kept := FlushContents(slot, keep, clean, rest);
      FlushDone(l, slot, clean, kept, index, storages, AfterFlush(rest, slot, clean));
      cache, unflushed := cache - {slot}, unflushed - {slot};
      cleaned := L.Raised(cleaned, clean);
    }

    /** Flushes the oldest unflushed root, whether or not it has anything cached. */
    method FlushRoot(root: Slot, keep: PubkeysToStore, ghost bound: Slot) returns (ghost step: L.Step)
      requires Valid() && root in unflushed && forall r :: r in unflushed ==> root <= r
      requires keep.Only? ==> KeepIsRight(View(), root, keep, Some(bound))
      modifies this
      ensures Valid() && L.Next(old(View()), step, View())
      ensures L.IsCollection(step) && L.CleanBound(step) <= if keep.Only? then bound else 0
      ensures RootStored(old(View()), root, keep, View())
      ensures cache == old(cache) - {root} && unflushed == old(unflushed) - {root}
      ensures maxRoot == old(maxRoot) && fullSnapshot == old(fullSnapshot)
    {
      hide Linked, L.Inv, L.Next, StoragesInPlace, KeepIsRight, RootStored;
      ghost var l := View();
      if root in cache {
        ghost var clean: Option<Slot> := if keep.Only? then Some(bound) else None;
        KeepsAll(l, root, keep);
        ghost var kept := FlushSlot(root, keep, clean);
        step := L.Flush(root, clean, kept);
        FlushStores(l, root, keep, clean, kept, View());
      } else {
        FlushNothingDone(index, storages, Rest(), root, nextId);
        assert cache - {root} == cache;
        unflushed := unflushed - {root};
        step := L.FlushNothing(root);
        FlushNothingStores(l, root, keep, View());
      }
    }

    /**
     Flushes every root up to `requested`, oldest first. Cleaning, each account is written once, from
     the newest root within the clean bound that holds it, and replaces every older version. Other
     roots write what they hold beside what is stored. No bank that sees every root up to the bound can
     tell the difference.
     */
    method FlushRooted(requested: Option<Slot>, should: FlushShouldClean)
      requires Valid()
      modifies this
      ensures Valid()
      ensures var roots := set r | r in old(unflushed) && (requested.Some? ==> r <= requested.value);
        cache == old(cache) - roots && unflushed == old(unflushed) - roots
      ensures maxRoot == old(maxRoot) && fullSnapshot == old(fullSnapshot)
      ensures R.Reaches(old(View()), View()) && P.SameLoads(old(View()), View(), FlushBound(should, maxRoot))
      ensures var roots := set r | r in old(unflushed) && (requested.Some? ==> r <= requested.value);
        KeysFlushed(old(View()), View(), roots, should, roots)
    {
      hide R.Reaches, Linked, L.Inv, L.Next, StoragesInPlace, KeepIsRight, P.SameLoads, KeepsNewest, KeysFlushed,
        RootStored, ChosenFor;
      var roots := set r | r in unflushed && (requested.Some? ==> r <= requested.value);
      var keep: map<Slot, PubkeysToStore>;
      if should.Yes? {
        keep := SelectPubkeysToStore(cache, roots, should.maxCleanRoot);
      } else {
        keep := map r | r in roots :: All;
      }
      NewestChosen(cache, roots, should, keep);
      var todo := roots;
      NoKeysFlushed(View(), roots, should);
      assert roots - todo == {};
      P.SameLoadsRefl(View(), FlushBound(should, maxRoot));
      R.ReachesItself(View());
      while todo != {}
        invariant Valid() && RootsLeft(old(cache), old(unflushed), roots, todo, cache, unflushed)
        invariant forall r, d :: r in todo && d in roots - todo ==> d < r
        invariant maxRoot == old(maxRoot) && fullSnapshot == old(fullSnapshot)
        invariant R.Reaches(old(View()), View()) && P.SameLoads(old(View()), View(), FlushBound(should, maxRoot))
        invariant KeysFlushed(old(View()), View(), roots, should, roots - todo)
      {
        MinExists(todo);
        var root :| root in todo && forall r :: r in todo ==> root <= r;
        OldestRoot(old(unflushed), roots, todo, unflushed, requested, root);
        if should.Yes? {
          RootsBelowMax(View());
          ChosenIsRight(View(), old(cache), old(unflushed), roots, todo, should.maxCleanRoot, root, keep[root]);
        }
        RootDone(old(cache), old(unflushed), roots, todo, cache, unflushed, root);
        ghost var mid := View();
        ghost var step := FlushRoot(root, keep[root], FlushBound(should, maxRoot));
        P.SameLoadsStep(old(View()), mid, step, View(), FlushBound(should, maxRoot));
        R.ReachesStep(old(View()), mid, step, View());
        KeysFlushedNext(old(View()), mid, View(), roots, todo, should, root, keep[root]);
        todo := todo - {root};
      }
      assert roots - {} == roots;
    }

    // ---------- clean ----------

    /** Takes a key's older entries, and a lone zero-lamport one, out of the index. */
    method CollectReclaims(k: Pubkey, root: Slot) returns (marks: Marks)
      requires EntriesOk(index)
      modifies this`index
      ensures marks == CleanMarks(Slots(old(index), k), root)
      ensures index == WithSlots(old(index), k, CleanedList(Slots(old(index), k), root))
    {
      if k !in index {
        assert index - {k} == index;
        NothingToClean(root);
        return map[];
      }
      var list, refCount := index[k].slotList, index[k].refCount;
      var newest := FindNewest(list, root);
      var left := map s | s in list && newest <= s :: list[s];
      CutList(list, root);
      marks := MarksFrom(list, root, newest);
      var unref := |list| - |left|;
      if refCount == unref + 1 && forall s :: s in left ==> left[s].zeroLamport {
        index := index - {k};
      } else {
        index := index[k := Entry(left, refCount - unref)];
      }
    }

    method CollectAllReclaims(keys: set<Pubkey>, root: Slot) returns (marks: Marks)
      requires Linked(index, storages, {})
      modifies this`index
      ensures Linked(index, storages, marks.Keys) && CleanedIndex(old(index), index, keys, root)
      ensures MarksRight(old(index), storages, marks, keys, root) && LoneZerosMarked(old(index), marks, keys, root)
    {
      hide NoDangling, AllIndexed, PendingOk, StoragesOk, CleanedIndex, MarksRight, LoneZerosMarked;
      marks := map[];
      var todo := keys;
      NothingMarked(index, storages, root);
      assert keys - todo == {} && marks.Keys == {};
      while todo != {}
        invariant todo <= keys && Linked(index, storages, marks.Keys)
        invariant CleanedIndex(old(index), index, keys - todo, root)
        invariant MarksRight(old(index), storages, marks, keys - todo, root)
        invariant LoneZerosMarked(old(index), marks, keys - todo, root)
      {
        var k :| k in todo;
        OneMore(keys, todo, k);
        IndexNextKey(old(index), index, keys - todo, k, root);
        CleanNextKey(index, storages, marks, k, root);
        MarksGrow(old(index), storages, marks, keys - todo, k, root);
        LoneZerosGrow(old(index), marks, keys - todo, k, root);
        var more := CollectReclaims(k, root);
        marks := marks + more;
        todo := todo - {k};
      }
      assert keys - {} == keys;
    }

    /** Handles one reclaim of a clean. */
    method ReclaimOne(slot: Slot, offset: nat, mark: Slot, ghost pending: Locations)
      requires Linked(index, storages, pending) && (slot, offset) in pending
      requires mark == slot ==>
        offset < |storages[slot].records| && storages[slot].records[offset].account.IsZeroLamport()
      modifies this`storages
      ensures Linked(index, storages, pending - {(slot, offset)})
      ensures AllFared(old(storages), storages, map[slot := {offset}], mark, fullSnapshot)
    {
      hide NoDangling, AllIndexed, AllFared, StoragesOk;
      OneSettles(storages, pending, slot, offset, mark, fullSnapshot);
      FlatOne(slot, offset);
      RemoveDeadAccounts(map[slot := {offset}], mark, pending);
    }

    method HandleMarks(marks: Marks, root: Slot)
      requires Linked(index, storages, marks.Keys) && OwnAreZero(storages, marks)
      requires forall p :: p in marks ==> marks[p] == p.0 || marks[p] <= root
      modifies this`storages
      ensures Linked(index, storages, {})
      ensures CleanedStorages(old(storages), storages, marks, root, fullSnapshot)
      ensures MarksLand(old(storages), storages, marks)
    {
      hide NoDangling, AllIndexed, AllFared, StoragesOk, CleanedStorages, MarksLandAt;
      var todo := marks.Keys;
      NoneCleaned(storages, root, fullSnapshot);
      NoMarks(storages);
      assert Without(marks, todo) == map[];
      while todo != {}
        invariant todo <= marks.Keys && Linked(index, storages, todo)
        invariant CleanedStorages(old(storages), storages, Without(marks, todo), root, fullSnapshot)
        invariant MarksLand(old(storages), storages, Without(marks, todo))
      {
        var p :| p in todo;
        OneFewer(marks, todo, p);
        SameRecords(old(storages), storages, Without(marks, todo), root, fullSnapshot, p.0, p.1, todo);
        ghost var mid := storages;
        ReclaimOne(p.0, p.1, marks[p], todo);
        CleanNextReclaim(old(storages), mid, storages, Without(marks, todo), p.0, p.1, marks[p], root, fullSnapshot);
        MarksLandNext(old(storages), mid, storages, Without(marks, todo), p.0, p.1, marks[p], fullSnapshot);
        todo := todo - {p};
      }
      assert Without(marks, {}) == marks;
    }

    /**
     Cleans the given keys up to `root`: the index keeps only the newest entry at or below it and
     newer ones, and a zero-lamport account left alone becomes a tombstone. The phase that would purge
     whole slots then never finds a key to purge.
     */
    method CleanAccounts(keys: set<Pubkey>, root: Slot) returns (purged: set<Pubkey>)
      requires Valid()
      modifies this
      ensures Valid() && purged == {}
      ensures L.Next(old(View()), L.Clean(keys, root), View())
      ensures P.SameLoads(old(View()), View(), root)
      ensures forall s :: s in storages ==>
        s in old(storages) && CleanMarked(old(index), old(storages)[s], storages[s], keys, root)
    {
      hide Linked, L.Inv, L.Next, StoragesInPlace, CleanedIndex, MarksRight, LoneZerosMarked, CleanedStorages,
        P.SameLoads, L.CleanStep, MarksLand, CleanMarked;
      ghost var l, rest := View(), Rest();
      LinkedNoDangling(index, storages);
      var candidates := CP.GatherCandidates(index, keys, root);
      var marks := CollectAllReclaims(keys, root);
      OwnMarksAreZero(old(index), storages, marks, keys, root);
      HandleMarks(marks, root);
      MarksAreNewest(old(index), old(storages), storages, marks, keys, root, fullSnapshot);
      purged := CP.KeysToPurge(old(index), index, storages, keys, root, candidates, fullSnapshot);
      LinkedNoDangling(index, storages);
      CleanIsStep(old(index), index, old(storages), storages, keys, marks, root, rest);
      CleanedInPlace(old(storages), storages, marks, root, rest, nextId);
      CleanDone(l, keys, root, index, storages, AfterClean(rest, root));
      cleaned := L.Raised(cleaned, Some(root));
      P.SameLoadsRefl(l, root);
      P.SameLoadsStep(l, l, L.Clean(keys, root), View(), root);
    }

    // ---------- shrink ----------

    /** Points the index at the rewritten records and drops lone zero-lamport entries. */
    method UpdateIndexForShrink(slot: Slot, id: nat, alive: seq<nat>, singles: set<Pubkey>)
      requires Linked(index, storages, {}) && slot in storages
      requires CollectsAlive(index, storages[slot], slot, |storages[slot].records|, alive)
      requires CollectsSingles(index, storages[slot], slot, |storages[slot].records|, singles)
      modifies this`index
      ensures EntriesOk(index) && ShrunkIndex(old(index), index, storages[slot], slot, id, alive, singles, |alive|)
    {
      hide NoDangling, AllIndexed, ShrunkIndex, CollectsAlive, CollectsSingles;
      var st := storages[slot];
      NoneReplaced(index, storages, slot, id, alive);
      for j := 0 to |alive|
        invariant EntriesOk(index) && ShrunkIndex(old(index), index, st, slot, id, alive, {}, j)
      {
        ReplaceNext(old(index), index, storages, slot, id, alive, j);
        var r := st.records[alive[j]];
        var info := Info(id, j, r.account.IsZeroLamport());
        ReplaceCounts(index, r.key, slot, info);
        RelinkEntries(index, r.key, Slots(index, r.key)[slot := info]);
        index := Replace(index, r.key, slot, info);
      }
      var todo := singles;
      assert singles - todo == {};
      while todo != {}
        invariant todo <= singles && EntriesOk(index)
        invariant ShrunkIndex(old(index), index, st, slot, id, alive, singles - todo, |alive|)
      {
        var k :| k in todo;
        OneMore(singles, todo, k);
        SinglesNotMoved(old(index), st, slot, alive, singles, k);
        DropNext(old(index), index, st, slot, id, alive, singles - todo, k);
        RelinkEntries(index, k, map[]);
        index := index - {k};
        todo := todo - {k};
      }
      assert singles - {} == singles;
    }

    /** Puts the rewritten storage in the old one's place. */
    method CommitShrink(slot: Slot, canPurge: bool, alive: seq<nat>, carried: seq<nat>, singles: set<Pubkey>)
      requires Valid() && slot in storages && canPurge == CanPurge(fullSnapshot, slot) && alive + carried != []
      requires Collected(index, storages[slot], slot, canPurge, |storages[slot].records|, alive, carried, singles)
      modifies this`index, this`storages, this`nextId
      ensures Valid() && L.Next(old(View()), L.Shrink(slot), View())
      ensures forall j :: 0 <= j < |alive| + |carried| ==> (alive + carried)[j] < |old(storages)[slot].records|
      ensures storages == old(storages)[slot := ShrunkStorage(old(storages)[slot], old(nextId), alive, carried)]
    {
      hide NoDangling, AllIndexed, StoragesOk, PendingOk, ShrunkIndex, CollectsAlive, CollectsCarried, CollectsSingles,
        L.Inv, L.Next, StoragesInPlace;
      ghost var rest := Rest();
      var id := nextId;
      nextId := nextId + 1;
      UpdateIndexForShrink(slot, id, alive, singles);
      ShrinkFinishes(old(index), index, storages, slot, canPurge, id, alive, carried, singles, rest);
      storages := storages[slot := ShrunkStorage(storages[slot], id, alive, carried)];
    }

    /**
     Rewrites a slot's storage without its obsolete records. A lone zero-lamport account leaves the
     index; its record stays as a tombstone while the slot is newer than the latest full snapshot.
     Nothing happens unless the rewrite is smaller than the file and not empty.
     */
    method ShrinkSlot(slot: Slot) returns (done: bool)
      requires Valid()
      modifies this
      ensures Valid()
      ensures !done ==> View() == old(View()) && index == old(index) && storages == old(storages)
      ensures done ==> L.Next(old(View()), L.Shrink(slot), View()) && P.SameLoads(old(View()), View(), 0)
      ensures done ==> slot in old(storages) && slot in storages && storages[slot].obsolete == map[] &&
                       storages[slot].aliveBytes < BytesOutside(old(storages)[slot].records, {})
      ensures done <==>
        && slot !in old(cache) && slot in old(storages)
        && (exists i: nat :: LeavesOut(old(index), old(storages)[slot], slot, old(fullSnapshot), i))
        && (exists i: nat :: i < |old(storages)[slot].records| &&
              !LeavesOut(old(index), old(storages)[slot], slot, old(fullSnapshot), i))
    {
      hide LeavesOut, Linked, Collected, L.Inv, L.Next, StoragesInPlace, P.SameLoads, StorageEntry.Storage.Valid;
      if slot in cache || slot !in storages {
        return false;
      }
      ghost var l := View();
      StorageIsValid(index, storages, slot);
      var st, canPurge := storages[slot], CanPurge(fullSnapshot, slot);
      var alive, carried, singles := ShrinkCollect(index, st, slot, canPurge);
      CollectedFits(index, st, slot, canPurge, alive, carried, singles);
      var written := TotalSize(st.records);
      var rewrite := TotalSize(RecordsAt(st, alive + carried));
      RewritePays(index, st, slot, fullSnapshot, alive, carried, singles);
      if rewrite >= written || rewrite == 0 {
        return false;
      }
      CommitShrink(slot, canPurge, alive, carried, singles);
      P.SameLoadsRefl(l, 0);
      P.SameLoadsStep(l, l, L.Shrink(slot), View(), 0);
      return true;
    }

    // ---------- snapshot and sweep ----------

    /** Takes a full snapshot of every storage up to `slot`. */
    method TakeFullSnapshot(slot: Slot)
      requires Valid() && cleaned <= slot <= maxRoot && (fullSnapshot.Some? ==> fullSnapshot.value <= slot)
      requires forall r :: r in unflushed ==> slot < r
      modifies this
      ensures Valid() && fullSnapshot == Some(slot)
      ensures L.Next(old(View()), L.FullSnapshot(slot), View())
    {
      hide Linked, L.Inv, L.Next, StoragesInPlace;
      SnapshotDone(index, storages, slot, Rest(), nextId);
      fullSnapshot := Some(slot);
      archive := ArchiveOf(storages, slot);
    }

    /** Drops the storages a full snapshot has just come to cover that hold nothing but tombstones. */
    method SweepSlots(lastSwept: Slot) returns (ghost gone: set<Slot>)
      requires Valid() && fullSnapshot.Some?
      modifies this`storages
      ensures Valid()
      ensures gone == set s | s in old(storages) && lastSwept < s <= fullSnapshot.value &&
        old(storages)[s].HasOnlyTombstones()
      ensures storages == old(storages) - gone && L.Next(old(View()), L.Sweep(gone), View())
    {
      hide Linked, L.Inv, L.Next, StoragesInPlace;
      ghost var l, rest := View(), Rest();
      gone := {};
      assert storages - gone == storages;
      var slot := lastSwept + 1;
      while slot <= fullSnapshot.value
        invariant Linked(index, storages, {}) && lastSwept < slot
        invariant StoragesInPlace(storages, rest.cache, rest.unflushed, rest.maxRoot, rest.cleaned, nextId)
        invariant storages == old(storages) - gone
        invariant gone == set s | s in old(storages) && lastSwept < s < slot && s <= fullSnapshot.value &&
          old(storages)[s].HasOnlyTombstones()
      {
        if slot in storages && storages[slot].HasOnlyTombstones() {
          SweepOne(index, storages, slot);
          SweptInPlace(storages, rest, nextId, slot);
          storages := storages - {slot};
          gone := gone + {slot};
        }
        slot := slot + 1;
      }
      SweepDone(index, old(storages), storages, gone, rest);
    }
  }

  /**
   What a clean marks obsolete stays in a snapshot taken at a slot older than the version that replaces
   it, and is left out of every later one.
   */
  lemma CleanSparesOlderSnapshots(was: Index, before: Storage, after: Storage, keys: set<Pubkey>, root: Slot,
                                  slot: Slot, i: nat)
    requires CleanMarked(was, before, after, keys, root) && i < |before.records|
    ensures var newest := NewestUpTo(Slots(was, before.records[i].key), root);
      && (slot < newest || i !in after.obsolete ==> (InSnapshot(after, slot, i) <==> InSnapshot(before, slot, i)))
      && (newest <= slot && i in after.obsolete && i !in before.obsolete ==> !InSnapshot(after, slot, i))
  {
    if i in after.obsolete && i !in before.obsolete {
      assert after.obsolete[i] == NewestUpTo(Slots(was, before.records[i].key), root);
    }
  }

  lemma SweptInPlace(storages: Storages, rest: L.Ledger, nextId: nat, slot: Slot)
    requires StoragesInPlace(storages, rest.cache, rest.unflushed, rest.maxRoot, rest.cleaned, nextId)
    ensures StoragesInPlace(storages - {slot}, rest.cache, rest.unflushed, rest.maxRoot, rest.cleaned, nextId)
  {
  }

  lemma SweepDone(index: Index, storages: Storages, swept: Storages, gone: set<Slot>, rest: L.Ledger)
    requires L.Inv(ViewOf(index, storages, rest)) && swept == storages - gone && Linked(index, swept, {})
    requires forall s :: s in gone ==> CanPurge(rest.full, s)
    ensures L.Next(ViewOf(index, storages, rest), L.Sweep(gone), ViewOf(index, swept, rest))
    ensures L.Inv(ViewOf(index, swept, rest))
  {
    SweepIsStep(index, storages, swept, gone, rest);
    ViewHasNoEmpty(index, swept, {}, rest);
    P.StepKeepsInv(ViewOf(index, storages, rest), L.Sweep(gone), ViewOf(index, swept, rest));
  }

  lemma SnapshotDone(index: Index, storages: Storages, slot: Slot, rest: L.Ledger, nextId: nat)
    requires L.Inv(ViewOf(index, storages, rest)) && Linked(index, storages, {})
    requires StoragesInPlace(storages, rest.cache, rest.unflushed, rest.maxRoot, rest.cleaned, nextId)
    requires L.Base(rest) <= slot && rest.cleaned <= slot <= rest.maxRoot
    requires forall r :: r in rest.unflushed ==> slot < r
    ensures var rest' := rest.(full := Some(slot), archive := ArchiveOf(storages, slot));
      && L.Next(ViewOf(index, storages, rest), L.FullSnapshot(slot), ViewOf(index, storages, rest')) &&
           L.Inv(ViewOf(index, storages, rest'))
      && StoragesInPlace(storages, rest'.cache, rest'.unflushed, rest'.maxRoot, rest'.cleaned, nextId)
  {
    var rest' := rest.(full := Some(slot), archive := ArchiveOf(storages, slot));
    assert forall s :: s in storages ==>
      StorageInPlace(storages[s], s, rest.cache, rest.unflushed, rest.maxRoot, rest.cleaned, nextId);
    SnapshotIsStep(index, storages, slot, rest);
    ViewHasNoEmpty(index, storages, {}, rest');
    P.StepKeepsInv(ViewOf(index, storages, rest), L.FullSnapshot(slot), ViewOf(index, storages, rest'));
  }

  lemma CollectedFits(index: Index, st: Storage, slot: Slot, canPurge: bool, alive: seq<nat>, carried: seq<nat>,
                      singles: set<Pubkey>)
    requires st.Valid() && Collected(index, st, slot, canPurge, |st.records|, alive, carried, singles)
    ensures forall j :: 0 <= j < |alive + carried| ==> (alive + carried)[j] < |st.records|
  {
    ShrunkFits(index, st, slot, canPurge, alive, carried);
  }

  lemma RewritePays(index: Index, st: Storage, slot: Slot, full: Option<Slot>, alive: seq<nat>, carried: seq<nat>,
                    singles: set<Pubkey>)
    requires st.Valid() && Collected(index, st, slot, CanPurge(full, slot), |st.records|, alive, carried, singles)
    requires forall j :: 0 <= j < |alive + carried| ==> (alive + carried)[j] < |st.records|
    ensures var rewrite, written := BytesOutside(RecordsAt(st, alive + carried), {}), BytesOutside(st.records, {});
      && (rewrite < written <==> exists i: nat :: LeavesOut(index, st, slot, full, i))
      && (rewrite > 0 <==> exists i: nat :: i < |st.records| && !LeavesOut(index, st, slot, full, i))
  {
    hide LeavesOut, CollectsAlive, CollectsCarried, CollectsSingles;
    RewriteSize(index, st, slot, full, alive, carried);
  }

  /** Steps that only touch the write cache and the roots leave the storages in place. */
  lemma WriterDone(index: Index, storages: Storages, nextId: nat, l: L.Ledger, rest: L.Ledger, step: L.Step,
                   rest': L.Ledger)
    requires Linked(index, storages, {}) && L.Inv(l) && l == ViewOf(index, storages, rest)
    requires StoragesInPlace(storages, rest.cache, rest.unflushed, rest.maxRoot, rest.cleaned, nextId)
    requires step.Store? || step.AddRoot? || step.DropUnrooted?
    requires (forall k ::
      k in ViewOf(index, storages, rest').stored ==> ViewOf(index, storages, rest').stored[k] != map[]) ==>
               L.Next(l, step, ViewOf(index, storages, rest'))
    ensures L.Next(l, step, ViewOf(index, storages, rest')) && L.Inv(ViewOf(index, storages, rest'))
    ensures StoragesInPlace(storages, rest'.cache, rest'.unflushed, rest'.maxRoot, rest'.cleaned, nextId)
  {
    hide L.Next, L.Inv, StoragesInPlace, NoDangling, AllIndexed, EntriesOk, StoragesOk;
    ViewHasNoEmpty(index, storages, {}, rest');
    P.StepKeepsInv(l, step, ViewOf(index, storages, rest'));
    WriterKeepsPlaces(index, storages, nextId, rest, step, rest');
  }

  lemma WriterKeepsPlaces(index: Index, storages: Storages, nextId: nat, rest: L.Ledger, step: L.Step, rest': L.Ledger)
    requires StoragesInPlace(storages, rest.cache, rest.unflushed, rest.maxRoot, rest.cleaned, nextId)
    requires step.Store? || step.AddRoot? || step.DropUnrooted?
    requires L.Next(ViewOf(index, storages, rest), step, ViewOf(index, storages, rest'))
    ensures StoragesInPlace(storages, rest'.cache, rest'.unflushed, rest'.maxRoot, rest'.cleaned, nextId)
  {
    forall s | s in storages
      ensures StorageInPlace(storages[s], s, rest'.cache, rest'.unflushed, rest'.maxRoot, rest'.cleaned, nextId) {
      assert StorageInPlace(storages[s], s, rest.cache, rest.unflushed, rest.maxRoot, rest.cleaned, nextId);
    }
  }

  lemma StorageIsValid(index: Index, storages: Storages, slot: Slot)
    requires Linked(index, storages, {}) && slot in storages
    ensures storages[slot].Valid()
  {
  }

  lemma NoneReplaced(index: Index, storages: Storages, slot: Slot, id: nat, alive: seq<nat>)
    requires slot in storages && CollectsAlive(index, storages[slot], slot, |storages[slot].records|, alive)
    ensures ShrunkIndex(index, index, storages[slot], slot, id, alive, {}, 0)
  {
    assert forall j :: 0 <= j < |alive| ==> alive[j] in alive;
  }

  lemma ShrunkInPlace(storages: Storages, slot: Slot, new_: Storage, rest: L.Ledger, id: nat)
    requires StoragesInPlace(storages, rest.cache, rest.unflushed, rest.maxRoot, rest.cleaned, id) && slot in storages
    requires new_.id == id && new_.aliveCount > 0 && new_.obsolete == map[]
    ensures StoragesInPlace(storages[slot := new_], rest.cache, rest.unflushed, rest.maxRoot, rest.cleaned, id + 1)
  {
    forall s | s in storages
      ensures StorageInPlace(storages[slot := new_][s], s, rest.cache, rest.unflushed, rest.maxRoot, rest.cleaned,
      id + 1) {
      assert StorageInPlace(storages[s], s, rest.cache, rest.unflushed, rest.maxRoot, rest.cleaned, id);
    }
  }

  lemma ShrinkDone(l: L.Ledger, slot: Slot, index: Index, storages: Storages, rest: L.Ledger)
    requires L.Inv(l) && EntriesOk(index) && NoDangling(index, storages, {})
    requires L.ShrinkStep(l, slot, ViewOf(index, storages, rest))
    ensures L.Next(l, L.Shrink(slot), ViewOf(index, storages, rest)) && L.Inv(ViewOf(index, storages, rest))
  {
    ViewHasNoEmpty(index, storages, {}, rest);
    P.StepKeepsInv(l, L.Shrink(slot), ViewOf(index, storages, rest));
  }

  /** Everything a finished shrink leaves behind, in one place. */
  lemma ShrinkFinishes(was: Index, index: Index, storages: Storages, slot: Slot, canPurge: bool, id: nat,
                       alive: seq<nat>, carried: seq<nat>, singles: set<Pubkey>, rest: L.Ledger)
    requires Linked(was, storages, {}) && slot in storages && canPurge == CanPurge(rest.full, slot)
    requires EntriesOk(index) && ShrunkIndex(was, index, storages[slot], slot, id, alive, singles, |alive|)
    requires Collected(was, storages[slot], slot, canPurge, |storages[slot].records|, alive, carried, singles)
    requires StoragesInPlace(storages, rest.cache, rest.unflushed, rest.maxRoot, rest.cleaned, id)
    requires L.Inv(ViewOf(was, storages, rest)) && alive + carried != []
    ensures forall j :: 0 <= j < |alive| + |carried| ==> (alive + carried)[j] < |storages[slot].records|
    ensures var storages' := storages[slot := ShrunkStorage(storages[slot], id, alive, carried)];
      && Linked(index, storages', {})
      && StoragesInPlace(storages', rest.cache, rest.unflushed, rest.maxRoot, rest.cleaned, id + 1)
      && L.Next(ViewOf(was, storages, rest), L.Shrink(slot), ViewOf(index, storages', rest))
      && L.Inv(ViewOf(index, storages', rest))
  {
    hide NoDangling, AllIndexed, ShrunkIndex, CollectsAlive, CollectsCarried, CollectsSingles, L.Inv, L.Next,
      L.ShrinkStep, StoragesInPlace;
    ShrunkValid(was, storages, slot, canPurge, id, alive, carried);
    var new_ := ShrunkStorage(storages[slot], id, alive, carried);
    var storages' := storages[slot := new_];
    ShrunkNoDangling(was, index, storages, slot, id, alive, carried, singles);
    ShrunkAllIndexed(was, index, storages, slot, id, alive, carried, singles);
    ShrinkIsStep(was, index, storages, slot, canPurge, id, alive, carried, singles, rest);
    ShrinkDone(ViewOf(was, storages, rest), slot, index, storages', rest);
    ShrunkInPlace(storages, slot, new_, rest, id);
  }

  lemma FlatOne(slot: Slot, offset: nat)
    ensures Flat(map[slot := {offset}]) == {(slot, offset)}
  {
    assert forall p :: p in Flat(map[slot := {offset}]) ==> (p.0, p.1) in Flat(map[slot := {offset}]);
    assert (slot, offset) in Flat(map[slot := {offset}]);
  }

  lemma OneSettles(storages: Storages, pending: Locations, slot: Slot, offset: nat, mark: Slot, full: Option<Slot>)
    requires StoragesOk(storages) && PendingOk(storages, pending) && (slot, offset) in pending
    requires mark == slot ==>
      offset < |storages[slot].records| && storages[slot].records[offset].account.IsZeroLamport()
    ensures var offsets := map[slot := {offset}];
      && CanSettleAll(storages, pending, offsets, mark) && Fits(storages, offsets)
      && AllFared(storages, SettleAll(storages, offsets, mark, full), offsets, mark, full)
  {
    hide AllFared, StoragesOk;
    var offsets := map[slot := {offset}];
    assert CanSettle(storages, pending, slot, {offset}, mark);
    AllFit(storages, pending, offsets, mark);
    SettleAllFares(storages, pending, offsets, mark, full);
  }

  lemma SameRecords(before: Storages, storages: Storages, marks: Marks, root: Slot, full: Option<Slot>, s: Slot, o: nat,
                    pending: Locations)
    requires CleanedStorages(before, storages, marks, root, full) && PendingOk(storages, pending) && (s, o) in pending
    ensures s in storages && s in before && storages[s].records == before[s].records
  {
    assert CleanedStorage(before[s], storages[s], Own(marks, s), root);
  }

  /** Cleaned storages stay in place once the clean bound has moved up to the root. */
  lemma CleanedInPlace(before: Storages, storages: Storages, marks: Marks, root: Slot, rest: L.Ledger, nextId: nat)
    requires CleanedStorages(before, storages, marks, root, rest.full)
    requires StoragesInPlace(before, rest.cache, rest.unflushed, rest.maxRoot, rest.cleaned, nextId)
    ensures var rest' := AfterClean(rest, root);
      StoragesInPlace(storages, rest'.cache, rest'.unflushed, rest'.maxRoot, rest'.cleaned, nextId)
  {
    var rest' := AfterClean(rest, root);
    forall s | s in storages
      ensures StorageInPlace(storages[s], s, rest'.cache, rest'.unflushed, rest'.maxRoot, rest'.cleaned, nextId) {
      assert CleanedStorage(before[s], storages[s], Own(marks, s), root);
      assert StorageInPlace(before[s], s, rest.cache, rest.unflushed, rest.maxRoot, rest.cleaned, nextId);
    }
  }

  lemma CleanDone(l: L.Ledger, keys: set<Pubkey>, root: Slot, index: Index, storages: Storages, rest: L.Ledger)
    requires L.Inv(l) && Linked(index, storages, {}) && L.CleanStep(l, keys, root, ViewOf(index, storages, rest))
    ensures L.Next(l, L.Clean(keys, root), ViewOf(index, storages, rest)) && L.Inv(ViewOf(index, storages, rest))
  {
    ViewHasNoEmpty(index, storages, {}, rest);
    P.StepKeepsInv(l, L.Clean(keys, root), ViewOf(index, storages, rest));
  }

  lemma NothingMarked(was: Index, storages: Storages, root: Slot)
    ensures CleanedIndex(was, was, {}, root) && MarksRight(was, storages, map[], {}, root)
    ensures LoneZerosMarked(was, map[], {}, root)
  {
  }

  lemma RootsBelowMax(l: L.Ledger)
    requires L.Inv(l)
    ensures forall r :: r in l.unflushed ==> r <= l.maxRoot
  {
  }

  /** The highest root whose older versions a flush may drop. */
  function FlushBound(should: FlushShouldClean, maxRoot: Slot): Slot {
    match should
    case No => 0
    case Yes(None) => maxRoot
    case Yes(Some(root)) => root
  }

  /** How far a flush of several roots has come; the roots in `todo` are still to do. */
  ghost predicate RootsLeft(wasCache: map<Slot, map<Pubkey, Account>>, wasUnflushed: set<Slot>, roots: set<Slot>,
                            todo: set<Slot>,
                            cache: map<Slot, map<Pubkey, Account>>, unflushed: set<Slot>) {
    && todo <= roots && roots <= wasUnflushed
    && cache == wasCache - (roots - todo)
    && unflushed == wasUnflushed - (roots - todo)
  }

  lemma RootDone(wasCache: map<Slot, map<Pubkey, Account>>, wasUnflushed: set<Slot>, roots: set<Slot>, todo: set<Slot>,
                 cache: map<Slot, map<Pubkey, Account>>, unflushed: set<Slot>, root: Slot)
    requires RootsLeft(wasCache, wasUnflushed, roots, todo, cache, unflushed) && root in todo
    ensures RootsLeft(wasCache, wasUnflushed, roots, todo - {root}, cache - {root}, unflushed - {root})
  {
  }

  lemma OldestRoot(wasUnflushed: set<Slot>, roots: set<Slot>, todo: set<Slot>, unflushed: set<Slot>,
                   requested: Option<Slot>, root: Slot)
    requires roots == set r | r in wasUnflushed && (requested.Some? ==> r <= requested.value)
    requires todo <= roots && unflushed == wasUnflushed - (roots - todo)
    requires root in todo && forall r :: r in todo ==> root <= r
    ensures root in unflushed && forall r :: r in unflushed ==> root <= r
  {
  }

  /** What was chosen before the flush is still right when the root's turn comes. */
  lemma ChosenIsRight(l: L.Ledger, wasCache: map<Slot, map<Pubkey, Account>>, wasUnflushed: set<Slot>, roots: set<Slot>,
                      todo: set<Slot>,
                      maxCleanRoot: Option<Slot>, root: Slot, keep: PubkeysToStore)
    requires RootsLeft(wasCache, wasUnflushed, roots, todo, l.cache, l.unflushed) && root in todo
    requires forall r :: r in todo ==> root <= r
    requires forall r, d :: r in todo && d in roots - todo ==> d < r
    requires forall r :: r in l.unflushed ==> r <= l.maxRoot
    requires KeepsNewest(wasCache, roots, maxCleanRoot, root, keep)
    ensures keep.Only? ==> KeepIsRight(l, root, keep, Some(FlushBound(Yes(maxCleanRoot), l.maxRoot)))
  {
    var bound := FlushBound(Yes(maxCleanRoot), l.maxRoot);
    if keep.Only? && root in l.cache {
      forall k | k in l.cache[root] && k !in keep.keys ensures L.Superseded(l, root, k, bound) {
        assert Replaced(wasCache, roots, maxCleanRoot, root, k);
        var r :| r in roots && root < r && IsCleaned(maxCleanRoot, r) && r in wasCache && k in wasCache[r];
        assert r !in roots - todo && r in l.unflushed;
      }
    }
    assert root in l.unflushed;
  }

  lemma KeepsAll(l: L.Ledger, slot: Slot, keep: PubkeysToStore)
    ensures keep.All? ==> KeepIsRight(l, slot, keep, None)
  {
  }

  /** The roots of a flush whose superseded versions it leaves out. */
  function CleanedRoots(roots: set<Slot>, should: FlushShouldClean): set<Slot> {
    set r | r in roots && should.Yes? && IsCleaned(should.maxCleanRoot, r)
  }

  /** What was chosen of one root, cleaning or not. */
  ghost predicate ChosenFor(cache: map<Slot, map<Pubkey, Account>>, roots: set<Slot>, should: FlushShouldClean,
                            root: Slot, keep: PubkeysToStore) {
    if should.Yes? then KeepsNewest(cache, roots, should.maxCleanRoot, root, keep) else keep.All?
  }

  lemma NewestChosen(cache: map<Slot, map<Pubkey, Account>>, roots: set<Slot>, should: FlushShouldClean,
                     keep: map<Slot, PubkeysToStore>)
    requires keep.Keys == roots
    requires should.Yes? ==> forall r :: r in roots ==> KeepsNewest(cache, roots, should.maxCleanRoot, r, keep[r])
    requires should.No? ==> forall r :: r in roots ==> keep[r].All?
    ensures forall r :: r in roots ==> ChosenFor(cache, roots, should, r, keep[r])
  {
  }

  /** What flushing one root leaves stored of every key. */
  ghost predicate RootStored(l: L.Ledger, root: Slot, keep: PubkeysToStore, l': L.Ledger) {
    forall k :: L.Stored(l', k) ==
      if root in l.cache && k in l.cache[root] && keep.Has(k)
      then FK.AfterRoot(L.Stored(l, k), root, l.cache[root][k], keep.Only?) else L.Stored(l, k)
  }

  lemma FlushStores(l: L.Ledger, root: Slot, keep: PubkeysToStore, clean: Option<Slot>, kept: set<Pubkey>,
                    l': L.Ledger)
    requires L.Inv(l) && L.Next(l, L.Flush(root, clean, kept), l') && keep.Only? == clean.Some?
    requires root in l.cache && kept == set k | k in l.cache[root] && keep.Has(k) &&
      !(l.cache[root][k].IsZeroLamport() && k !in l.stored)
    ensures RootStored(l, root, keep, l')
  {
    hide L.SlotsOrdered, L.ArchiveAgrees, L.GravesGain, L.KeptIsRight;
    forall k ensures L.Stored(l', k) ==
      if root in l.cache && k in l.cache[root] && keep.Has(k)
      then FK.AfterRoot(L.Stored(l, k), root, l.cache[root][k], keep.Only?) else L.Stored(l, k)
    {
      assert L.Stored(l', k) == L.StoredAfterFlush(l, root, clean.Some?, kept, k);
    }
  }

  lemma FlushNothingStores(l: L.Ledger, root: Slot, keep: PubkeysToStore, l': L.Ledger)
    requires L.Next(l, L.FlushNothing(root), l')
    ensures RootStored(l, root, keep, l')
  {
  }

  /** What is stored of every key once the roots in `done` are flushed, out of `roots`. */
  ghost predicate KeysFlushed(l: L.Ledger, l': L.Ledger, roots: set<Slot>, should: FlushShouldClean,
                              done: set<Slot>) {
    forall k :: FK.KeyFlushed(L.Stored(l, k), L.Stored(l', k), FK.HeldBy(l.cache, roots, k),
      CleanedRoots(roots, should), done)
  }

  lemma NoKeysFlushed(l: L.Ledger, roots: set<Slot>, should: FlushShouldClean)
    ensures KeysFlushed(l, l, roots, should, {})
  {
    hide FK.KeyFlushed, FK.HeldBy, CleanedRoots;
    forall k ensures FK.KeyFlushed(L.Stored(l, k), L.Stored(l, k), FK.HeldBy(l.cache, roots, k),
      CleanedRoots(roots, should), {})
    {
      FK.NoneFlushed(L.Stored(l, k), FK.HeldBy(l.cache, roots, k), CleanedRoots(roots, should));
    }
  }

  lemma KeysFlushedNext(l: L.Ledger, mid: L.Ledger, l': L.Ledger, roots: set<Slot>, todo: set<Slot>,
                        should: FlushShouldClean, root: Slot, keep: PubkeysToStore)
    requires KeysFlushed(l, mid, roots, should, roots - todo) && RootStored(mid, root, keep, l')
    requires L.Inv(l) && RootsLeft(l.cache, l.unflushed, roots, todo, mid.cache, mid.unflushed)
    requires root in todo && (forall r :: r in todo ==> root <= r)
    requires forall r, d :: r in todo && d in roots - todo ==> d < r
    requires ChosenFor(l.cache, roots, should, root, keep)
    ensures KeysFlushed(l, l', roots, should, roots - (todo - {root}))
  {
    hide KeepsNewest, FK.KeyFlushed, L.ArchiveAgrees, ChosenFor, FK.AfterRoot;
    OneMore(roots, todo, root);
    var clean := CleanedRoots(roots, should);
    forall k ensures FK.KeyFlushed(L.Stored(l, k), L.Stored(l', k), FK.HeldBy(l.cache, roots, k), clean,
      roots - (todo - {root}))
    {
      assert L.SlotsOrdered(l, k);
      ChosenIsNewest(l.cache, roots, should, root, keep, k);
      FK.KeyFlushedNext(L.Stored(l, k), L.Stored(mid, k), FK.HeldBy(l.cache, roots, k), clean, roots - todo, root,
        L.Stored(l', k));
    }
  }

  /** A root writes a key it holds unless it is cleaned and is not the newest cleaned root that holds it. */
  lemma ChosenIsNewest(cache: map<Slot, map<Pubkey, Account>>, roots: set<Slot>, should: FlushShouldClean, root: Slot,
                       keep: PubkeysToStore, k: Pubkey)
    requires root in roots && ChosenFor(cache, roots, should, root, keep)
    ensures var held, clean := FK.HeldBy(cache, roots, k), CleanedRoots(roots, should);
      && keep.Only? == (root in clean)
      && (root in held ==> (keep.Has(k) <==> root in clean ==> FK.IsNewestCleaned(held, clean, root)))
  {
    var held, clean := FK.HeldBy(cache, roots, k), CleanedRoots(roots, should);
    if root in clean && root in held {
      assert keep.Has(k) <==> !Replaced(cache, roots, should.maxCleanRoot, root, k);
      if !FK.IsNewestCleaned(held, clean, root) {
        var r :| r in held && r in clean && root < r;
        assert r in roots && IsCleaned(should.maxCleanRoot, r) && r in cache && k in cache[r];
      } else {
        assert forall r :: r in roots && IsCleaned(should.maxCleanRoot, r) && r in cache && k in cache[r] ==>
          r in held && r in clean;
      }
    }
  }

  /** A root that was never cached is only forgotten. */
  lemma FlushNothingDone(index: Index, storages: Storages, rest: L.Ledger, slot: Slot, nextId: nat)
    requires Linked(index, storages, {}) && L.Inv(ViewOf(index, storages, rest)) && slot in rest.unflushed
    requires slot !in rest.cache
    requires StoragesInPlace(storages, rest.cache, rest.unflushed, rest.maxRoot, rest.cleaned, nextId)
    ensures var rest' := rest.(unflushed := rest.unflushed - {slot});
      && L.Next(ViewOf(index, storages, rest), L.FlushNothing(slot), ViewOf(index, storages, rest'))
      && L.Inv(ViewOf(index, storages, rest'))
      && StoragesInPlace(storages, rest'.cache, rest'.unflushed, rest'.maxRoot, rest'.cleaned, nextId)
  {
    hide L.Inv, StoragesInPlace, NoDangling, AllIndexed, EntriesOk, StoragesOk;
    var rest' := rest.(unflushed := rest.unflushed - {slot});
    ViewHasNoEmpty(index, storages, {}, rest');
    P.StepKeepsInv(ViewOf(index, storages, rest), L.FlushNothing(slot), ViewOf(index, storages, rest'));
    InPlaceLater(storages, rest.cache, rest.unflushed, rest.maxRoot, rest.cleaned, nextId, slot, None);
    assert rest.cache - {slot} == rest.cache;
  }

  /** A cleaning flush leaves out only accounts a newer root within the clean bound replaces. */
  ghost predicate KeepIsRight(l: L.Ledger, slot: Slot, keep: PubkeysToStore, clean: Option<Slot>) {
    keep.Only? && clean.Some? && slot in l.cache ==>
      slot <= clean.value && forall k :: k in l.cache[slot] && k !in keep.keys ==> L.Superseded(l, slot, k, clean.value)
  }

  lemma FlushDone(l: L.Ledger, slot: Slot, clean: Option<Slot>, kept: set<Pubkey>, index: Index, storages: Storages,
                  rest: L.Ledger)
    requires L.Inv(l) && Linked(index, storages, {})
    requires L.FlushStep(l, slot, clean, kept, ViewOf(index, storages, rest))
    ensures L.Next(l, L.Flush(slot, clean, kept), ViewOf(index, storages, rest)) && L.Inv(ViewOf(index, storages, rest))
  {
    ViewHasNoEmpty(index, storages, {}, rest);
    P.StepKeepsInv(l, L.Flush(slot, clean, kept), ViewOf(index, storages, rest));
  }

  lemma LinkedNoDangling(index: Index, storages: Storages)
    requires Linked(index, storages, {})
    ensures NoDangling(index, storages, {})
  {
  }

  lemma NotYetStored(storages: Storages, rest: L.Ledger, nextId: nat, slot: Slot)
    requires StoragesInPlace(storages, rest.cache, rest.unflushed, rest.maxRoot, rest.cleaned, nextId)
    requires slot in rest.cache
    ensures slot !in storages
  {
    assert slot in storages ==>
      StorageInPlace(storages[slot], slot, rest.cache, rest.unflushed, rest.maxRoot, rest.cleaned, nextId);
  }

  lemma NoOffsets(reclaims: Locations, slot: Slot, records: seq<Record>, reclaim: bool)
    requires ReclaimsUpTo(reclaims, slot, records, reclaim, |records|)
    ensures !reclaim ==> GroupBySlot(reclaims) == map[]
  {
  }

  ghost function AfterFlush(rest: L.Ledger, slot: Slot, clean: Option<Slot>): L.Ledger {
    rest.(cache := rest.cache - {slot}, unflushed := rest.unflushed - {slot},
          cleaned := L.Raised(rest.cleaned, clean))
  }

  lemma WrittenIsLinked(index: Index, storages: Storages, slot: Slot, id: nat, records: seq<Record>)
    requires Linked(index, storages, {}) && DistinctKeys(records) && slot !in storages
    ensures Linked(index, storages[slot := Written(id, records, {})], Unindexed(slot, records, 0))
  {
    var st := Written(id, records, {});
    WrittenIsValid(id, records, {});
    AddStorage(index, storages, {}, slot, st);
    var live := set i: nat | i < |st.records| && st.Live(i);
    var a, b := {} + Scaled(slot, live), Unindexed(slot, records, 0);
    forall s, o ensures (s, o) in a <==> (s, o) in b {}
    assert forall p :: p in a <==> (p.0, p.1) in b;
    assert a == b;
  }

  lemma ReclaimsSettle(storages: Storages, reclaims: Locations, slot: Slot, records: seq<Record>, reclaim: bool,
                       full: Option<Slot>)
    requires StoragesOk(storages) && PendingOk(storages, reclaims)
    requires ReclaimsUpTo(reclaims, slot, records, reclaim, |records|)
    requires slot in storages && storages[slot].records == records
    ensures CanSettleAll(storages, reclaims, GroupBySlot(reclaims), slot)
    ensures Fits(storages, GroupBySlot(reclaims))
    ensures AllFared(storages, SettleAll(storages, GroupBySlot(reclaims), slot, full), GroupBySlot(reclaims), slot,
      full)
  {
    var offsets := GroupBySlot(reclaims);
    forall s | s in offsets ensures CanSettle(storages, reclaims, s, offsets[s], slot) {
      var o :| o in offsets[s];
      assert (s, o) in reclaims;
    }
    AllFit(storages, reclaims, offsets, slot);
    SettleAllFares(storages, reclaims, offsets, slot, full);
  }

  lemma AllSettled(reclaims: Locations)
    ensures reclaims - Flat(GroupBySlot(reclaims)) == {}
  {
    assert forall p :: p in reclaims ==> (p.0, p.1) in Flat(GroupBySlot(reclaims));
  }

  lemma AllOlderHolds(index: Index, storages: Storages, rest: L.Ledger, slot: Slot)
    requires Linked(index, storages, {}) && L.Inv(ViewOf(index, storages, rest)) && slot in rest.unflushed
    ensures AllOlder(index, slot) && slot <= rest.maxRoot
  {
    forall k, s | s in Slots(index, k) ensures s < slot {
      VersionsAreSlots(index, storages, {}, k);
      ViewHolds(index, storages, rest, k);
      assert L.SlotsOrdered(ViewOf(index, storages, rest), k);
    }
  }

  lemma KeptHolds(l: L.Ledger, slot: Slot, keep: PubkeysToStore, clean: Option<Slot>, kept: set<Pubkey>)
    requires slot in l.cache && keep.Only? == clean.Some? && KeepIsRight(l, slot, keep, clean)
    requires forall k ::
      k in kept <==> k in l.cache[slot] && keep.Has(k) && !(l.cache[slot][k].IsZeroLamport() && k !in l.stored)
    ensures L.KeptIsRight(l, slot, clean, kept)
  {
  }

  lemma MarksAreOld(storages: Storages, rest: L.Ledger, nextId: nat, slot: Slot)
    requires StoragesInPlace(storages, rest.cache, rest.unflushed, rest.maxRoot, rest.cleaned, nextId)
    requires rest.cleaned <= slot
    ensures forall s :: s in storages ==> forall i :: i in storages[s].obsolete ==> storages[s].obsolete[i] <= slot
  {
    forall s | s in storages ensures forall i :: i in storages[s].obsolete ==> storages[s].obsolete[i] <= slot {
      assert StorageInPlace(storages[s], s, rest.cache, rest.unflushed, rest.maxRoot, rest.cleaned, nextId);
    }
  }

  lemma BoundIsReached(l: L.Ledger, slot: Slot, clean: Option<Slot>, kept: set<Pubkey>)
    requires slot in l.cache && L.KeptIsRight(l, slot, clean, kept)
    ensures clean.Some? ==> slot <= clean.value
  {
  }

  lemma FlushedInPlace(before: Storages, storages: Storages, slot: Slot, id: nat, records: seq<Record>,
                       offsets: SlotOffsets,
                       clean: Option<Slot>, rest: L.Ledger)
    requires AllFared(before[slot := Written(id, records, {})], storages, offsets, slot, rest.full)
    requires if clean.None? then offsets == map[] else slot <= clean.value
    requires records != [] && DistinctKeys(records)
    requires StoragesInPlace(before, rest.cache, rest.unflushed, rest.maxRoot, rest.cleaned, id)
    requires slot in rest.unflushed && slot <= rest.maxRoot && forall r :: r in rest.unflushed ==> slot <= r
    ensures var rest' := AfterFlush(rest, slot, clean);
      StoragesInPlace(storages, rest'.cache, rest'.unflushed, rest'.maxRoot, rest'.cleaned, id + 1)
  {
    var rest', mid := AfterFlush(rest, slot, clean), before[slot := Written(id, records, {})];
    WrittenIsValid(id, records, {});
    forall s | s in storages
      ensures StorageInPlace(storages[s], s, rest'.cache, rest'.unflushed, rest'.maxRoot, rest'.cleaned, id + 1)
    {
      assert s != slot ==> StorageInPlace(before[s], s, rest.cache, rest.unflushed, rest.maxRoot, rest.cleaned, id);
      if s in offsets {
        assert Fared(mid[s], storages[s], s, offsets[s], slot);
      }
    }
  }

  lemma InPlaceLater(storages: Storages, cache: map<Slot, map<Pubkey, Account>>, unflushed: set<Slot>, maxRoot: Slot,
                     cleaned: Slot, nextId: nat,
                     slot: Slot, clean: Option<Slot>)
    requires StoragesInPlace(storages, cache, unflushed, maxRoot, cleaned, nextId)
    ensures StoragesInPlace(storages, cache - {slot}, unflushed - {slot}, maxRoot, L.Raised(cleaned, clean), nextId)
  {
    forall s | s in storages
      ensures StorageInPlace(storages[s], s, cache - {slot}, unflushed - {slot}, maxRoot, L.Raised(cleaned, clean),
        nextId)
    {
      assert StorageInPlace(storages[s], s, cache, unflushed, maxRoot, cleaned, nextId);
    }
  }

  /** A root none of whose accounts need storing leaves the cache without trace. */
  lemma FlushNoneIsStep(index: Index, storages: Storages, slot: Slot, clean: Option<Slot>, rest: L.Ledger)
    requires slot in rest.unflushed && slot in rest.cache && (forall r :: r in rest.unflushed ==> slot <= r)
    requires L.KeptIsRight(ViewOf(index, storages, rest), slot, clean, {})
    ensures L.FlushStep(ViewOf(index, storages, rest), slot, clean, {},
      ViewOf(index, storages, AfterFlush(rest, slot, clean)))
  {
    var l, l' := ViewOf(index, storages, rest), ViewOf(index, storages, AfterFlush(rest, slot, clean));
    forall k ensures L.Stored(l', k) == L.Stored(l, k) && L.Graves(l', k) == L.Graves(l, k) {}
  }

  lemma KeysGrow(records: seq<Record>, r: Record)
    ensures Keys(records + [r]) == Keys(records) + {r.key}
    ensures forall j :: 0 <= j < |records| ==> records[j].key in Keys(records)
  {
    var more := records + [r];
    assert more[|records|] == r;
    forall k | k in Keys(more) ensures k in Keys(records) || k == r.key {
      var j :| 0 <= j < |more| && more[j].key == k;
    }
    forall k | k in Keys(records) ensures k in Keys(more) {
      var j :| 0 <= j < |records| && records[j].key == k;
      assert more[j] == records[j];
    }
  }

  lemma NoReclaims(pending: Locations)
    ensures {} + pending == pending
  {
  }

  lemma NothingUnindexed(reclaims: Locations, slot: Slot, records: seq<Record>)
    ensures reclaims + Unindexed(slot, records, |records|) == reclaims
  {
    var none := Unindexed(slot, records, |records|);
    forall s, o ensures (s, o) !in none {}
    assert forall p :: p in none ==> (p.0, p.1) in none;
    assert none == {};
  }
}
