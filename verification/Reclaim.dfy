/** What reclaiming does to the account versions and tombstones the storages hold. */
module Reclaim {
  import opened Types
  import opened StorageEntry
  import opened AccountsIndex

  /** How one storage fares when `offsets` are reclaimed from it at `mark`. */
  ghost predicate Fared(before: Storage, after: Storage, s: Slot, offsets: set<nat>, mark: Slot) {
    && after.id == before.id && after.records == before.records
    && after.tombstones == before.tombstones + (if s == mark then offsets else {})
    && (if s == mark then after.obsolete == before.obsolete
        else MarkedAt(before.obsolete, after.obsolete, offsets, mark))
  }

  /** A storage goes only with nothing buried in it, or once the full snapshot covers what is. */
  predicate MayGo(before: Storage, s: Slot, offsets: set<nat>, mark: Slot, full: Option<Slot>) {
    CanPurge(full, s) || (before.tombstones == {} && (s == mark ==> offsets == {}))
  }

  /** Tombstones are counted as alive, so a storage drained of its live records alone had none. */
  lemma DrainedHadNone(st: Storage, offsets: set<nat>)
    requires st.Valid() && Reclaimable(st, offsets) && |offsets| == st.aliveCount
    ensures st.tombstones == {}
  {
    AllAlive(|st.records|, st.obsolete.Keys, offsets);
  }

  lemma EmptyHasNone(st: Storage, offsets: set<nat>)
    requires st.Valid() && Reclaimable(st, offsets) && st.aliveCount == 0
    ensures st.tombstones == {} && offsets == {}
  {
    NoneOutside(|st.records|, st.obsolete.Keys);
  }

  lemma RetireFares(st: Storage, s: Slot, offsets: set<nat>, mark: Slot)
    requires |offsets| <= st.aliveCount && BytesAt(st.records, offsets) <= st.aliveBytes && s != mark
    requires forall i :: i in offsets ==> i !in st.obsolete
    ensures Fared(st, Retire(st, offsets, mark), s, offsets, mark)
  {
    hide MarkedAt, BytesAt;
    assert st.tombstones + {} == st.tombstones;
    RetireMarks(st, offsets, mark);
  }

  lemma ReclaimedStorage(st: Storage, s: Slot, offsets: set<nat>, mark: Slot, full: Option<Slot>)
    requires st.Valid() && Reclaimable(st, offsets)
    requires |offsets| <= st.aliveCount && BytesAt(st.records, offsets) <= st.aliveBytes
    ensures var after := AfterReclaim(st, s, offsets, mark);
      if IsDead(after, s, full) then MayGo(st, s, offsets, mark, full)
        else Fared(st, after, s, offsets, mark) && after.aliveCount > 0
  {
    if s == mark {
      if st.aliveCount == 0 { EmptyHasNone(st, offsets); }
    } else if |offsets| == st.aliveCount {
      DrainedHadNone(st, offsets);
    } else {
      RetireFares(st, s, offsets, mark);
    }
  }

  /** What reclaiming leaves of all storages. */
  ghost predicate AllFared(before: Storages, after: Storages, offsets: SlotOffsets, mark: Slot, full: Option<Slot>) {
    && (forall s :: s in after ==> s in before)
    && (forall s :: s in before && s !in offsets ==> s in after && after[s] == before[s])
    && (forall s :: s in before && s in offsets && s in after ==>
          Fared(before[s], after[s], s, offsets[s], mark) && after[s].aliveCount > 0)
    && (forall s :: s in before && s !in after ==> s in offsets && MayGo(before[s], s, offsets[s], mark, full))
  }

  lemma SettleAllFares(storages: Storages, pending: Locations, offsets: SlotOffsets, mark: Slot, full: Option<Slot>)
    requires StoragesOk(storages) && PendingOk(storages, pending) && Fits(storages, offsets)
    requires forall s, o :: s in offsets && o in offsets[s] ==> (s, o) in pending
    ensures AllFared(storages, SettleAll(storages, offsets, mark, full), offsets, mark, full)
  {
    forall s | s in offsets && s in storages
      ensures var after := AfterReclaim(storages[s], s, offsets[s], mark);
        if IsDead(after, s, full) then MayGo(storages[s], s, offsets[s], mark, full)
        else Fared(storages[s], after, s, offsets[s], mark) && after.aliveCount > 0
    {
      ReclaimedStorage(storages[s], s, offsets[s], mark, full);
    }
  }
}
