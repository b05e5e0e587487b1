/** Flushing one root's accounts from the write cache into a new storage. */
module Flush {
  import opened Types
  import opened StorageEntry
  import opened AccountsIndex
  import opened Reclaim
  import opened View
  import L = Ledger

  function InfoOf(id: nat, records: seq<Record>, j: nat): Info
    requires j < |records|
  {
    Info(id, j, records[j].account.IsZeroLamport())
  }

  /**
   A key's slot list once `info` is flushed at `slot`. Reclaiming, an account without lamports is
   deleted from the index and any other one pushes out the entries older than it.
   */
  function FlushedList(list: map<Slot, Info>, slot: Slot, info: Info, reclaim: bool): map<Slot, Info> {
    if reclaim && info.zeroLamport then map[] else UpsertList(list, slot, info, reclaim)
  }

  /** The entries a flush takes out of a slot list, with the record itself when it is a tombstone. */
  function FlushReclaims(list: map<Slot, Info>, slot: Slot, j: nat, zero: bool, reclaim: bool): Locations {
    if !reclaim then {} else Locs(list) + if zero then {(slot, j)} else {}
  }

  /** The records from `i` on, written and not yet in the index. */
  function Unindexed(slot: Slot, records: seq<Record>, i: nat): (locs: Locations)
    ensures forall s, o :: (s, o) in locs <==> s == slot && i <= o < |records|
  {
    set o: nat | i <= o < |records| :: (slot, o)
  }

  predicate DistinctKeys(records: seq<Record>) {
    forall i, j :: 0 <= i < j < |records| ==> records[i].key != records[j].key
  }

  /** The index once the first `n` records are in it. */
  ghost predicate IndexedUpTo(was: Index, index: Index, slot: Slot, id: nat, records: seq<Record>, reclaim: bool,
                              n: nat) {
    && n <= |records|
    && (forall j: nat :: j < n ==>
          Slots(index, records[j].key) ==
            FlushedList(Slots(was, records[j].key), slot, InfoOf(id, records, j), reclaim))
    && (forall k :: (forall j: nat :: j < n ==> records[j].key != k) ==> Slots(index, k) == Slots(was, k))
  }

  /** What has been reclaimed by then: entries older than `slot`, and new records that are tombstones. */
  ghost predicate ReclaimsUpTo(reclaims: Locations, slot: Slot, records: seq<Record>, reclaim: bool, n: nat) {
    && n <= |records|
    && (!reclaim ==> reclaims == {})
    && (forall s, o :: (s, o) in reclaims ==> s < slot || (s == slot && o < n && records[o].account.IsZeroLamport()))
    && (reclaim ==> forall o :: 0 <= o < n && records[o].account.IsZeroLamport() ==> (slot, o) in reclaims)
  }

  ghost predicate AllOlder(index: Index, slot: Slot) {
    forall k, s :: s in Slots(index, k) ==> s < slot
  }

  lemma NextIndexed(was: Index, index: Index, slot: Slot, id: nat, records: seq<Record>, reclaim: bool, i: nat)
    requires IndexedUpTo(was, index, slot, id, records, reclaim, i) && i < |records| && DistinctKeys(records)
    ensures var k := records[i].key;
      && Slots(index, k) == Slots(was, k)
      && IndexedUpTo(was, WithSlots(index, k, FlushedList(Slots(was, k), slot, InfoOf(id, records, i), reclaim)), slot,
           id, records, reclaim, i + 1)
  {
    var k := records[i].key;
    SlotsOfWithSlots(index, k, FlushedList(Slots(was, k), slot, InfoOf(id, records, i), reclaim));
  }

  lemma NextReclaims(reclaims: Locations, list: map<Slot, Info>, slot: Slot, records: seq<Record>, reclaim: bool,
                     i: nat)
    requires ReclaimsUpTo(reclaims, slot, records, reclaim, i) && i < |records| && forall s :: s in list ==> s < slot
    ensures ReclaimsUpTo(reclaims + FlushReclaims(list, slot, i, records[i].account.IsZeroLamport(), reclaim), slot,
      records, reclaim, i + 1)
  {
  }

  lemma NextPending(reclaims: Locations, list: map<Slot, Info>, slot: Slot, id: nat, records: seq<Record>,
                    reclaim: bool, i: nat)
    requires ReclaimsUpTo(reclaims, slot, records, reclaim, i) && i < |records| && forall s :: s in list ==> s < slot
    ensures var info := InfoOf(id, records, i);
      reclaims + Unindexed(slot, records, i) + Locs(list) - Locs(FlushedList(list, slot, info, reclaim)) ==
      reclaims + FlushReclaims(list, slot, i, info.zeroLamport, reclaim) + Unindexed(slot, records, i + 1)
  {
    var info := InfoOf(id, records, i);
    var list' := FlushedList(list, slot, info, reclaim);
    var one := reclaims + Unindexed(slot, records, i) + Locs(list) - Locs(list');
    var two := reclaims + FlushReclaims(list, slot, i, info.zeroLamport, reclaim) + Unindexed(slot, records, i + 1);
    forall s, o ensures (s, o) in one <==> (s, o) in two {}
    assert forall p :: p in one <==> (p.0, p.1) in two;
  }

  /** Putting the next record into the index keeps index and storages in agreement. */
  lemma NextLinked(index: Index, storages: Storages, reclaims: Locations, slot: Slot, id: nat, records: seq<Record>,
                   reclaim: bool, i: nat)
    requires Linked(index, storages, reclaims + Unindexed(slot, records, i)) && i < |records|
    requires slot in storages && storages[slot].id == id && storages[slot].records == records && storages[slot].Live(i)
    requires ReclaimsUpTo(reclaims, slot, records, reclaim, i)
    requires forall s :: s in Slots(index, records[i].key) ==> s < slot
    ensures var k, info := records[i].key, InfoOf(id, records, i);
      var list := Slots(index, k);
      Linked(WithSlots(index, k, FlushedList(list, slot, info, reclaim)), storages,
             reclaims + FlushReclaims(list, slot, i, info.zeroLamport, reclaim) + Unindexed(slot, records, i + 1))
  {
    var k, info := records[i].key, InfoOf(id, records, i);
    var list := Slots(index, k);
    assert PointsAt(storages, k, slot, info) && (slot, i) in reclaims + Unindexed(slot, records, i);
    Relink(index, storages, reclaims + Unindexed(slot, records, i), k, FlushedList(list, slot, info, reclaim));
    NextPending(reclaims, list, slot, id, records, reclaim, i);
  }

  // ---------- the flush as a step of the ledger ----------

  function Keys(records: seq<Record>): (keys: set<Pubkey>)
    ensures forall j :: 0 <= j < |records| ==> records[j].key in keys
    ensures forall k :: k in keys ==> exists j :: 0 <= j < |records| && records[j].key == k
  {
    set j | 0 <= j < |records| :: records[j].key
  }

  /** `records` hold cached accounts of `slot`, each key once. */
  predicate FromCache(records: seq<Record>, cached: map<Pubkey, Account>) {
    DistinctKeys(records) && forall j ::
      0 <= j < |records| ==> records[j].key in cached && cached[records[j].key] == records[j].account
  }

  lemma SameVersions(was: Index, index: Index, before: Storages, storages: Storages, k: Pubkey)
    requires Slots(index, k) == Slots(was, k)
    requires forall s :: s in Slots(was, k) ==> s in before && s in storages && storages[s].records == before[s].records
    ensures Versions(index, storages, k) == Versions(was, before, k)
  {
  }

  lemma RecordsStay(before: Storages, storages: Storages, slot: Slot, st: Storage, offsets: SlotOffsets,
                    full: Option<Slot>)
    requires AllFared(before[slot := st], storages, offsets, slot, full) && slot !in before
    ensures forall s :: s in storages && s != slot ==> s in before && storages[s].records == before[s].records
    ensures slot in storages ==> storages[slot].records == st.records
  {
    var mid := before[slot := st];
    forall s | s in storages ensures s in mid && storages[s].records == mid[s].records {
      if s in offsets { assert Fared(mid[s], storages[s], s, offsets[s], slot); }
    }
  }

  lemma FlushedOther(was: Index, index: Index, before: Storages, storages: Storages, slot: Slot, id: nat,
                     records: seq<Record>, reclaims: Locations, reclaim: bool, full: Option<Slot>, k: Pubkey)
    requires AllFared(before[slot := Written(id, records, {})], storages, GroupBySlot(reclaims), slot, full)
    requires slot !in before
    requires NoDangling(index, storages, {}) && AllOlder(was, slot)
    requires IndexedUpTo(was, index, slot, id, records, reclaim, |records|) && k !in Keys(records)
    ensures Versions(index, storages, k) == Versions(was, before, k)
  {
    RecordsStay(before, storages, slot, Written(id, records, {}), GroupBySlot(reclaims), full);
    assert Slots(index, k) == Slots(was, k);
    VersionsAreSlots(index, storages, {}, k);
    SameVersions(was, index, before, storages, k);
  }

  lemma FlushedVersions(was: map<Slot, Account>, list: map<Slot, Info>, now: map<Slot, Account>, slot: Slot, j: nat,
                        id: nat, a: Account, reclaim: bool)
    requires was.Keys == list.Keys && forall s :: s in list ==> s < slot
    requires now.Keys == FlushedList(list, slot, Info(id, j, a.IsZeroLamport()), reclaim).Keys
    requires forall s :: s in now ==> now[s] == if s == slot then a else if s in was then was[s] else a
    ensures now == if reclaim && a.IsZeroLamport() then map[] else if reclaim then map[slot := a] else was[slot := a]
  {
  }

  lemma FlushedSlots(was: Index, index: Index, slot: Slot, id: nat, records: seq<Record>, reclaim: bool, j: nat)
    requires IndexedUpTo(was, index, slot, id, records, reclaim, |records|) && j < |records| && AllOlder(was, slot)
    ensures Slots(index, records[j].key) ==
      FlushedList(Slots(was, records[j].key), slot, InfoOf(id, records, j), reclaim)
    ensures forall s :: s in Slots(was, records[j].key) ==> s < slot
  {
  }

  lemma FlushedAccounts(was: Index, index: Index, before: Storages, storages: Storages, slot: Slot, id: nat,
                        records: seq<Record>, reclaim: bool, j: nat)
    requires j < |records| && slot !in before
    requires forall s :: s in storages && s != slot ==> s in before && storages[s].records == before[s].records
    requires slot in storages ==> storages[slot].records == records
    requires Slots(index, records[j].key) ==
      FlushedList(Slots(was, records[j].key), slot, InfoOf(id, records, j), reclaim)
    ensures var list, now := Versions(was, before, records[j].key), Versions(index, storages, records[j].key);
      forall s :: s in now ==> now[s] == if s == slot then records[j].account else if s in list then list[s]
        else records[j].account
  {
  }

  lemma FlushedKey(was: Index, index: Index, before: Storages, storages: Storages, slot: Slot, id: nat,
                   records: seq<Record>, reclaims: Locations, reclaim: bool, full: Option<Slot>, j: nat)
    requires AllFared(before[slot := Written(id, records, {})], storages, GroupBySlot(reclaims), slot, full)
    requires slot !in before
    requires NoDangling(index, storages, {}) && NoDangling(was, before, {}) && AllOlder(was, slot)
    requires IndexedUpTo(was, index, slot, id, records, reclaim, |records|) && j < |records|
    ensures var k, a, list := records[j].key, records[j].account, Versions(was, before, records[j].key);
      Versions(index, storages, k) ==
        if reclaim && a.IsZeroLamport() then map[] else if reclaim then map[slot := a] else list[slot := a]
  {
    hide AllFared, GroupBySlot, IndexedUpTo, NoDangling, Versions;
    var k := records[j].key;
    RecordsStay(before, storages, slot, Written(id, records, {}), GroupBySlot(reclaims), full);
    VersionsAreSlots(was, before, {}, k);
    VersionsAreSlots(index, storages, {}, k);
    var list := Slots(was, k);
    FlushedSlots(was, index, slot, id, records, reclaim, j);
    FlushedAccounts(was, index, before, storages, slot, id, records, reclaim, j);
    FlushedVersions(Versions(was, before, k), list, Versions(index, storages, k), slot, j, id, records[j].account,
      reclaim);
  }

  lemma BuriedByFlush(before: Storages, storages: Storages, slot: Slot, id: nat, records: seq<Record>,
                      reclaims: Locations,
                      reclaim: bool, full: Option<Slot>, k: Pubkey)
    requires AllFared(before[slot := Written(id, records, {})], storages, GroupBySlot(reclaims), slot, full)
    requires slot !in before
    requires ReclaimsUpTo(reclaims, slot, records, reclaim, |records|)
    ensures forall s :: s in storages && s != slot && k in storages[s].Buried() ==>
      s in before && k in before[s].Buried()
    ensures forall s :: s in before && k in before[s].Buried() ==>
      CanPurge(full, s) || (s in storages && k in storages[s].Buried())
    ensures slot in storages && k in storages[slot].Buried() ==> reclaim && exists j ::
      0 <= j < |records| && records[j].key == k && records[j].account.IsZeroLamport()
  {
    var mid, offsets := before[slot := Written(id, records, {})], GroupBySlot(reclaims);
    forall s | s in storages && s != slot
      ensures s in before && storages[s].Buried() == before[s].Buried()
    {
      assert mid[s] == before[s];
    }
    if slot in storages && k in storages[slot].Buried() {
      var j :| j in storages[slot].tombstones && j < |storages[slot].records| && storages[slot].records[j].key == k;
      assert mid[slot].records == records && mid[slot].tombstones == {};
      assert slot in offsets && j in offsets[slot];
    }
  }

  lemma TombstonesByFlush(before: Storages, storages: Storages, slot: Slot, id: nat, records: seq<Record>,
                          reclaims: Locations,
                          reclaim: bool, full: Option<Slot>, j: nat)
    requires AllFared(before[slot := Written(id, records, {})], storages, GroupBySlot(reclaims), slot, full)
    requires slot !in before
    requires ReclaimsUpTo(reclaims, slot, records, reclaim, |records|)
    requires reclaim && j < |records| && records[j].account.IsZeroLamport()
    ensures CanPurge(full, slot) || (slot in storages && records[j].key in storages[slot].Buried())
  {
    var mid, offsets := before[slot := Written(id, records, {})], GroupBySlot(reclaims);
    assert (slot, j) in reclaims && j in offsets[slot];
    if slot in storages {
      assert j in storages[slot].tombstones;
    }
  }

  /** The flush of one root, seen from the ledger. */
  lemma FlushIsStep(was: Index, index: Index, before: Storages, storages: Storages, slot: Slot, id: nat,
                    records: seq<Record>, reclaims: Locations, clean: Option<Slot>, rest: L.Ledger, rest': L.Ledger)
    requires AllFared(before[slot := Written(id, records, {})], storages, GroupBySlot(reclaims), slot, rest.full)
    requires slot !in before
    requires NoDangling(index, storages, {}) && NoDangling(was, before, {}) && AllOlder(was, slot)
    requires IndexedUpTo(was, index, slot, id, records, clean.Some?, |records|)
    requires ReclaimsUpTo(reclaims, slot, records, clean.Some?, |records|)
    requires slot in rest.unflushed && slot in rest.cache && (forall r :: r in rest.unflushed ==> slot <= r)
    requires FromCache(records, rest.cache[slot])
    requires L.KeptIsRight(ViewOf(was, before, rest), slot, clean, Keys(records))
    requires rest' == rest.(cache := rest.cache - {slot}, unflushed := rest.unflushed - {slot},
                            cleaned := L.Raised(rest.cleaned, clean))
    ensures L.FlushStep(ViewOf(was, before, rest), slot, clean, Keys(records), ViewOf(index, storages, rest'))
  {
    var l, l', kept := ViewOf(was, before, rest), ViewOf(index, storages, rest'), Keys(records);
    forall k ensures L.Stored(l', k) == L.StoredAfterFlush(l, slot, clean.Some?, kept, k) {
      FlushStoredIs(was, index, before, storages, slot, id, records, reclaims, clean, rest, rest', k);
    }
    forall k ensures L.GravesGain(l, l', k, L.GravesFromFlush(l, slot, clean.Some?, kept, k)) {
      FlushGravesAre(was, index, before, storages, slot, id, records, reclaims, clean, rest, rest', k);
    }
  }

  lemma FlushStoredIs(was: Index, index: Index, before: Storages, storages: Storages, slot: Slot, id: nat,
                      records: seq<Record>,
                      reclaims: Locations, clean: Option<Slot>, rest: L.Ledger, rest': L.Ledger, k: Pubkey)
    requires AllFared(before[slot := Written(id, records, {})], storages, GroupBySlot(reclaims), slot, rest.full)
    requires slot !in before
    requires NoDangling(index, storages, {}) && NoDangling(was, before, {}) && AllOlder(was, slot)
    requires IndexedUpTo(was, index, slot, id, records, clean.Some?, |records|)
    requires slot in rest.cache && FromCache(records, rest.cache[slot]) && Keys(records) <= rest.cache[slot].Keys
    ensures L.Stored(ViewOf(index, storages, rest'), k) ==
      L.StoredAfterFlush(ViewOf(was, before, rest), slot, clean.Some?, Keys(records), k)
  {
    ViewHolds(was, before, rest, k);
    ViewHolds(index, storages, rest', k);
    if k in Keys(records) {
      var j :| 0 <= j < |records| && records[j].key == k;
      FlushedKey(was, index, before, storages, slot, id, records, reclaims, clean.Some?, rest.full, j);
    } else {
      FlushedOther(was, index, before, storages, slot, id, records, reclaims, clean.Some?, rest.full, k);
    }
  }

  lemma FlushGravesAre(was: Index, index: Index, before: Storages, storages: Storages, slot: Slot, id: nat,
                       records: seq<Record>,
                       reclaims: Locations, clean: Option<Slot>, rest: L.Ledger, rest': L.Ledger, k: Pubkey)
    requires AllFared(before[slot := Written(id, records, {})], storages, GroupBySlot(reclaims), slot, rest.full)
    requires slot !in before
    requires ReclaimsUpTo(reclaims, slot, records, clean.Some?, |records|)
    requires slot in rest.cache && FromCache(records, rest.cache[slot]) && Keys(records) <= rest.cache[slot].Keys
    ensures L.GravesGain(ViewOf(was, before, rest), ViewOf(index, storages, rest'), k,
                         L.GravesFromFlush(ViewOf(was, before, rest), slot, clean.Some?, Keys(records), k))
  {
    hide AllFared, ReclaimsUpTo, GroupBySlot;
    ViewHolds(was, before, rest, k);
    ViewHolds(index, storages, rest', k);
    BuriedByFlush(before, storages, slot, id, records, reclaims, clean.Some?, rest.full, k);
    if clean.Some? && k in Keys(records) && rest.cache[slot][k].IsZeroLamport() {
      var j :| 0 <= j < |records| && records[j].key == k;
      TombstonesByFlush(before, storages, slot, id, records, reclaims, true, rest.full, j);
    }
  }
}
