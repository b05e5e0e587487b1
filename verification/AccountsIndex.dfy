/**
 The accounts index and the storages it points into. `Linked` says that index and storages agree, up
 to a set of records that are written or reclaimed but not yet settled; it holds between any two
 index or storage updates, so that no index entry ever dangles.
 */
module AccountsIndex {
  import opened Types
  import opened StorageEntry

  datatype Info = Info(storeId: nat, offset: nat, zeroLamport: bool)

  datatype Entry = Entry(slotList: map<Slot, Info>, refCount: nat)

  type Index = map<Pubkey, Entry>
  type Storages = map<Slot, Storage>
  type Locations = set<(Slot, nat)>

  function Slots(index: Index, k: Pubkey): map<Slot, Info> {
    if k in index then index[k].slotList else map[]
  }

  function Locs(list: map<Slot, Info>): (locs: Locations)
    ensures forall s, o :: (s, o) in locs <==> s in list && list[s].offset == o
  {
    set s | s in list :: (s, list[s].offset)
  }

  // ---------- agreement of index and storages ----------

  predicate PointsAt(storages: Storages, k: Pubkey, s: Slot, info: Info) {
    && s in storages
    && storages[s].id == info.storeId
    && storages[s].Live(info.offset)
    && storages[s].records[info.offset].key == k
    && storages[s].records[info.offset].account.IsZeroLamport() == info.zeroLamport
  }

  predicate EntriesOk(index: Index) {
    forall k :: k in index ==> index[k].slotList != map[] && index[k].refCount == |index[k].slotList|
  }

  predicate StoragesOk(storages: Storages) {
    forall s :: s in storages ==> storages[s].Valid()
  }

  /** No index entry dangles, and none points at an unsettled record. */
  ghost predicate NoDangling(index: Index, storages: Storages, pending: Locations) {
    forall k, s :: s in Slots(index, k) ==>
      PointsAt(storages, k, s, Slots(index, k)[s]) && (s, Slots(index, k)[s].offset) !in pending
  }

  /** Every live record that is settled has its index entry. */
  ghost predicate AllIndexed(index: Index, storages: Storages, pending: Locations) {
    forall s, i: nat :: s in storages && storages[s].Live(i) && (s, i) !in pending ==>
      var list := Slots(index, storages[s].records[i].key);
      s in list && list[s].offset == i
  }

  ghost predicate PendingOk(storages: Storages, pending: Locations) {
    forall s, i :: (s, i) in pending ==> s in storages && storages[s].Live(i)
  }

  ghost predicate Linked(index: Index, storages: Storages, pending: Locations) {
    && EntriesOk(index)
    && StoragesOk(storages)
    && NoDangling(index, storages, pending)
    && AllIndexed(index, storages, pending)
    && PendingOk(storages, pending)
  }

  // ---------- giving a key a new slot list ----------

  function WithSlots(index: Index, k: Pubkey, list: map<Slot, Info>): Index {
    if list == map[] then index - {k} else index[k := Entry(list, |list|)]
  }

  lemma SlotsOfWithSlots(index: Index, k: Pubkey, list: map<Slot, Info>)
    ensures Slots(WithSlots(index, k, list), k) == list
    ensures forall j :: j != k ==> Slots(WithSlots(index, k, list), j) == Slots(index, j)
  {
  }

  /** The new entries are old ones or point at unsettled records of the key. */
  ghost predicate Extends(index: Index, storages: Storages, pending: Locations, k: Pubkey, list: map<Slot, Info>) {
    forall s :: s in list ==>
      || (s in Slots(index, k) && Slots(index, k)[s] == list[s])
      || (PointsAt(storages, k, s, list[s]) && (s, list[s].offset) in pending)
  }

  /** Changing one slot list settles the records it gains and unsettles the ones it loses. */
  lemma Relink(index: Index, storages: Storages, pending: Locations, k: Pubkey, list: map<Slot, Info>)
    requires Linked(index, storages, pending) && Extends(index, storages, pending, k, list)
    ensures Linked(WithSlots(index, k, list), storages, pending + Locs(Slots(index, k)) - Locs(list))
  {
    RelinkNoDangling(index, storages, pending, k, list);
    RelinkAllIndexed(index, storages, pending, k, list);
    RelinkPending(index, storages, pending, k, list);
    RelinkEntries(index, k, list);
  }

  lemma RelinkEntries(index: Index, k: Pubkey, list: map<Slot, Info>)
    requires EntriesOk(index)
    ensures EntriesOk(WithSlots(index, k, list))
  {
  }

  lemma RelinkPending(index: Index, storages: Storages, pending: Locations, k: Pubkey, list: map<Slot, Info>)
    requires PendingOk(storages, pending) && NoDangling(index, storages, pending)
    ensures PendingOk(storages, pending + Locs(Slots(index, k)) - Locs(list))
  {
  }

  lemma RelinkNoDangling(index: Index, storages: Storages, pending: Locations, k: Pubkey, list: map<Slot, Info>)
    requires NoDangling(index, storages, pending) && Extends(index, storages, pending, k, list)
    ensures NoDangling(WithSlots(index, k, list), storages, pending + Locs(Slots(index, k)) - Locs(list))
  {
    var index', pending' := WithSlots(index, k, list), pending + Locs(Slots(index, k)) - Locs(list);
    SlotsOfWithSlots(index, k, list);
    forall j, s | s in Slots(index', j)
      ensures PointsAt(storages, j, s, Slots(index', j)[s]) && (s, Slots(index', j)[s].offset) !in pending'
    {
      // two keys never share a record
      assert j != k && s in Slots(index, k) ==> PointsAt(storages, k, s, Slots(index, k)[s]);
    }
  }

  lemma RelinkAllIndexed(index: Index, storages: Storages, pending: Locations, k: Pubkey, list: map<Slot, Info>)
    requires StoragesOk(storages) && NoDangling(index, storages, pending) && AllIndexed(index, storages, pending)
    requires Extends(index, storages, pending, k, list)
    ensures AllIndexed(WithSlots(index, k, list), storages, pending + Locs(Slots(index, k)) - Locs(list))
  {
    var index', pending' := WithSlots(index, k, list), pending + Locs(Slots(index, k)) - Locs(list);
    SlotsOfWithSlots(index, k, list);
    forall s, i: nat | s in storages && storages[s].Live(i) && (s, i) !in pending'
      ensures s in Slots(index', storages[s].records[i].key) && Slots(index', storages[s].records[i].key)[s].offset == i
    {
      if (s, i) in Locs(list) {
        assert PointsAt(storages, k, s, list[s]);
      }
    }
  }

  // ---------- index operations ----------

  function EntryOf(index: Index, k: Pubkey): Entry {
    if k in index then index[k] else Entry(map[], 0)
  }

  /** Entries an upsert at `slot` takes out: the one it replaces and, reclaiming, all older ones. */
  function PushedOut(list: map<Slot, Info>, slot: Slot, reclaim: bool): set<Slot> {
    set s | s in list && (s == slot || (reclaim && s < slot))
  }

  /** Puts `info` at `slot`; the reference count gains one and loses what is taken out. */
  function Upsert(index: Index, k: Pubkey, slot: Slot, info: Info, reclaim: bool): Index
    requires EntriesOk(index)
  {
    PushedOutFits(index, k, slot, reclaim);
    index[k := Entry(UpsertList(Slots(index, k), slot, info, reclaim),
                     EntryOf(index, k).refCount + 1 - |PushedOut(Slots(index, k), slot, reclaim)|)]
  }

  lemma PushedOutFits(index: Index, k: Pubkey, slot: Slot, reclaim: bool)
    requires EntriesOk(index)
    ensures |PushedOut(Slots(index, k), slot, reclaim)| <= EntryOf(index, k).refCount
  {
    SubsetSize(PushedOut(Slots(index, k), slot, reclaim), Slots(index, k).Keys);
  }

  lemma {:induction false} SubsetSize<T>(a: set<T>, b: set<T>)
    requires a <= b
    ensures |a| <= |b| && |b - a| == |b| - |a|
  {
    if a != {} {
      var x :| x in a;
      SubsetSize(a - {x}, b - {x});
      assert b - {x} - (a - {x}) == b - a;
    }
  }

  function UpsertList(list: map<Slot, Info>, slot: Slot, info: Info, reclaim: bool): map<Slot, Info> {
    map s | s in list.Keys + {slot} && (reclaim ==> slot <= s) :: if s == slot then info else list[s]
  }

  lemma UpsertKeys(list: map<Slot, Info>, slot: Slot, info: Info, reclaim: bool)
    ensures UpsertList(list, slot, info, reclaim).Keys == (list.Keys - PushedOut(list, slot, reclaim)) + {slot}
  {
  }

  lemma UpsertSize(list: map<Slot, Info>, slot: Slot, info: Info, reclaim: bool)
    ensures |UpsertList(list, slot, info, reclaim).Keys| == |list.Keys| + 1 - |PushedOut(list, slot, reclaim)|
  {
    UpsertKeys(list, slot, info, reclaim);
    SubsetSize(PushedOut(list, slot, reclaim), list.Keys);
  }

  /** The reference count stays the length of the slot list. */
  lemma UpsertCounts(index: Index, k: Pubkey, slot: Slot, info: Info, reclaim: bool)
    requires EntriesOk(index)
    ensures Upsert(index, k, slot, info, reclaim) ==
      WithSlots(index, k, UpsertList(Slots(index, k), slot, info, reclaim))
  {
    UpsertSize(Slots(index, k), slot, info, reclaim);
    assert slot in UpsertList(Slots(index, k), slot, info, reclaim);
  }

  // ---------- taking reclaimed records out of a storage ----------

  function OffsetsAt(locs: Locations, slot: Slot): (offsets: set<nat>)
    ensures forall o :: o in offsets <==> (slot, o) in locs
  {
    set p | p in locs && p.0 == slot :: p.1
  }

  /**
   What removing `offsets` makes of a storage. Reclaims marked at the storage's own slot become
   tombstones and stay counted; a storage losing all it has is emptied without marking anything;
   otherwise the records are marked obsolete.
   */
  function AfterReclaim(st: Storage, slot: Slot, offsets: set<nat>, mark: Slot): Storage
    requires |offsets| <= st.aliveCount && BytesAt(st.records, offsets) <= st.aliveBytes
  {
    if mark == slot then Bury(st, offsets)
    else if |offsets| == st.aliveCount then st.(aliveCount := 0, aliveBytes := 0)
    else Retire(st, offsets, mark)
  }

  predicate IsDead(st: Storage, slot: Slot, full: Option<Slot>) {
    st.aliveCount == 0 || (st.aliveCount == |st.tombstones| && CanPurge(full, slot))
  }

  function SettleSlot(storages: Storages, slot: Slot, offsets: set<nat>, mark: Slot, full: Option<Slot>): Storages
    requires slot in storages
    requires |offsets| <= storages[slot].aliveCount
    requires BytesAt(storages[slot].records, offsets) <= storages[slot].aliveBytes
  {
    var after := AfterReclaim(storages[slot], slot, offsets, mark);
    if IsDead(after, slot, full) then storages - {slot} else storages[slot := after]
  }

  /** Pending records of a slot are being reclaimed, as tombstones if marked at the slot itself. */
  ghost predicate CanSettle(storages: Storages, pending: Locations, slot: Slot, offsets: set<nat>, mark: Slot) {
    && slot in storages
    && (forall o :: o in offsets ==> (slot, o) in pending)
    && (mark == slot ==> forall o ::
          o in offsets && o < |storages[slot].records| ==> storages[slot].records[o].account.IsZeroLamport())
  }

  lemma SettleFits(storages: Storages, pending: Locations, slot: Slot, offsets: set<nat>, mark: Slot)
    requires StoragesOk(storages) && PendingOk(storages, pending) && CanSettle(storages, pending, slot, offsets, mark)
    ensures Reclaimable(storages[slot], offsets)
    ensures |offsets| <= storages[slot].aliveCount
    ensures BytesAt(storages[slot].records, offsets) <= storages[slot].aliveBytes
  {
    RetireKeepsValid(storages[slot], offsets, mark);
  }

  function Scaled(slot: Slot, offsets: set<nat>): (locs: Locations)
    ensures forall s, o :: (s, o) in locs <==> s == slot && o in offsets
  {
    set o | o in offsets :: (slot, o)
  }

  /** A reclaimed storage that survives is valid and lost exactly `offsets`; one that dies had no other live record. */
  ghost predicate Reclaimed(st: Storage, after: Storage, slot: Slot, offsets: set<nat>, full: Option<Slot>) {
    && after.records == st.records && after.id == st.id
    && (if IsDead(after, slot, full) then forall i: nat :: st.Live(i) ==> i in offsets
        else after.Valid() && forall i: nat :: after.Live(i) <==> st.Live(i) && i !in offsets)
  }

  lemma BuryReclaims(st: Storage, slot: Slot, offsets: set<nat>, full: Option<Slot>)
    requires st.Valid() && Reclaimable(st, offsets)
    requires forall o :: o in offsets ==> st.records[o].account.IsZeroLamport()
    ensures Reclaimed(st, Bury(st, offsets), slot, offsets, full)
  {
    var after := Bury(st, offsets);
    BuryKeepsValid(st, offsets);
    assert forall i: nat :: after.Live(i) <==> st.Live(i) && i !in offsets;
    NoneOutside(|st.records|, st.obsolete.Keys);
    if after.aliveCount == |after.tombstones| {
      OnlyTombstones(after);
      assert forall i: nat :: !after.Live(i);
    }
  }

  lemma RetireReclaims(st: Storage, slot: Slot, offsets: set<nat>, mark: Slot, full: Option<Slot>)
    requires st.Valid() && Reclaimable(st, offsets)
    requires |offsets| <= st.aliveCount && BytesAt(st.records, offsets) <= st.aliveBytes
    ensures Reclaimed(st, Retire(st, offsets, mark), slot, offsets, full)
  {
    var after := Retire(st, offsets, mark);
    RetireKeepsValid(st, offsets, mark);
    assert forall i: nat :: after.Live(i) <==> st.Live(i) && i !in offsets;
    NoneOutside(|st.records|, after.obsolete.Keys);
    if after.aliveCount == |after.tombstones| {
      OnlyTombstones(after);
      assert forall i: nat :: !after.Live(i);
    }
  }

  lemma ReclaimReclaims(st: Storage, slot: Slot, offsets: set<nat>, mark: Slot, full: Option<Slot>)
    requires st.Valid() && Reclaimable(st, offsets)
    requires |offsets| <= st.aliveCount && BytesAt(st.records, offsets) <= st.aliveBytes
    requires mark == slot ==> forall o :: o in offsets ==> st.records[o].account.IsZeroLamport()
    ensures Reclaimed(st, AfterReclaim(st, slot, offsets, mark), slot, offsets, full)
  {
    if mark == slot {
      BuryReclaims(st, slot, offsets, full);
    } else if |offsets| == st.aliveCount {
      AllAlive(|st.records|, st.obsolete.Keys, offsets);
    } else {
      RetireReclaims(st, slot, offsets, mark, full);
    }
  }

  lemma ReclaimMarks(st: Storage, slot: Slot, offsets: set<nat>, mark: Slot)
    requires Reclaimable(st, offsets) && |offsets| <= st.aliveCount && BytesAt(st.records, offsets) <= st.aliveBytes
    ensures MarkedAt(st.obsolete, AfterReclaim(st, slot, offsets, mark).obsolete, offsets, mark)
  {
  }

  /** The records go, the counters fall by what they held unless they stay as tombstones, and the rest is as it was. */
  ghost predicate TakesOut(st: Storage, after: Storage, slot: Slot, offsets: set<nat>, mark: Slot) {
    && (forall full: Option<Slot> :: Reclaimed(st, after, slot, offsets, full))
    && after.aliveCount == st.aliveCount - (if mark == slot then 0 else |offsets|)
    && after.aliveBytes == st.aliveBytes - (if mark == slot then 0 else BytesAt(st.records, offsets))
    && MarkedAt(st.obsolete, after.obsolete, offsets, mark)
  }

  lemma ReclaimCounts(st: Storage, slot: Slot, offsets: set<nat>, mark: Slot)
    requires st.Valid() && Reclaimable(st, offsets)
    requires |offsets| <= st.aliveCount && BytesAt(st.records, offsets) <= st.aliveBytes
    ensures var after := AfterReclaim(st, slot, offsets, mark);
      && after.aliveCount == st.aliveCount - (if mark == slot then 0 else |offsets|)
      && after.aliveBytes == st.aliveBytes - (if mark == slot then 0 else BytesAt(st.records, offsets))
  {
    hide StorageEntry.Storage.Valid;
    if mark != slot && |offsets| == st.aliveCount {
      RetireAll(st, offsets, mark);
    }
  }

  lemma ReclaimTakesOut(st: Storage, slot: Slot, offsets: set<nat>, mark: Slot)
    requires st.Valid() && Reclaimable(st, offsets)
    requires mark == slot ==> forall o :: o in offsets ==> st.records[o].account.IsZeroLamport()
    ensures |offsets| <= st.aliveCount && BytesAt(st.records, offsets) <= st.aliveBytes
    ensures TakesOut(st, AfterReclaim(st, slot, offsets, mark), slot, offsets, mark)
  {
    hide Reclaimed, MarkedAt, AfterReclaim, Retire, StorageEntry.Storage.Valid;
    RetireKeepsValid(st, offsets, mark);
    forall full: Option<Slot> ensures Reclaimed(st, AfterReclaim(st, slot, offsets, mark), slot, offsets, full) {
      ReclaimReclaims(st, slot, offsets, mark, full);
    }
    ReclaimMarks(st, slot, offsets, mark);
    ReclaimCounts(st, slot, offsets, mark);
  }

  /** Settling reclaimed records keeps index and storages in agreement, also when the storage goes. */
  lemma Settle(index: Index, storages: Storages, pending: Locations, slot: Slot, offsets: set<nat>, mark: Slot,
               full: Option<Slot>)
    requires Linked(index, storages, pending) && CanSettle(storages, pending, slot, offsets, mark)
    ensures |offsets| <= storages[slot].aliveCount
    ensures BytesAt(storages[slot].records, offsets) <= storages[slot].aliveBytes
    ensures Linked(index, SettleSlot(storages, slot, offsets, mark, full), pending - Scaled(slot, offsets))
  {
    SettleFits(storages, pending, slot, offsets, mark);
    ReclaimReclaims(storages[slot], slot, offsets, mark, full);
    var after := AfterReclaim(storages[slot], slot, offsets, mark);
    if IsDead(after, slot, full) {
      SettleDead(index, storages, pending, slot, offsets);
    } else {
      SettleAlive(index, storages, pending, slot, offsets, after);
    }
  }

  lemma SettleAlive(index: Index, storages: Storages, pending: Locations, slot: Slot, offsets: set<nat>, after: Storage)
    requires Linked(index, storages, pending) && slot in storages
    requires forall o :: o in offsets ==> (slot, o) in pending
    requires after.Valid() && after.records == storages[slot].records && after.id == storages[slot].id
    requires forall i: nat :: after.Live(i) <==> storages[slot].Live(i) && i !in offsets
    ensures Linked(index, storages[slot := after], pending - Scaled(slot, offsets))
  {
    var storages', pending' := storages[slot := after], pending - Scaled(slot, offsets);
    assert NoDangling(index, storages', pending') by {
      forall k, s | s in Slots(index, k)
        ensures PointsAt(storages', k, s, Slots(index, k)[s]) && (s, Slots(index, k)[s].offset) !in pending'
      {
        assert PointsAt(storages, k, s, Slots(index, k)[s]);
      }
    }
    assert AllIndexed(index, storages', pending');
  }

  lemma SettleDead(index: Index, storages: Storages, pending: Locations, slot: Slot, offsets: set<nat>)
    requires Linked(index, storages, pending) && slot in storages
    requires forall o :: o in offsets ==> (slot, o) in pending
    requires forall i: nat :: storages[slot].Live(i) ==> i in offsets
    ensures Linked(index, storages - {slot}, pending - Scaled(slot, offsets))
  {
    var storages', pending' := storages - {slot}, pending - Scaled(slot, offsets);
    assert NoDangling(index, storages', pending') by {
      forall k, s | s in Slots(index, k)
        ensures PointsAt(storages', k, s, Slots(index, k)[s]) && (s, Slots(index, k)[s].offset) !in pending'
      {
        assert PointsAt(storages, k, s, Slots(index, k)[s]);
      }
    }
    assert AllIndexed(index, storages', pending');
  }

  // ---------- a new storage ----------

  lemma AddStorage(index: Index, storages: Storages, pending: Locations, slot: Slot, st: Storage)
    requires Linked(index, storages, pending) && slot !in storages
    requires st.Valid()
    ensures Linked(index, storages[slot := st], pending + Scaled(slot, set i: nat | i < |st.records| && st.Live(i)))
  {
    var live := set i: nat | i < |st.records| && st.Live(i);
    var storages', pending' := storages[slot := st], pending + Scaled(slot, live);
    assert NoDangling(index, storages', pending') by {
      forall k, s | s in Slots(index, k)
        ensures PointsAt(storages', k, s, Slots(index, k)[s]) && (s, Slots(index, k)[s].offset) !in pending'
      {
        assert PointsAt(storages, k, s, Slots(index, k)[s]);
      }
    }
  }

  // ---------- what index and storages hold ----------

  /** The versions of a key the index points at. */
  function Versions(index: Index, storages: Storages, k: Pubkey): map<Slot, Account> {
    var list := Slots(index, k);
    map s | s in list && s in storages && list[s].offset < |storages[s].records| ::
      storages[s].records[list[s].offset].account
  }

  function Buried(storages: Storages): map<Slot, set<Pubkey>> {
    map s | s in storages :: storages[s].Buried()
  }

  /** Under agreement the index hides nothing: a key has exactly the versions its slot list names. */
  lemma VersionsAreSlots(index: Index, storages: Storages, pending: Locations, k: Pubkey)
    requires NoDangling(index, storages, pending)
    ensures Versions(index, storages, k).Keys == Slots(index, k).Keys
    ensures forall s :: s in Slots(index, k) ==>
      PointsAt(storages, k, s, Slots(index, k)[s]) &&
      Versions(index, storages, k)[s] == storages[s].records[Slots(index, k)[s].offset].account &&
      Versions(index, storages, k)[s].IsZeroLamport() == Slots(index, k)[s].zeroLamport
  {
    forall s | s in Slots(index, k) ensures PointsAt(storages, k, s, Slots(index, k)[s]) {}
  }

  // ---------- reclaiming from many storages ----------

  type SlotOffsets = map<Slot, set<nat>>

  function GroupBySlot(locs: Locations): (offsets: SlotOffsets)
    ensures forall s, o :: (s, o) in locs ==> s in offsets && o in offsets[s]
    ensures forall s, o :: s in offsets && o in offsets[s] ==> (s, o) in locs
    ensures forall s :: s in offsets ==> offsets[s] != {}
  {
    var slots := set p | p in locs :: p.0;
    assert forall s, o :: (s, o) in locs ==> s in slots;
    assert forall s :: s in slots ==> exists o :: (s, o) in locs && o in OffsetsAt(locs, s);
    map s | s in slots :: OffsetsAt(locs, s)
  }

  ghost predicate Fits(storages: Storages, offsets: SlotOffsets) {
    forall s :: s in offsets && s in storages ==>
      |offsets[s]| <= storages[s].aliveCount && BytesAt(storages[s].records, offsets[s]) <= storages[s].aliveBytes
  }

  predicate Survives(storages: Storages, offsets: SlotOffsets, mark: Slot, full: Option<Slot>, s: Slot)
    requires s in storages && s in offsets
    requires |offsets[s]| <= storages[s].aliveCount
    requires BytesAt(storages[s].records, offsets[s]) <= storages[s].aliveBytes
  {
    !IsDead(AfterReclaim(storages[s], s, offsets[s], mark), s, full)
  }

  /** `offsets` taken out of every storage they lie in, storages that die being dropped. */
  ghost function SettleAll(storages: Storages, offsets: SlotOffsets, mark: Slot, full: Option<Slot>): Storages
    requires Fits(storages, offsets)
  {
    map s | s in storages && (s in offsets ==> Survives(storages, offsets, mark, full, s)) ::
      if s in offsets then AfterReclaim(storages[s], s, offsets[s], mark) else storages[s]
  }
}
