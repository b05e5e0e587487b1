/** What a full snapshot holds, and purging storages that hold only tombstones once it covers them. */
module Snapshot {
  import opened Types
  import opened StorageEntry
  import opened AccountsIndex
  import opened View
  import L = Ledger
  import P = LedgerProofs

  /** A snapshot at `slot` leaves out records marked obsolete by then; tombstones are included. */
  predicate InSnapshot(st: Storage, slot: Slot, i: nat) {
    i < |st.records| && (i in st.obsolete ==> slot < st.obsolete[i])
  }

  ghost predicate HasKey(st: Storage, slot: Slot, k: Pubkey) {
    exists i: nat :: InSnapshot(st, slot, i) && st.records[i].key == k
  }

  ghost function RecordOf(st: Storage, slot: Slot, k: Pubkey): Account
    requires HasKey(st, slot, k)
  {
    var i: nat :| InSnapshot(st, slot, i) && st.records[i].key == k;
    st.records[i].account
  }

  /** Every record of a key in the storages a snapshot at `slot` takes. */
  ghost function Taken(storages: Storages, slot: Slot, k: Pubkey): map<Slot, Account> {
    map s | s in storages && s <= slot && HasKey(storages[s], slot, k) :: RecordOf(storages[s], slot, k)
  }

  ghost function AllKeys(storages: Storages): set<Pubkey> {
    set s, i | s in storages && 0 <= i < |storages[s].records| :: storages[s].records[i].key
  }

  /** What a restart reads from the snapshot: the newest record of each key. */
  ghost function ArchiveOf(storages: Storages, slot: Slot): map<Pubkey, Account> {
    map k | k in AllKeys(storages) && Taken(storages, slot, k) != map[] ::
      Taken(storages, slot, k)[Max(Taken(storages, slot, k).Keys)]
  }

  lemma TakenHasKey(storages: Storages, slot: Slot, k: Pubkey)
    requires Taken(storages, slot, k) != map[]
    ensures k in AllKeys(storages)
  {
    var s :| s in Taken(storages, slot, k);
    var i: nat :| InSnapshot(storages[s], slot, i) && storages[s].records[i].key == k;
    assert storages[s].records[i].key in AllKeys(storages);
  }

  /** The records a snapshot takes from one storage are its live ones and its tombstones. */
  lemma KeyInStorage(index: Index, storages: Storages, s: Slot, slot: Slot, k: Pubkey)
    requires NoDangling(index, storages, {}) && AllIndexed(index, storages, {}) && s in storages && storages[s].Shaped()
    requires forall i :: i in storages[s].obsolete ==> storages[s].obsolete[i] <= slot
    ensures HasKey(storages[s], slot, k) <==> s in Slots(index, k) || k in storages[s].Buried()
    ensures s in Slots(index, k) ==>
      RecordOf(storages[s], slot, k) == storages[s].records[Slots(index, k)[s].offset].account
    ensures HasKey(storages[s], slot, k) && s !in Slots(index, k) ==> RecordOf(storages[s], slot, k).IsZeroLamport()
  {
    var st := storages[s];
    if HasKey(st, slot, k) {
      var i: nat :| InSnapshot(st, slot, i) && st.records[i].key == k;
      assert st.Live(i) || i in st.tombstones;
    }
    if s in Slots(index, k) {
      assert PointsAt(storages, k, s, Slots(index, k)[s]);
      assert InSnapshot(st, slot, Slots(index, k)[s].offset);
    }
    if k in st.Buried() {
      var i :| i in st.tombstones && i < |st.records| && st.records[i].key == k;
      assert InSnapshot(st, slot, i);
    }
  }

  lemma TakenIsDisk(index: Index, storages: Storages, slot: Slot, rest: L.Ledger, k: Pubkey)
    requires Linked(index, storages, {})
    requires forall s :: s in storages ==> forall i :: i in storages[s].obsolete ==> storages[s].obsolete[i] <= slot
    ensures var disk := L.UpTo(L.Disk(ViewOf(index, storages, rest), k), slot);
      && Taken(storages, slot, k).Keys == disk.Keys
      && forall s :: s in disk ==> L.Alive(disk[s]) == L.Alive(Taken(storages, slot, k)[s])
  {
    ViewHolds(index, storages, rest, k);
    VersionsAreSlots(index, storages, {}, k);
    var disk := L.UpTo(L.Disk(ViewOf(index, storages, rest), k), slot);
    forall s ensures s in disk <==> s in Taken(storages, slot, k) {
      if s in storages { KeyInStorage(index, storages, s, slot, k); }
    }
    forall s | s in disk ensures L.Alive(disk[s]) == L.Alive(Taken(storages, slot, k)[s]) {
      KeyInStorage(index, storages, s, slot, k);
    }
  }

  lemma ArchiveIsNewest(index: Index, storages: Storages, slot: Slot, rest: L.Ledger, k: Pubkey)
    requires Linked(index, storages, {})
    requires forall s :: s in storages ==> forall i :: i in storages[s].obsolete ==> storages[s].obsolete[i] <= slot
    ensures var l := ViewOf(index, storages, rest.(full := Some(slot), archive := ArchiveOf(storages, slot)));
      L.ArchiveAnswer(l, k) == L.Newest(L.UpTo(L.Disk(ViewOf(index, storages, rest), k), slot))
  {
    hide Linked;
    TakenIsDisk(index, storages, slot, rest, k);
    var taken := Taken(storages, slot, k);
    if taken != map[] {
      TakenHasKey(storages, slot, k);
      var disk := L.UpTo(L.Disk(ViewOf(index, storages, rest), k), slot);
      P.NewestIs(disk, Max(taken.Keys));
    }
  }

  /** What a restart reads: the records above the full snapshot, laid over what that snapshot holds. */
  ghost function Rebuilt(storages: Storages, full: Option<Slot>, archive: map<Pubkey, Account>, slot: Slot,
                         k: Pubkey): Option<Account> {
    var recent := L.Above(Taken(storages, slot, k), if full.Some? then full.value else -1);
    if recent != map[] then L.Newest(recent) else if k in archive then L.Alive(archive[k]) else None
  }

  /** Reading records rebuilds what the ledger says a restart does. */
  lemma RebuiltIsRestart(index: Index, storages: Storages, slot: Slot, rest: L.Ledger, k: Pubkey)
    requires Linked(index, storages, {})
    requires forall s :: s in storages ==> forall i :: i in storages[s].obsolete ==> storages[s].obsolete[i] <= slot
    ensures Rebuilt(storages, rest.full, rest.archive, slot, k) == L.Restart(ViewOf(index, storages, rest), slot, k)
  {
    TakenIsDisk(index, storages, slot, rest, k);
    hide Linked, Taken, L.Disk;
    var l := ViewOf(index, storages, rest);
    var recent := L.Above(Taken(storages, slot, k), L.Base(l));
    var incremental := L.Above(L.UpTo(L.Disk(l, k), slot), L.Base(l));
    assert recent.Keys == incremental.Keys;
    if recent != map[] {
      var top := Max(recent.Keys);
      P.NewestIs(recent, top);
      P.NewestIs(incremental, top);
    }
  }

  /** Taking a full snapshot, seen from the ledger. */
  lemma SnapshotIsStep(index: Index, storages: Storages, slot: Slot, rest: L.Ledger)
    requires Linked(index, storages, {})
    requires forall s :: s in storages ==> forall i :: i in storages[s].obsolete ==> storages[s].obsolete[i] <= slot
    requires L.Base(rest) <= slot && rest.cleaned <= slot <= rest.maxRoot
    requires forall r :: r in rest.unflushed ==> slot < r
    ensures L.SnapshotStep(ViewOf(index, storages, rest), slot,
                           ViewOf(index, storages, rest.(full := Some(slot), archive := ArchiveOf(storages, slot))))
  {
    hide Linked;
    var l' := ViewOf(index, storages, rest.(full := Some(slot), archive := ArchiveOf(storages, slot)));
    forall k ensures L.ArchiveAnswer(l', k) == L.Newest(L.UpTo(L.Disk(ViewOf(index, storages, rest), k), slot)) {
      ArchiveIsNewest(index, storages, slot, rest, k);
    }
  }

  // ---------- sweeping ----------

  /** Dropping a storage without live records leaves no index entry dangling. */
  lemma SweepOne(index: Index, storages: Storages, slot: Slot)
    requires Linked(index, storages, {}) && slot in storages && storages[slot].HasOnlyTombstones()
    ensures Linked(index, storages - {slot}, {})
  {
    OnlyTombstones(storages[slot]);
    SettleDead(index, storages, {}, slot, {});
    assert {} - Scaled(slot, {}) == {};
  }

  lemma SweepIsStep(index: Index, storages: Storages, swept: Storages, gone: set<Slot>, rest: L.Ledger)
    requires swept == storages - gone && NoDangling(index, swept, {})
    requires forall s :: s in gone ==> CanPurge(rest.full, s)
    ensures L.SweepStep(ViewOf(index, storages, rest), gone, ViewOf(index, swept, rest))
  {
    var l, l' := ViewOf(index, storages, rest), ViewOf(index, swept, rest);
    forall k
      ensures Versions(index, swept, k) == Versions(index, storages, k) && L.Graves(l', k) == L.Graves(l, k) - gone {
      VersionsAreSlots(index, swept, {}, k);
      ViewHolds(index, storages, rest, k);
      ViewHolds(index, swept, rest, k);
      SameMap(Versions(index, swept, k), Versions(index, storages, k));
    }
    assert l'.stored == l.stored;
  }
}
