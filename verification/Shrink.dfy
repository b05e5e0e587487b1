/** Rewriting a slot's storage with only what is still needed of it. */
module Shrink {
  import opened Types
  import opened StorageEntry
  import opened AccountsIndex
  import opened Flush
  import opened View
  import L = Ledger

  /** The index holds nothing of the key but a zero-lamport entry at `slot`. */
  predicate IsSingleZero(index: Index, slot: Slot, k: Pubkey) {
    k in index && slot in index[k].slotList && index[k].slotList[slot].zeroLamport && index[k].refCount == 1
  }

  /** The record is moved to the new storage. */
  predicate Moves(index: Index, st: Storage, slot: Slot, i: nat) {
    st.Live(i) && !IsSingleZero(index, slot, st.records[i].key)
  }

  /** The record's index entry is dropped. */
  predicate Drops(index: Index, st: Storage, slot: Slot, i: nat) {
    st.Live(i) && IsSingleZero(index, slot, st.records[i].key)
  }

  /** The record is carried forward as a tombstone. */
  predicate Carries(index: Index, st: Storage, slot: Slot, canPurge: bool, i: nat) {
    !canPurge && i < |st.records| && ((i in st.tombstones && i !in st.obsolete) || Drops(index, st, slot, i))
  }

  ghost predicate NoRepeats(offsets: seq<nat>) {
    forall a, b :: 0 <= a < b < |offsets| ==> offsets[a] != offsets[b]
  }

  ghost predicate CollectsAlive(index: Index, st: Storage, slot: Slot, n: nat, alive: seq<nat>) {
    NoRepeats(alive) && forall i: nat :: i in alive <==> i < n && Moves(index, st, slot, i)
  }

  ghost predicate CollectsCarried(index: Index, st: Storage, slot: Slot, canPurge: bool, n: nat, carried: seq<nat>) {
    NoRepeats(carried) && forall i: nat :: i in carried <==> i < n && Carries(index, st, slot, canPurge, i)
  }

  ghost predicate CollectsSingles(index: Index, st: Storage, slot: Slot, n: nat, singles: set<Pubkey>) {
    && n <= |st.records|
    && (forall i: nat :: i < n && Drops(index, st, slot, i) ==> st.records[i].key in singles)
    && (forall k :: k in singles ==> exists i: nat :: i < n && Drops(index, st, slot, i) && st.records[i].key == k)
  }

  /** What a shrink collects: offsets to move, offsets to carry forward, keys to drop from the index. */
  ghost predicate Collected(index: Index, st: Storage, slot: Slot, canPurge: bool, n: nat,
                            alive: seq<nat>, carried: seq<nat>, singles: set<Pubkey>) {
    && CollectsAlive(index, st, slot, n, alive)
    && CollectsCarried(index, st, slot, canPurge, n, carried)
    && CollectsSingles(index, st, slot, n, singles)
  }

  lemma NextAlive(index: Index, st: Storage, slot: Slot, i: nat, alive: seq<nat>)
    requires CollectsAlive(index, st, slot, i, alive)
    ensures CollectsAlive(index, st, slot, i + 1, if Moves(index, st, slot, i) then alive + [i] else alive)
  {
    assert forall a :: 0 <= a < |alive| ==> alive[a] in alive;
  }

  lemma NextCarried(index: Index, st: Storage, slot: Slot, canPurge: bool, i: nat, carried: seq<nat>)
    requires CollectsCarried(index, st, slot, canPurge, i, carried)
    ensures CollectsCarried(index, st, slot, canPurge, i + 1, if Carries(index, st, slot, canPurge, i)
      then carried + [i] else carried)
  {
    assert forall a :: 0 <= a < |carried| ==> carried[a] in carried;
  }

  lemma NextSingles(index: Index, st: Storage, slot: Slot, i: nat, singles: set<Pubkey>)
    requires CollectsSingles(index, st, slot, i, singles) && i < |st.records|
    ensures CollectsSingles(index, st, slot, i + 1, if Drops(index, st, slot, i) then singles + {st.records[i].key}
      else singles)
  {
  }

  method ShrinkCollect(index: Index, st: Storage, slot: Slot, canPurge: bool)
    returns (alive: seq<nat>, carried: seq<nat>, singles: set<Pubkey>)
    requires st.Valid()
    ensures Collected(index, st, slot, canPurge, |st.records|, alive, carried, singles)
  {
    hide CollectsAlive, CollectsCarried, CollectsSingles;
    alive, carried, singles := [], [], {};
    NoneCollected(index, st, slot, canPurge);
    for i := 0 to |st.records|
      invariant Collected(index, st, slot, canPurge, i, alive, carried, singles)
    {
      NextAlive(index, st, slot, i, alive);
      NextCarried(index, st, slot, canPurge, i, carried);
      NextSingles(index, st, slot, i, singles);
      var k := st.records[i].key;
      if i in st.obsolete {
      } else if i in st.tombstones {
        if !canPurge {
          carried := carried + [i];
        }
      } else if IsSingleZero(index, slot, k) {
        singles := singles + {k};
        if !canPurge {
          carried := carried + [i];
        }
      } else {
        alive := alive + [i];
      }
    }
  }

  lemma NoneCollected(index: Index, st: Storage, slot: Slot, canPurge: bool)
    ensures Collected(index, st, slot, canPurge, 0, [], [], {})
  {
  }

  function RecordsAt(st: Storage, offsets: seq<nat>): (records: seq<Record>)
    requires forall j :: 0 <= j < |offsets| ==> offsets[j] < |st.records|
    ensures |records| == |offsets| && forall j :: 0 <= j < |offsets| ==> records[j] == st.records[offsets[j]]
  {
    seq(|offsets|, j requires 0 <= j < |offsets| => st.records[offsets[j]])
  }

  function Range(lo: nat, hi: nat): (r: set<nat>)
    ensures forall j :: j in r <==> lo <= j < hi
  {
    if hi <= lo then {} else Range(lo, hi - 1) + {hi - 1}
  }

  /** The storage that replaces the old one: moved records first, tombstones behind them. */
  function ShrunkStorage(st: Storage, id: nat, alive: seq<nat>, carried: seq<nat>): Storage
    requires forall j :: 0 <= j < |alive| + |carried| ==> (alive + carried)[j] < |st.records|
  {
    Written(id, RecordsAt(st, alive + carried), Range(|alive|, |alive| + |carried|))
  }

  // ---------- the new storage ----------

  lemma ShrunkFits(index: Index, st: Storage, slot: Slot, canPurge: bool, alive: seq<nat>, carried: seq<nat>)
    requires st.Valid() && CollectsAlive(index, st, slot, |st.records|, alive)
    requires CollectsCarried(index, st, slot, canPurge, |st.records|, carried)
    ensures forall j :: 0 <= j < |alive| + |carried| ==> (alive + carried)[j] < |st.records|
    ensures NoRepeats(alive + carried)
    ensures forall j :: 0 <= j < |alive| ==> Moves(index, st, slot, alive[j])
    ensures forall j :: 0 <= j < |carried| ==> Carries(index, st, slot, canPurge, carried[j])
  {
    assert forall j :: 0 <= j < |alive| ==> alive[j] in alive;
    assert forall j :: 0 <= j < |carried| ==> carried[j] in carried;
  }

  lemma ShrunkValid(index: Index, storages: Storages, slot: Slot, canPurge: bool, id: nat, alive: seq<nat>,
                    carried: seq<nat>)
    requires NoDangling(index, storages, {}) && AllIndexed(index, storages, {}) && slot in storages
    requires storages[slot].Valid()
    requires CollectsAlive(index, storages[slot], slot, |storages[slot].records|, alive)
    requires CollectsCarried(index, storages[slot], slot, canPurge, |storages[slot].records|, carried)
    ensures forall j :: 0 <= j < |alive| + |carried| ==> (alive + carried)[j] < |storages[slot].records|
    ensures ShrunkStorage(storages[slot], id, alive, carried).Valid()
    ensures alive + carried != [] ==> ShrunkStorage(storages[slot], id, alive, carried).aliveCount > 0
  {
    var st, both := storages[slot], alive + carried;
    ShrunkFits(index, st, slot, canPurge, alive, carried);
    var records := RecordsAt(st, both);
    forall i, j | 0 <= i < j < |records| ensures records[i].key != records[j].key {
      assert both[i] != both[j];
    }
    forall j | j in Range(|alive|, |alive| + |carried|) ensures records[j].account.IsZeroLamport() {
      var i := carried[j - |alive|];
      assert both[j] == i;
      if Drops(index, st, slot, i) {
        assert PointsAt(storages, st.records[i].key, slot, Slots(index, st.records[i].key)[slot]);
      }
    }
    WrittenIsValid(id, records, Range(|alive|, |alive| + |carried|));
  }

  // ---------- the index ----------

  /** The index once the moved records and the dropped keys are dealt with. */
  ghost predicate ShrunkIndex(was: Index, index: Index, st: Storage, slot: Slot, id: nat, alive: seq<nat>,
                              singles: set<Pubkey>, n: nat) {
    && n <= |alive| && (forall j :: 0 <= j < |alive| ==> alive[j] < |st.records|)
    && (forall j: nat :: j < n ==>
          var r := st.records[alive[j]];
            Slots(index, r.key) == Slots(was, r.key)[slot := Info(id, j, r.account.IsZeroLamport())])
    && (forall k :: k in singles ==> Slots(index, k) == map[])
    && (forall k :: k !in singles && (forall j: nat :: j < n ==> st.records[alive[j]].key != k) ==>
          Slots(index, k) == Slots(was, k))
  }

  /** A key with an entry at the slot is moved or dropped. */
  lemma EntryIsCollected(was: Index, storages: Storages, slot: Slot, alive: seq<nat>, singles: set<Pubkey>, k: Pubkey)
    requires NoDangling(was, storages, {}) && slot in storages && slot in Slots(was, k)
    requires CollectsAlive(was, storages[slot], slot, |storages[slot].records|, alive)
    requires CollectsSingles(was, storages[slot], slot, |storages[slot].records|, singles)
    ensures k in singles || exists j: nat :: j < |alive| && alive[j] == Slots(was, k)[slot].offset
  {
    var i := Slots(was, k)[slot].offset;
    assert PointsAt(storages, k, slot, Slots(was, k)[slot]);
    if Moves(was, storages[slot], slot, i) {
      assert i in alive;
    } else {
      assert Drops(was, storages[slot], slot, i);
    }
  }

  lemma MovedHasEntry(was: Index, storages: Storages, slot: Slot, alive: seq<nat>, j: nat)
    requires AllIndexed(was, storages, {}) && NoDangling(was, storages, {}) && slot in storages && j < |alive|
    requires CollectsAlive(was, storages[slot], slot, |storages[slot].records|, alive)
    ensures alive[j] < |storages[slot].records| && storages[slot].Live(alive[j])
    ensures var k := storages[slot].records[alive[j]].key;
      slot in Slots(was, k) && Slots(was, k)[slot].offset == alive[j] &&
        PointsAt(storages, k, slot, Slots(was, k)[slot])
  {
    assert alive[j] in alive;
  }

  lemma SingleHasOnly(was: Index, st: Storage, slot: Slot, singles: set<Pubkey>, k: Pubkey)
    requires EntriesOk(was) && CollectsSingles(was, st, slot, |st.records|, singles) && k in singles
    ensures slot in Slots(was, k) && Slots(was, k).Keys == {slot} && Slots(was, k)[slot].zeroLamport
  {
    assert IsSingleZero(was, slot, k);
    var list := Slots(was, k);
    SubsetSize({slot}, list.Keys);
    assert list.Keys - {slot} == {};
  }

  lemma ShrunkNoDangling(was: Index, index: Index, storages: Storages, slot: Slot, id: nat, alive: seq<nat>,
                         carried: seq<nat>, singles: set<Pubkey>)
    requires NoDangling(was, storages, {}) && slot in storages
    requires ShrunkIndex(was, index, storages[slot], slot, id, alive, singles, |alive|)
    requires CollectsAlive(was, storages[slot], slot, |storages[slot].records|, alive)
    requires CollectsSingles(was, storages[slot], slot, |storages[slot].records|, singles)
    requires forall j :: 0 <= j < |alive| + |carried| ==> (alive + carried)[j] < |storages[slot].records|
    ensures NoDangling(index, storages[slot := ShrunkStorage(storages[slot], id, alive, carried)], {})
  {
    var st, new_ := storages[slot], ShrunkStorage(storages[slot], id, alive, carried);
    forall k, s | s in Slots(index, k)
      ensures PointsAt(storages[slot := new_], k, s, Slots(index, k)[s])
    {
      if s == slot && slot in Slots(was, k) {
        EntryIsCollected(was, storages, slot, alive, singles, k);
        assert k !in singles;
        var j: nat :| j < |alive| && alive[j] == Slots(was, k)[slot].offset;
        assert PointsAt(storages, k, slot, Slots(was, k)[slot]);
        assert new_.records[j] == st.records[alive[j]];
      } else if s != slot {
        assert s in Slots(was, k) && Slots(index, k)[s] == Slots(was, k)[s];
        assert PointsAt(storages, k, s, Slots(was, k)[s]);
      }
    }
  }

  lemma ShrunkAllIndexed(was: Index, index: Index, storages: Storages, slot: Slot, id: nat, alive: seq<nat>,
                         carried: seq<nat>, singles: set<Pubkey>)
    requires EntriesOk(was) && AllIndexed(was, storages, {}) && slot in storages
    requires ShrunkIndex(was, index, storages[slot], slot, id, alive, singles, |alive|)
    requires CollectsSingles(was, storages[slot], slot, |storages[slot].records|, singles)
    requires forall j :: 0 <= j < |alive| + |carried| ==> (alive + carried)[j] < |storages[slot].records|
    ensures AllIndexed(index, storages[slot := ShrunkStorage(storages[slot], id, alive, carried)], {})
  {
    var st, new_ := storages[slot], ShrunkStorage(storages[slot], id, alive, carried);
    var storages' := storages[slot := new_];
    forall s, i: nat | s in storages' && storages'[s].Live(i)
      ensures var list := Slots(index, storages'[s].records[i].key); s in list && list[s].offset == i
    {
      if s == slot {
        assert i < |alive| && new_.records[i] == st.records[alive[i]];
      } else {
        var k := storages[s].records[i].key;
        assert s in Slots(was, k) && Slots(was, k)[s].offset == i;
        if k in singles {
          SingleHasOnly(was, st, slot, singles, k);
        }
      }
    }
  }

  // ---------- the shrink as a step of the ledger ----------

  /** A key that is not dropped keeps its slots and, in the new storage too, its accounts. */
  lemma ShrinkKeepsVersions(was: Index, index: Index, storages: Storages, slot: Slot, id: nat, alive: seq<nat>,
                            carried: seq<nat>, singles: set<Pubkey>, k: Pubkey)
    requires NoDangling(was, storages, {}) && AllIndexed(was, storages, {}) && slot in storages && k !in singles
    requires ShrunkIndex(was, index, storages[slot], slot, id, alive, singles, |alive|)
    requires CollectsAlive(was, storages[slot], slot, |storages[slot].records|, alive)
    requires CollectsSingles(was, storages[slot], slot, |storages[slot].records|, singles)
    requires forall j :: 0 <= j < |alive| + |carried| ==> (alive + carried)[j] < |storages[slot].records|
    ensures Slots(index, k).Keys == Slots(was, k).Keys
    ensures forall s :: s in Slots(was, k) && s != slot ==> Slots(index, k)[s] == Slots(was, k)[s]
    ensures slot in Slots(was, k) ==>
      var j := Slots(index, k)[slot].offset;
      j < |alive| && alive[j] == Slots(was, k)[slot].offset
  {
    var st := storages[slot];
    if slot in Slots(was, k) {
      EntryIsCollected(was, storages, slot, alive, singles, k);
      var j: nat :| j < |alive| && alive[j] == Slots(was, k)[slot].offset;
      assert PointsAt(storages, k, slot, Slots(was, k)[slot]);
    } else if j: nat :| j < |alive| && st.records[alive[j]].key == k {
      MovedHasEntry(was, storages, slot, alive, j);
    }
  }

  lemma MovedRecord(st: Storage, id: nat, alive: seq<nat>, carried: seq<nat>, j: nat)
    requires (forall i :: 0 <= i < |alive| + |carried| ==> (alive + carried)[i] < |st.records|) && j < |alive|
    ensures |ShrunkStorage(st, id, alive, carried).records| == |alive| + |carried|
    ensures (alive + carried)[j] == alive[j] && ShrunkStorage(st, id, alive, carried).records[j] == st.records[alive[j]]
  {
  }

  lemma SingleLeaves(was: Index, index: Index, st: Storage, slot: Slot, id: nat, alive: seq<nat>, singles: set<Pubkey>,
                     k: Pubkey)
    requires ShrunkIndex(was, index, st, slot, id, alive, singles, |alive|) && k in singles
    ensures Slots(index, k) == map[]
  {
  }

  lemma ShrinkStoredIs(was: Index, index: Index, storages: Storages, slot: Slot, id: nat, alive: seq<nat>,
                       carried: seq<nat>, singles: set<Pubkey>, k: Pubkey)
    requires EntriesOk(was) && NoDangling(was, storages, {}) && AllIndexed(was, storages, {}) && slot in storages
    requires ShrunkIndex(was, index, storages[slot], slot, id, alive, singles, |alive|)
    requires CollectsAlive(was, storages[slot], slot, |storages[slot].records|, alive)
    requires CollectsSingles(was, storages[slot], slot, |storages[slot].records|, singles)
    requires forall j :: 0 <= j < |alive| + |carried| ==> (alive + carried)[j] < |storages[slot].records|
    requires NoDangling(index, storages[slot := ShrunkStorage(storages[slot], id, alive, carried)], {})
    ensures Versions(index, storages[slot := ShrunkStorage(storages[slot], id, alive, carried)], k) ==
      if k in singles then map[] else Versions(was, storages, k)
  {
    hide NoDangling, AllIndexed, CollectsAlive, CollectsSingles, ShrunkIndex, EntriesOk, Versions, ShrunkStorage;
    var new_ := ShrunkStorage(storages[slot], id, alive, carried);
    var storages' := storages[slot := new_];
    VersionsAreSlots(was, storages, {}, k);
    VersionsAreSlots(index, storages', {}, k);
    if k in singles {
      SingleLeaves(was, index, storages[slot], slot, id, alive, singles, k);
      SameMap(Versions(index, storages', k), map[]);
    } else {
      ShrinkKeepsVersions(was, index, storages, slot, id, alive, carried, singles, k);
      if slot in Slots(was, k) {
        MovedRecord(storages[slot], id, alive, carried, Slots(index, k)[slot].offset);
      }
      SameMap(Versions(index, storages', k), Versions(was, storages, k));
    }
  }

  lemma SingleIsLone(was: Index, storages: Storages, slot: Slot, singles: set<Pubkey>, k: Pubkey)
    requires EntriesOk(was) && NoDangling(was, storages, {}) && slot in storages
    requires CollectsSingles(was, storages[slot], slot, |storages[slot].records|, singles)
    ensures k in singles <==> L.LoneZeroAt(Versions(was, storages, k), slot)
  {
    VersionsAreSlots(was, storages, {}, k);
    if k in singles {
      SingleHasOnly(was, storages[slot], slot, singles, k);
    }
    if L.LoneZeroAt(Versions(was, storages, k), slot) {
      assert PointsAt(storages, k, slot, Slots(was, k)[slot]);
      assert |Slots(was, k).Keys| == 1;
      assert Drops(was, storages[slot], slot, Slots(was, k)[slot].offset);
    }
  }

  lemma ShrinkBuries(was: Index, st: Storage, slot: Slot, canPurge: bool, id: nat, alive: seq<nat>, carried: seq<nat>,
                     singles: set<Pubkey>, k: Pubkey)
    requires st.Valid() && CollectsCarried(was, st, slot, canPurge, |st.records|, carried)
    requires CollectsSingles(was, st, slot, |st.records|, singles)
    requires forall j :: 0 <= j < |alive| + |carried| ==> (alive + carried)[j] < |st.records|
    ensures k in ShrunkStorage(st, id, alive, carried).Buried() <==> !canPurge && (k in st.Buried() || k in singles)
  {
    var new_ := ShrunkStorage(st, id, alive, carried);
    if k in new_.Buried() {
      var j :| j in new_.tombstones && j < |new_.records| && new_.records[j].key == k;
      var i := carried[j - |alive|];
      assert i in carried && (alive + carried)[j] == i;
    }
    if !canPurge && (k in st.Buried() || k in singles) {
      var i: nat :| i < |st.records| && st.records[i].key == k && (i in st.tombstones || Drops(was, st, slot, i));
      assert i in carried;
      var c :| 0 <= c < |carried| && carried[c] == i;
      assert (alive + carried)[|alive| + c] == i;
      assert |alive| + c in new_.tombstones;
    }
  }

  lemma ShrinkGravesAre(was: Index, index: Index, storages: Storages, slot: Slot, canPurge: bool, new_: Storage,
                        singles: set<Pubkey>, rest: L.Ledger, k: Pubkey)
    requires slot in storages
    requires k in new_.Buried() <==> !canPurge && (k in storages[slot].Buried() || k in singles)
    ensures var g, g' := L.Graves(ViewOf(was, storages, rest), k),
      L.Graves(ViewOf(index, storages[slot := new_], rest), k);
      g' == if canPurge then g - {slot} else if k in singles then g + {slot} else g
  {
    ViewHolds(was, storages, rest, k);
    ViewHolds(index, storages[slot := new_], rest, k);
  }

  lemma ShrinkIsStep(was: Index, index: Index, storages: Storages, slot: Slot, canPurge: bool, id: nat,
                     alive: seq<nat>, carried: seq<nat>, singles: set<Pubkey>, rest: L.Ledger)
    requires Linked(was, storages, {}) && slot in storages && canPurge == CanPurge(rest.full, slot)
    requires ShrunkIndex(was, index, storages[slot], slot, id, alive, singles, |alive|)
    requires Collected(was, storages[slot], slot, canPurge, |storages[slot].records|, alive, carried, singles)
    requires forall j :: 0 <= j < |alive| + |carried| ==> (alive + carried)[j] < |storages[slot].records|
    requires NoDangling(index, storages[slot := ShrunkStorage(storages[slot], id, alive, carried)], {})
    ensures L.ShrinkStep(ViewOf(was, storages, rest), slot,
      ViewOf(index, storages[slot := ShrunkStorage(storages[slot], id, alive, carried)], rest))
  {
    hide NoDangling, AllIndexed, ShrunkIndex, CollectsAlive, CollectsCarried, CollectsSingles;
    var new_ := ShrunkStorage(storages[slot], id, alive, carried);
    var storages' := storages[slot := new_];
    var l, l' := ViewOf(was, storages, rest), ViewOf(index, storages', rest);
    forall k ensures
      && L.Stored(l', k) == (if L.LoneZeroAt(L.Stored(l, k), slot) then map[] else L.Stored(l, k))
      && L.Graves(l', k) == if CanPurge(l.full, slot) then L.Graves(l, k) - {slot}
                            else if L.LoneZeroAt(L.Stored(l, k), slot) then L.Graves(l, k) + {slot} else L.Graves(l, k)
    {
      ShrinkKey(was, index, storages, slot, canPurge, id, alive, carried, singles, rest, k);
    }
  }

  lemma ShrinkKey(was: Index, index: Index, storages: Storages, slot: Slot, canPurge: bool, id: nat,
                  alive: seq<nat>, carried: seq<nat>, singles: set<Pubkey>, rest: L.Ledger, k: Pubkey)
    requires Linked(was, storages, {}) && slot in storages
    requires ShrunkIndex(was, index, storages[slot], slot, id, alive, singles, |alive|)
    requires Collected(was, storages[slot], slot, canPurge, |storages[slot].records|, alive, carried, singles)
    requires forall j :: 0 <= j < |alive| + |carried| ==> (alive + carried)[j] < |storages[slot].records|
    requires NoDangling(index, storages[slot := ShrunkStorage(storages[slot], id, alive, carried)], {})
    ensures var l, l' := ViewOf(was, storages, rest),
      ViewOf(index, storages[slot := ShrunkStorage(storages[slot], id, alive, carried)], rest);
      && L.Stored(l', k) == (if L.LoneZeroAt(L.Stored(l, k), slot) then map[] else L.Stored(l, k))
      && L.Graves(l', k) == if canPurge then L.Graves(l, k) - {slot}
                            else if L.LoneZeroAt(L.Stored(l, k), slot) then L.Graves(l, k) + {slot} else L.Graves(l, k)
  {
    hide NoDangling, AllIndexed, ShrunkIndex, CollectsAlive, CollectsCarried, CollectsSingles, L.LoneZeroAt, Versions;
    var new_ := ShrunkStorage(storages[slot], id, alive, carried);
    ViewHolds(was, storages, rest, k);
    ViewHolds(index, storages[slot := new_], rest, k);
    ShrinkStoredIs(was, index, storages, slot, id, alive, carried, singles, k);
    SingleIsLone(was, storages, slot, singles, k);
    ShrinkBuries(was, storages[slot], slot, canPurge, id, alive, carried, singles, k);
    ShrinkGravesAre(was, index, storages, slot, canPurge, new_, singles, rest, k);
  }

  // ---------- the index loops ----------

  /** The entry at `slot` is replaced; the reference count does not change. */
  function Replace(index: Index, k: Pubkey, slot: Slot, info: Info): Index
    requires k in index && slot in index[k].slotList
  {
    index[k := index[k].(slotList := index[k].slotList[slot := info])]
  }

  lemma ReplaceCounts(index: Index, k: Pubkey, slot: Slot, info: Info)
    requires EntriesOk(index) && k in index && slot in index[k].slotList
    ensures Replace(index, k, slot, info) == WithSlots(index, k, Slots(index, k)[slot := info])
  {
    var list := index[k].slotList[slot := info];
    assert list.Keys == index[k].slotList.Keys;
    assert slot in list && |list| == |list.Keys| == |index[k].slotList.Keys|;
  }

  lemma ReplaceNext(was: Index, index: Index, storages: Storages, slot: Slot, id: nat, alive: seq<nat>, j: nat)
    requires NoDangling(was, storages, {}) && AllIndexed(was, storages, {}) && slot in storages
    requires storages[slot].Valid() && j < |alive|
    requires CollectsAlive(was, storages[slot], slot, |storages[slot].records|, alive)
    requires ShrunkIndex(was, index, storages[slot], slot, id, alive, {}, j)
    ensures var r := storages[slot].records[alive[j]];
      && Slots(index, r.key) == Slots(was, r.key) && r.key in index && slot in Slots(index, r.key)
      && ShrunkIndex(was, WithSlots(index, r.key, Slots(was, r.key)[slot := Info(id, j, r.account.IsZeroLamport())]),
           storages[slot], slot, id, alive, {}, j + 1)
  {
    var r := storages[slot].records[alive[j]];
    MovedHasEntry(was, storages, slot, alive, j);
    SlotsOfWithSlots(index, r.key, Slots(was, r.key)[slot := Info(id, j, r.account.IsZeroLamport())]);
    forall i: nat | i < j ensures storages[slot].records[alive[i]].key != r.key {
      assert alive[i] != alive[j];
    }
  }

  lemma DropNext(was: Index, index: Index, st: Storage, slot: Slot, id: nat, alive: seq<nat>, singles: set<Pubkey>,
                 k: Pubkey)
    requires ShrunkIndex(was, index, st, slot, id, alive, singles, |alive|)
    requires forall j :: 0 <= j < |alive| ==> st.records[alive[j]].key != k
    ensures ShrunkIndex(was, WithSlots(index, k, map[]), st, slot, id, alive, singles + {k}, |alive|)
    ensures k !in singles ==> Slots(index, k) == Slots(was, k)
  {
    SlotsOfWithSlots(index, k, map[]);
  }

  lemma SinglesNotMoved(was: Index, st: Storage, slot: Slot, alive: seq<nat>, singles: set<Pubkey>, k: Pubkey)
    requires CollectsAlive(was, st, slot, |st.records|, alive) && CollectsSingles(was, st, slot, |st.records|, singles)
    requires k in singles
    ensures forall j :: 0 <= j < |alive| ==> alive[j] < |st.records| && st.records[alive[j]].key != k
  {
    assert IsSingleZero(was, slot, k);
    assert forall j :: 0 <= j < |alive| ==> alive[j] in alive;
  }

  method TotalSize(records: seq<Record>) returns (bytes: nat)
    ensures bytes == BytesOutside(records, {})
  {
    bytes := 0;
    for i := 0 to |records|
      invariant bytes == BytesOutside(records[..i], {})
    {
      assert records[..i + 1][..i] == records[..i];
      bytes := bytes + RecordSize(records[i]);
    }
    assert records[..|records|] == records;
  }

  // ---------- when a rewrite pays ----------

  /**
   The record is not rewritten: it is obsolete, or it is a tombstone or all the index holds of its key,
   without lamports, at a slot the latest full snapshot covers.
   */
  predicate LeavesOut(index: Index, st: Storage, slot: Slot, full: Option<Slot>, i: nat) {
    && i < |st.records|
    && (i in st.obsolete ||
        ((full.None? || slot <= full.value) && (i in st.tombstones || IsSingleZero(index, slot, st.records[i].key))))
  }

  lemma {:induction false} BytesAtOneMore(records: seq<Record>, offsets: set<nat>, i: nat)
    requires i !in offsets
    ensures BytesAt(records, offsets + {i}) ==
      BytesAt(records, offsets) + if i < |records| then RecordSize(records[i]) else 0
  {
    if records != [] {
      BytesAtOneMore(records[..|records| - 1], offsets, i);
    }
  }

  lemma {:induction false} SizeOfSome(st: Storage, offsets: seq<nat>)
    requires NoRepeats(offsets) && forall j :: 0 <= j < |offsets| ==> offsets[j] < |st.records|
    ensures BytesOutside(RecordsAt(st, offsets), {}) == BytesAt(st.records, ElementsOf(offsets))
    decreases |offsets|
  {
    if offsets == [] {
      NoBytesAt(st.records, {});
      NoElements();
    } else {
      var n := |offsets| - 1;
      SizeOfSome(st, offsets[..n]);
      assert RecordsAt(st, offsets)[..n] == RecordsAt(st, offsets[..n]);
      OneMoreElement(offsets, n);
      assert offsets[..n + 1] == offsets;
      BytesAtOneMore(st.records, ElementsOf(offsets[..n]), offsets[n]);
    }
  }

  lemma {:induction false} NoBytesAt(records: seq<Record>, offsets: set<nat>)
    ensures BytesAt(records, offsets) == 0 <==> forall i: nat :: i < |records| ==> i !in offsets
  {
    if records != [] {
      NoBytesAt(records[..|records| - 1], offsets);
    }
  }

  /** The rewrite is smaller exactly when a record is left out of it, and empty exactly when all are. */
  lemma RewriteSize(index: Index, st: Storage, slot: Slot, full: Option<Slot>, alive: seq<nat>, carried: seq<nat>)
    requires st.Valid() && CollectsAlive(index, st, slot, |st.records|, alive)
    requires CollectsCarried(index, st, slot, CanPurge(full, slot), |st.records|, carried)
    requires forall j :: 0 <= j < |alive + carried| ==> (alive + carried)[j] < |st.records|
    ensures var rewrite, written := BytesOutside(RecordsAt(st, alive + carried), {}), BytesOutside(st.records, {});
      && (rewrite < written <==> exists i: nat :: LeavesOut(index, st, slot, full, i))
      && (rewrite > 0 <==> exists i: nat :: i < |st.records| && !LeavesOut(index, st, slot, full, i))
  {
    var kept := ElementsOf(alive + carried);
    ShrunkFits(index, st, slot, CanPurge(full, slot), alive, carried);
    SizeOfSome(st, alive + carried);
    assert {} + kept == kept;
    BytesSplit(st.records, {}, kept);
    KeptOrLeftOut(index, st, slot, full, alive, carried);
    NoBytesOutside(st.records, kept);
    NoBytesAt(st.records, kept);
  }

  lemma KeptOrLeftOut(index: Index, st: Storage, slot: Slot, full: Option<Slot>, alive: seq<nat>, carried: seq<nat>)
    requires st.Valid() && CollectsAlive(index, st, slot, |st.records|, alive)
    requires CollectsCarried(index, st, slot, CanPurge(full, slot), |st.records|, carried)
    ensures forall i: nat :: i < |st.records| ==>
      (i in ElementsOf(alive + carried) <==> !LeavesOut(index, st, slot, full, i))
  {
    hide StorageEntry.Storage.Counted, IsSingleZero;
    forall i: nat | i < |st.records|
      ensures i in ElementsOf(alive + carried) <==> !LeavesOut(index, st, slot, full, i)
    {
      assert i in alive <==> Moves(index, st, slot, i);
      assert i in carried <==> Carries(index, st, slot, CanPurge(full, slot), i);
    }
  }
}
