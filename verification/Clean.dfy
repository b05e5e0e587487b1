/** Reclaiming the versions of an account older than its newest one at or below the clean root. */
module Clean {
  import opened Types
  import opened StorageEntry
  import opened AccountsIndex
  import opened Reclaim
  import opened View
  import L = Ledger

  /** Reclaimed records with the slot each is marked at. */
  type Marks = map<(Slot, nat), Slot>

  predicate IsLoneZero(list: map<Slot, Info>) {
    exists s :: s in list && list.Keys == {s} && list[s].zeroLamport
  }

  /** What cleaning leaves of a slot list: a lone zero-lamport entry goes too. */
  function CleanedList(list: map<Slot, Info>, root: Slot): map<Slot, Info> {
    var left := L.Survivors(list, root);
    if IsLoneZero(left) then map[] else left
  }

  /** The newest entry at or below the root, or slot 0 when there is none. */
  ghost function NewestUpTo(list: map<Slot, Info>, root: Slot): Slot {
    var low := set s | s in list && s <= root;
    if low == {} then 0 else Max(low)
  }

  /**
   What cleaning reclaims from a slot list. Older entries are marked at the newest one; a lone
   zero-lamport entry is marked at its own slot and so becomes a tombstone.
   */
  function MarksFrom(list: map<Slot, Info>, root: Slot, newest: Slot): Marks {
    map p | p in Locs(list) - Locs(CleanedList(list, root)) ::
      if IsLoneZero(L.Survivors(list, root)) && p.0 in L.Survivors(list, root) then p.0 else newest
  }

  ghost function CleanMarks(list: map<Slot, Info>, root: Slot): (marks: Marks)
    ensures marks.Keys == Locs(list) - Locs(CleanedList(list, root))
    ensures forall s, o :: (s, o) in marks ==> marks[(s, o)] == s || marks[(s, o)] == NewestUpTo(list, root)
    ensures forall s, o :: (s, o) in marks ==>
      (marks[(s, o)] == s <==> IsLoneZero(L.Survivors(list, root)) && s in L.Survivors(list, root))
  {
    SurvivorsFromNewest(list, root);
    MarksFrom(list, root, NewestUpTo(list, root))
  }

  lemma NothingToClean(root: Slot)
    ensures CleanMarks(map[], root) == map[] && CleanedList(map[], root) == map[]
  {
  }

  method FindNewest(list: map<Slot, Info>, root: Slot) returns (newest: Slot)
    ensures newest == NewestUpTo(list, root)
  {
    newest := 0;
    var todo := set s | s in list && s <= root;
    ghost var low := todo;
    while todo != {}
      invariant todo <= low && (newest == 0 || newest in low)
      invariant forall s :: s in low && s !in todo ==> s <= newest
    {
      var s :| s in todo;
      if newest < s { newest := s; }
      todo := todo - {s};
    }
  }

  lemma LoneByCount(list: map<Slot, Info>)
    ensures IsLoneZero(list) <==> |list| == 1 && forall s :: s in list ==> list[s].zeroLamport
  {
    if |list.Keys| == 1 {
      var s :| s in list;
      SubsetSize({s}, list.Keys);
      assert list.Keys - {s} == {};
      assert list.Keys == {s};
    }
  }

  /** Cutting a slot list at its newest entry: what is left, and that the reference count tells a lone entry. */
  lemma CutList(list: map<Slot, Info>, root: Slot)
    ensures var newest := NewestUpTo(list, root); var left := map s | s in list && newest <= s :: list[s];
      && left == L.Survivors(list, root)
      && |left| <= |list| && (list != map[] ==> left != map[])
      && (IsLoneZero(left) <==> |left| == 1 && forall s :: s in left ==> left[s].zeroLamport)
  {
    SurvivorsFromNewest(list, root);
    var newest := NewestUpTo(list, root);
    var left := map s | s in list && newest <= s :: list[s];
    LoneByCount(left);
    SubsetSize(left.Keys, list.Keys);
    if list != map[] {
      assert Max(list.Keys) in left;
    }
  }

  /** The entries kept are those at or above the newest one at or below the root. */
  lemma SurvivorsFromNewest(list: map<Slot, Info>, root: Slot)
    ensures forall s :: s in list ==> (s in L.Survivors(list, root) <==> NewestUpTo(list, root) <= s)
    ensures NewestUpTo(list, root) <= root
  {
    var low := set s | s in list && s <= root;
    forall s | s in list ensures s in L.Survivors(list, root) <==> NewestUpTo(list, root) <= s {
      assert forall t :: t in list && t <= root <==> t in low;
    }
  }

  // ---------- the index half ----------

  ghost predicate CleanedIndex(was: Index, index: Index, keys: set<Pubkey>, root: Slot) {
    forall k :: Slots(index, k) == if k in keys then CleanedList(Slots(was, k), root) else Slots(was, k)
  }

  /**
   Marks are at the newest entry of the key up to the root, except at the entry's own slot for exactly
   the lone zero-lamport entries.
   */
  ghost predicate MarksRight(was: Index, storages: Storages, marks: Marks, keys: set<Pubkey>, root: Slot) {
    forall s, o :: (s, o) in marks ==>
      && s in storages && o < |storages[s].records|
      && var k := storages[s].records[o].key; var list := Slots(was, k);
         && k in keys && s in list && list[s].offset == o
         && (marks[(s, o)] == s || marks[(s, o)] == NewestUpTo(list, root))
         && (marks[(s, o)] == s <==> IsLoneZero(L.Survivors(list, root)) && s in L.Survivors(list, root))
  }

  /** Every lone zero-lamport entry of a cleaned key is marked at its own slot. */
  ghost predicate LoneZerosMarked(was: Index, marks: Marks, keys: set<Pubkey>, root: Slot) {
    forall k, s ::
      k in keys && s in L.Survivors(Slots(was, k), root) && IsLoneZero(L.Survivors(Slots(was, k), root)) ==>
      (s, Slots(was, k)[s].offset) in marks
  }

  /** Cleaning one key keeps index and storages in agreement. */
  lemma CleanNextKey(index: Index, storages: Storages, marks: Marks, k: Pubkey, root: Slot)
    requires Linked(index, storages, marks.Keys)
    ensures var list := Slots(index, k);
      Linked(WithSlots(index, k, CleanedList(list, root)), storages, (marks + CleanMarks(list, root)).Keys)
  {
    Relink(index, storages, marks.Keys, k, CleanedList(Slots(index, k), root));
    PendingOfMarks(index, storages, marks, k, root);
  }

  lemma IndexNextKey(was: Index, index: Index, keys: set<Pubkey>, k: Pubkey, root: Slot)
    requires CleanedIndex(was, index, keys, root) && k !in keys
    ensures Slots(index, k) == Slots(was, k)
    ensures CleanedIndex(was, WithSlots(index, k, CleanedList(Slots(was, k), root)), keys + {k}, root)
  {
    SlotsOfWithSlots(index, k, CleanedList(Slots(was, k), root));
  }

  lemma PendingOfMarks(index: Index, storages: Storages, marks: Marks, k: Pubkey, root: Slot)
    requires NoDangling(index, storages, marks.Keys)
    ensures var list := Slots(index, k);
      marks.Keys + Locs(list) - Locs(CleanedList(list, root)) == (marks + CleanMarks(list, root)).Keys
  {
    var list := Slots(index, k);
    var one, two := marks.Keys + Locs(list) - Locs(CleanedList(list, root)), marks.Keys + CleanMarks(list, root).Keys;
    assert forall s, o :: (s, o) in Locs(CleanedList(list, root)) ==> (s, o) !in marks.Keys;
    assert forall p :: p in Locs(CleanedList(list, root)) ==> (p.0, p.1) !in marks.Keys;
    assert one == two;
  }

  lemma MarksGrow(was: Index, storages: Storages, marks: Marks, keys: set<Pubkey>, k: Pubkey, root: Slot)
    requires NoDangling(was, storages, {}) && MarksRight(was, storages, marks, keys, root)
    ensures MarksRight(was, storages, marks + CleanMarks(Slots(was, k), root), keys + {k}, root)
  {
    var list, more := Slots(was, k), CleanMarks(Slots(was, k), root);
    forall s, o | (s, o) in more ensures PointsAt(storages, k, s, list[s]) && list[s].offset == o {
      assert (s, o) in Locs(list);
    }
  }

  lemma LoneZerosGrow(was: Index, marks: Marks, keys: set<Pubkey>, k: Pubkey, root: Slot)
    requires LoneZerosMarked(was, marks, keys, root)
    ensures LoneZerosMarked(was, marks + CleanMarks(Slots(was, k), root), keys + {k}, root)
  {
    var list := Slots(was, k);
    forall s | s in L.Survivors(list, root) && IsLoneZero(L.Survivors(list, root))
      ensures (s, list[s].offset) in CleanMarks(list, root)
    {
      assert (s, list[s].offset) in Locs(list);
    }
  }

  // ---------- the storage half ----------

  /** The records of a slot marked at the slot itself, which become tombstones. */
  ghost function Own(marks: Marks, s: Slot): (offsets: set<nat>)
    ensures forall o :: o in offsets <==> (s, o) in marks && marks[(s, o)] == s
  {
    set p | p in marks && p.0 == s && marks[p] == s :: p.1
  }

  /** How one storage fares over a whole clean. */
  ghost predicate CleanedStorage(before: Storage, after: Storage, own: set<nat>, root: Slot) {
    && after.id == before.id && after.records == before.records && (before.aliveCount > 0 ==> after.aliveCount > 0)
    && after.tombstones == before.tombstones + own
    && (forall i :: i in after.obsolete ==>
          (i in before.obsolete && after.obsolete[i] == before.obsolete[i]) || after.obsolete[i] <= root)
  }

  ghost predicate CleanedStorages(before: Storages, after: Storages, marks: Marks, root: Slot, full: Option<Slot>) {
    && (forall s :: s in after ==> s in before && CleanedStorage(before[s], after[s], Own(marks, s), root))
    && (forall s :: s in before && s !in after ==>
          CanPurge(full, s) || (before[s].tombstones == {} && Own(marks, s) == {}))
  }

  /** The obsolete marks of one storage: old ones stay, new ones are as `marks` says. */
  ghost predicate MarksLandAt(before: map<nat, Slot>, after: map<nat, Slot>, s: Slot, marks: Marks) {
    && (forall i :: i in before ==> i in after && after[i] == before[i])
    && (forall i :: i in after && i !in before ==> (s, i) in marks && marks[(s, i)] == after[i] != s)
  }

  ghost predicate MarksLand(before: Storages, after: Storages, marks: Marks) {
    forall s :: s in after ==> s in before && MarksLandAt(before[s].obsolete, after[s].obsolete, s, marks)
  }

  lemma NoMarks(storages: Storages)
    ensures MarksLand(storages, storages, map[])
  {
  }

  lemma MarksLandNext(before: Storages, mid: Storages, after: Storages, marks: Marks, slot: Slot, offset: nat,
                      mark: Slot, full: Option<Slot>)
    requires MarksLand(before, mid, marks) && (slot, offset) !in marks
    requires AllFared(mid, after, map[slot := {offset}], mark, full)
    ensures MarksLand(before, after, marks[(slot, offset) := mark])
  {
    forall s | s in after
      ensures s in before && MarksLandAt(before[s].obsolete, after[s].obsolete, s, marks[(slot, offset) := mark])
    {
      assert s in mid && MarksLandAt(before[s].obsolete, mid[s].obsolete, s, marks);
      if s == slot {
        assert Fared(mid[s], after[s], s, {offset}, mark);
      }
    }
  }

  /** What a clean marks in one storage: a record of a cleaned key, at the key's newest entry up to the root. */
  ghost predicate CleanMarked(was: Index, before: Storage, after: Storage, keys: set<Pubkey>, root: Slot) {
    && after.records == before.records
    && (forall i :: i in before.obsolete ==> i in after.obsolete && after.obsolete[i] == before.obsolete[i])
    && (forall i :: i in after.obsolete && i !in before.obsolete ==>
          && i < |before.records| && before.records[i].key in keys
          && after.obsolete[i] == NewestUpTo(Slots(was, before.records[i].key), root))
  }

  lemma MarksAreNewest(was: Index, before: Storages, after: Storages, marks: Marks, keys: set<Pubkey>, root: Slot,
                       full: Option<Slot>)
    requires MarksRight(was, before, marks, keys, root) && MarksLand(before, after, marks)
    requires CleanedStorages(before, after, marks, root, full)
    ensures forall s :: s in after ==> s in before && CleanMarked(was, before[s], after[s], keys, root)
  {
    forall s | s in after ensures s in before && CleanMarked(was, before[s], after[s], keys, root) {
      assert MarksLandAt(before[s].obsolete, after[s].obsolete, s, marks);
      assert CleanedStorage(before[s], after[s], Own(marks, s), root);
    }
  }

  ghost predicate OwnAreZero(storages: Storages, marks: Marks) {
    forall s, o :: (s, o) in marks && marks[(s, o)] == s ==>
      s in storages && o < |storages[s].records| && storages[s].records[o].account.IsZeroLamport()
  }

  lemma OwnMarksAreZero(was: Index, storages: Storages, marks: Marks, keys: set<Pubkey>, root: Slot)
    requires NoDangling(was, storages, {}) && MarksRight(was, storages, marks, keys, root)
    ensures OwnAreZero(storages, marks)
    ensures forall p :: p in marks ==> marks[p] == p.0 || marks[p] <= root
  {
    forall s, o | (s, o) in marks && marks[(s, o)] == s
      ensures s in storages && o < |storages[s].records| && storages[s].records[o].account.IsZeroLamport()
    {
      var k := storages[s].records[o].key;
      assert PointsAt(storages, k, s, Slots(was, k)[s]);
    }
    forall p | p in marks ensures marks[p] == p.0 || marks[p] <= root {
      assert (p.0, p.1) in marks;
      SurvivorsFromNewest(Slots(was, storages[p.0].records[p.1].key), root);
    }
  }

  /** The part of `marks` not in `todo`. */
  function Without(marks: Marks, todo: Locations): Marks {
    map p | p in marks && p !in todo :: marks[p]
  }

  lemma OneFewer(marks: Marks, todo: Locations, p: (Slot, nat))
    requires p in todo && todo <= marks.Keys
    ensures Without(marks, todo - {p}) == Without(marks, todo)[p := marks[p]] && p !in Without(marks, todo)
  {
  }

  lemma NoneCleaned(storages: Storages, root: Slot, full: Option<Slot>)
    ensures CleanedStorages(storages, storages, map[], root, full)
  {
    forall s ensures Own(map[], s) == {} {}
  }

  lemma OwnGrows(marks: Marks, slot: Slot, offset: nat, mark: Slot, s: Slot)
    requires (slot, offset) !in marks
    ensures Own(marks[(slot, offset) := mark], s) == if s == slot == mark then Own(marks, s) + {offset}
      else Own(marks, s)
  {
  }

  lemma CleanedFurther(before: Storage, mid: Storage, after: Storage, own: set<nat>, s: Slot, offset: nat, mark: Slot,
                       root: Slot)
    requires CleanedStorage(before, mid, own, root) && Fared(mid, after, s, {offset}, mark) && after.aliveCount > 0
    requires mark == s || mark <= root
    ensures CleanedStorage(before, after, if s == mark then own + {offset} else own, root)
  {
  }

  /** Handling one more reclaim. */
  lemma CleanNextReclaim(before: Storages, mid: Storages, after: Storages, marks: Marks, slot: Slot, offset: nat,
                         mark: Slot, root: Slot, full: Option<Slot>)
    requires CleanedStorages(before, mid, marks, root, full) && slot in mid && (slot, offset) !in marks
    requires (mark == slot || mark <= root)
    requires AllFared(mid, after, map[slot := {offset}], mark, full)
    ensures CleanedStorages(before, after, marks[(slot, offset) := mark], root, full)
  {
    hide CleanedStorage, Own, MayGo, CanPurge;
    var marks' := marks[(slot, offset) := mark];
    forall s | s in after ensures s in before && CleanedStorage(before[s], after[s], Own(marks', s), root) {
      OwnGrows(marks, slot, offset, mark, s);
      assert s in mid && CleanedStorage(before[s], mid[s], Own(marks, s), root);
      if s == slot {
        CleanedFurther(before[s], mid[s], after[s], Own(marks, s), s, offset, mark, root);
      }
    }
    forall s | s in before && s !in after
      ensures CanPurge(full, s) || (before[s].tombstones == {} && Own(marks', s) == {}) {
      CleanedAway(before, mid, after, marks, slot, offset, mark, root, full, s);
    }
  }

  lemma CleanedAway(before: Storages, mid: Storages, after: Storages, marks: Marks, slot: Slot, offset: nat, mark: Slot,
                    root: Slot, full: Option<Slot>, s: Slot)
    requires CleanedStorages(before, mid, marks, root, full) && slot in mid && (slot, offset) !in marks
    requires AllFared(mid, after, map[slot := {offset}], mark, full) && s in before && s !in after
    ensures CanPurge(full, s) || (before[s].tombstones == {} && Own(marks[(slot, offset) := mark], s) == {})
  {
    OwnGrows(marks, slot, offset, mark, s);
    if s in mid {
      assert s == slot && MayGo(mid[s], s, {offset}, mark, full);
      assert CleanedStorage(before[s], mid[s], Own(marks, s), root);
    }
  }

  // ---------- the clean as a step of the ledger ----------

  lemma CleanedVersions(versions: map<Slot, Account>, list: map<Slot, Info>, root: Slot)
    requires versions.Keys == list.Keys && forall s :: s in list ==> versions[s].IsZeroLamport() == list[s].zeroLamport
    ensures L.StoredAfterClean(versions, root).Keys == CleanedList(list, root).Keys
    ensures forall s :: s in CleanedList(list, root) ==> L.StoredAfterClean(versions, root)[s] == versions[s]
    ensures L.GravesFromClean(versions, root) == if IsLoneZero(L.Survivors(list, root))
      then L.Survivors(list, root).Keys else {}
  {
    var a, b := L.Survivors(versions, root), L.Survivors(list, root);
    assert a.Keys == b.Keys;
    assert L.LoneZero(a) <==> IsLoneZero(b);
  }

  lemma CleanStoredIs(was: Index, index: Index, before: Storages, storages: Storages, keys: set<Pubkey>, marks: Marks,
                      root: Slot, full: Option<Slot>, k: Pubkey)
    requires NoDangling(was, before, {}) && NoDangling(index, storages, {}) && CleanedIndex(was, index, keys, root)
    requires CleanedStorages(before, storages, marks, root, full)
    ensures Versions(index, storages, k) ==
      if k in keys then L.StoredAfterClean(Versions(was, before, k), root) else Versions(was, before, k)
  {
    VersionsAreSlots(was, before, {}, k);
    CleanedVersions(Versions(was, before, k), Slots(was, k), root);
    CleanedSlots(was, index, before, storages, keys, marks, root, full, k);
    SameMap(Versions(index, storages, k),
            if k in keys then L.StoredAfterClean(Versions(was, before, k), root) else Versions(was, before, k));
  }

  lemma CleanedSlots(was: Index, index: Index, before: Storages, storages: Storages, keys: set<Pubkey>, marks: Marks,
                     root: Slot, full: Option<Slot>, k: Pubkey)
    requires NoDangling(was, before, {}) && NoDangling(index, storages, {}) && CleanedIndex(was, index, keys, root)
    requires CleanedStorages(before, storages, marks, root, full)
    ensures Versions(index, storages, k).Keys == if k in keys then CleanedList(Slots(was, k), root).Keys
      else Slots(was, k).Keys
    ensures forall s :: s in Versions(index, storages, k) ==>
      s in Versions(was, before, k) && Versions(index, storages, k)[s] == Versions(was, before, k)[s]
  {
    VersionsAreSlots(was, before, {}, k);
    VersionsAreSlots(index, storages, {}, k);
    assert Slots(index, k) == if k in keys then CleanedList(Slots(was, k), root) else Slots(was, k);
    forall s | s in Slots(index, k)
      ensures s in Slots(was, k) && Versions(index, storages, k)[s] == Versions(was, before, k)[s] {
      assert Slots(index, k)[s] == Slots(was, k)[s];
      assert CleanedStorage(before[s], storages[s], Own(marks, s), root);
    }
  }

  lemma BuriedByClean(was: Index, before: Storages, storages: Storages, keys: set<Pubkey>, marks: Marks, root: Slot,
                      full: Option<Slot>, k: Pubkey, s: Slot)
    requires MarksRight(was, before, marks, keys, root) && CleanedStorages(before, storages, marks, root, full)
    requires s in storages && k in storages[s].Buried()
    ensures s in before
    ensures k in before[s].Buried() ||
      (k in keys && IsLoneZero(L.Survivors(Slots(was, k), root)) && s in L.Survivors(Slots(was, k), root))
  {
    assert CleanedStorage(before[s], storages[s], Own(marks, s), root);
    var o :| o in storages[s].tombstones && o < |storages[s].records| && storages[s].records[o].key == k;
    if o !in before[s].tombstones {
      assert (s, o) in marks && marks[(s, o)] == s;
    }
  }

  lemma StillBuried(before: Storages, storages: Storages, marks: Marks, root: Slot, full: Option<Slot>, k: Pubkey,
                    s: Slot)
    requires CleanedStorages(before, storages, marks, root, full)
    requires s in before && k in before[s].Buried()
    ensures CanPurge(full, s) || (s in storages && k in storages[s].Buried())
  {
    if s in storages {
      assert CleanedStorage(before[s], storages[s], Own(marks, s), root);
    }
  }

  lemma NewlyBuried(was: Index, before: Storages, storages: Storages, keys: set<Pubkey>, marks: Marks, root: Slot,
                    full: Option<Slot>, k: Pubkey, s: Slot)
    requires NoDangling(was, before, {}) && MarksRight(was, before, marks, keys, root)
    requires LoneZerosMarked(was, marks, keys, root) && CleanedStorages(before, storages, marks, root, full)
    requires k in keys && s in L.Survivors(Slots(was, k), root) && IsLoneZero(L.Survivors(Slots(was, k), root))
    ensures CanPurge(full, s) || (s in storages && k in storages[s].Buried())
  {
    var o := Slots(was, k)[s].offset;
    assert PointsAt(before, k, s, Slots(was, k)[s]);
    assert (s, o) in marks && marks[(s, o)] == s;
    assert o in Own(marks, s);
    if s in storages {
      assert CleanedStorage(before[s], storages[s], Own(marks, s), root);
      assert o in storages[s].tombstones;
    }
  }

  /** The slots at which cleaning buries the key. */
  function BurialSlots(was: Index, keys: set<Pubkey>, root: Slot, k: Pubkey): set<Slot> {
    var left := L.Survivors(Slots(was, k), root);
    if k in keys && IsLoneZero(left) then left.Keys else {}
  }

  lemma CleanBuries(was: Index, before: Storages, storages: Storages, keys: set<Pubkey>, marks: Marks, root: Slot,
                    full: Option<Slot>, k: Pubkey)
    requires NoDangling(was, before, {}) && MarksRight(was, before, marks, keys, root)
    requires LoneZerosMarked(was, marks, keys, root) && CleanedStorages(before, storages, marks, root, full)
    ensures forall s :: s in storages && k in storages[s].Buried() ==>
      (s in before && k in before[s].Buried()) || s in BurialSlots(was, keys, root, k)
    ensures forall s :: s in before && k in before[s].Buried() ==>
      CanPurge(full, s) || (s in storages && k in storages[s].Buried())
    ensures forall s :: s in BurialSlots(was, keys, root, k) ==>
      CanPurge(full, s) || (s in storages && k in storages[s].Buried())
  {
    hide NoDangling, MarksRight, LoneZerosMarked, CleanedStorages;
    forall s | s in storages && k in storages[s].Buried()
      ensures (s in before && k in before[s].Buried()) || s in BurialSlots(was, keys, root, k)
    {
      BuriedByClean(was, before, storages, keys, marks, root, full, k, s);
    }
    forall s | s in before && k in before[s].Buried()
      ensures CanPurge(full, s) || (s in storages && k in storages[s].Buried()) {
      StillBuried(before, storages, marks, root, full, k, s);
    }
    forall s | s in BurialSlots(was, keys, root, k)
      ensures CanPurge(full, s) || (s in storages && k in storages[s].Buried()) {
      NewlyBuried(was, before, storages, keys, marks, root, full, k, s);
    }
  }

  lemma CleanGravesAre(was: Index, index: Index, before: Storages, storages: Storages, keys: set<Pubkey>, marks: Marks,
                       root: Slot,
                       rest: L.Ledger, rest': L.Ledger, k: Pubkey)
    requires NoDangling(was, before, {}) && MarksRight(was, before, marks, keys, root)
    requires LoneZerosMarked(was, marks, keys, root) && CleanedStorages(before, storages, marks, root, rest.full)
    ensures var l, l' := ViewOf(was, before, rest), ViewOf(index, storages, rest');
      L.GravesGain(l, l', k, if k in keys then L.GravesFromClean(Versions(was, before, k), root) else {})
  {
    hide NoDangling, MarksRight, LoneZerosMarked, CleanedStorages;
    ViewHolds(was, before, rest, k);
    ViewHolds(index, storages, rest', k);
    VersionsAreSlots(was, before, {}, k);
    CleanedVersions(Versions(was, before, k), Slots(was, k), root);
    CleanBuries(was, before, storages, keys, marks, root, rest.full, k);
  }

  ghost function AfterClean(rest: L.Ledger, root: Slot): L.Ledger {
    rest.(cleaned := L.Raised(rest.cleaned, Some(root)))
  }

  /** The clean of any set of keys, seen from the ledger. */
  lemma CleanIsStep(was: Index, index: Index, before: Storages, storages: Storages, keys: set<Pubkey>, marks: Marks,
                    root: Slot, rest: L.Ledger)
    requires NoDangling(was, before, {}) && NoDangling(index, storages, {}) && CleanedIndex(was, index, keys, root)
    requires MarksRight(was, before, marks, keys, root) && LoneZerosMarked(was, marks, keys, root)
    requires CleanedStorages(before, storages, marks, root, rest.full)
    ensures L.CleanStep(ViewOf(was, before, rest), keys, root, ViewOf(index, storages, AfterClean(rest, root)))
  {
    hide NoDangling, CleanedIndex, MarksRight, LoneZerosMarked, CleanedStorages;
    var l, l' := ViewOf(was, before, rest), ViewOf(index, storages, AfterClean(rest, root));
    forall k ensures
      && L.Stored(l', k) == (if k in keys then L.StoredAfterClean(L.Stored(l, k), root) else L.Stored(l, k))
      && L.GravesGain(l, l', k, if k in keys then L.GravesFromClean(L.Stored(l, k), root) else {})
    {
      ViewHolds(was, before, rest, k);
      ViewHolds(index, storages, AfterClean(rest, root), k);
      CleanStoredIs(was, index, before, storages, keys, marks, root, rest.full, k);
      CleanGravesAre(was, index, before, storages, keys, marks, root, rest, AfterClean(rest, root), k);
    }
  }
}
