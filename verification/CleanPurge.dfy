/** The last phase of clean: deleting whole slots with every candidate key in them. */
module CleanPurge {
  import opened Types
  import opened StorageEntry
  import opened AccountsIndex
  import opened Clean
  import opened DeleteSolver
  import L = Ledger

  /** The candidates a slot holds. */
  function Holders(candidates: Candidates, s: Slot): set<Pubkey> {
    set k | k in candidates && s in candidates[k].slots
  }

  /** Each candidate entry is an alive record of its own, so a slot holds no more candidates than alive records. */
  ghost predicate EntriesAlive(candidates: Candidates, alive: map<Slot, nat>) {
    forall k, s :: k in candidates && s in candidates[k].slots ==> s in alive && |Holders(candidates, s)| <= alive[s]
  }

  ghost predicate CountsExact(alive: map<Slot, nat>, counts: StoreCounts) {
    forall s :: s in counts ==>
      s in alive && |counts[s].keys| <= alive[s] && counts[s].count == alive[s] - |counts[s].keys|
  }

  ghost predicate KeysMatch(candidates: Candidates, counts: StoreCounts, done: set<(Pubkey, Slot)>) {
    && (forall s :: s in counts ==> counts[s].keys != {})
    && (forall s, k :: s in counts && k in counts[s].keys ==> (k, s) in done)
    && (forall k, s :: (k, s) in done ==>
          s in counts && k in counts[s].keys && k in candidates && s in candidates[k].slots)
  }

  /** The counts once the candidate entries in `done` are taken off. */
  ghost predicate CountedUpTo(candidates: Candidates, alive: map<Slot, nat>, counts: StoreCounts,
                              done: set<(Pubkey, Slot)>) {
    CountsExact(alive, counts) && KeysMatch(candidates, counts, done)
  }

  lemma {:induction false} SmallerSet<T>(a: set<T>, b: set<T>)
    requires a <= b
    ensures |a| <= |b| && (|a| == |b| ==> a == b)
  {
    if a != {} {
      var x :| x in a;
      SmallerSet(a - {x}, b - {x});
    }
  }

  /** One more candidate entry taken off. */
  function CountOne(counts: StoreCounts, alive: map<Slot, nat>, k: Pubkey, slot: Slot): StoreCounts
    requires slot in alive && alive[slot] >= 1 && (slot in counts ==> counts[slot].count >= 1)
  {
    counts[slot := if slot in counts then StoreCount(counts[slot].count - 1, counts[slot].keys + {k})
      else StoreCount(alive[slot] - 1, {k})]
  }

  lemma CountNext(candidates: Candidates, alive: map<Slot, nat>, counts: StoreCounts, done: set<(Pubkey, Slot)>,
                  k: Pubkey, slot: Slot)
    requires EntriesAlive(candidates, alive) && CountedUpTo(candidates, alive, counts, done)
    requires k in candidates && slot in candidates[k].slots && (k, slot) !in done
    ensures slot in alive && alive[slot] >= 1 && (slot in counts ==> counts[slot].count >= 1)
    ensures CountedUpTo(candidates, alive, CountOne(counts, alive, k, slot), done + {(k, slot)})
  {
    RoomForOneMore(candidates, alive, counts, done, k, slot);
    KeysNext(candidates, alive, counts, done, k, slot);
  }

  lemma KeysNext(candidates: Candidates, alive: map<Slot, nat>, counts: StoreCounts, done: set<(Pubkey, Slot)>,
                 k: Pubkey, slot: Slot)
    requires KeysMatch(candidates, counts, done) && k in candidates && slot in candidates[k].slots
    requires slot in alive && alive[slot] >= 1 && (slot in counts ==> counts[slot].count >= 1)
    ensures KeysMatch(candidates, CountOne(counts, alive, k, slot), done + {(k, slot)})
  {
  }

  lemma AllCounted(candidates: Candidates, alive: map<Slot, nat>, counts: StoreCounts, done: set<(Pubkey, Slot)>)
    requires CountedUpTo(candidates, alive, counts, done)
    requires forall k, s :: k in candidates && s in candidates[k].slots ==> (k, s) in done
    ensures Consistent(candidates, counts)
    ensures forall s :: s in counts ==> s in alive && counts[s].count == alive[s] - |Holders(candidates, s)|
  {
    forall s | s in counts ensures counts[s].keys == Holders(candidates, s) {
      assert forall k :: k in Holders(candidates, s) ==> (k, s) in done;
    }
  }

  /** Takes every candidate entry off its slot's alive count. The subtraction never goes below zero. */
  method CollectStoreCounts(candidates: Candidates, alive: map<Slot, nat>) returns (counts: StoreCounts)
    requires EntriesAlive(candidates, alive)
    ensures Consistent(candidates, counts)
    ensures forall s :: s in counts ==> s in alive && counts[s].count == alive[s] - |Holders(candidates, s)|
  {
    hide EntriesAlive, Consistent;
    counts := map[];
    ghost var done: set<(Pubkey, Slot)> := {};
    var keys := candidates.Keys;
    while keys != {}
      invariant keys <= candidates.Keys && CountedUpTo(candidates, alive, counts, done)
      invariant forall k, s :: k in candidates && s in candidates[k].slots ==> ((k, s) in done <==> k !in keys)
    {
      var k :| k in keys;
      counts, done := CountKey(candidates, alive, counts, done, keys, k);
      keys := keys - {k};
    }
    AllCounted(candidates, alive, counts, done);
  }

  method CountKey(candidates: Candidates, alive: map<Slot, nat>, before: StoreCounts,
                  ghost already: set<(Pubkey, Slot)>, ghost keys: set<Pubkey>, k: Pubkey)
    returns (counts: StoreCounts, ghost done: set<(Pubkey, Slot)>)
    requires EntriesAlive(candidates, alive) && CountedUpTo(candidates, alive, before, already) && k in candidates
    requires k in keys
    requires forall j, s :: j in candidates && s in candidates[j].slots ==> ((j, s) in already <==> j !in keys)
    ensures CountedUpTo(candidates, alive, counts, done)
    ensures forall j, s :: j in candidates && s in candidates[j].slots ==> ((j, s) in done <==> j !in keys - {k})
  {
    hide EntriesAlive, CountedUpTo;
    counts, done := before, already;
    var slots := candidates[k].slots;
    while slots != {}
      invariant slots <= candidates[k].slots && CountedUpTo(candidates, alive, counts, done)
      invariant forall j, s :: j in candidates && s in candidates[j].slots ==>
        ((j, s) in done <==> j !in keys || (j == k && s !in slots))
    {
      var slot :| slot in slots;
      CountNext(candidates, alive, counts, done, k, slot);
      if slot in counts {
        counts := counts[slot := StoreCount(counts[slot].count - 1, counts[slot].keys + {k})];
      } else {
        counts := counts[slot := StoreCount(alive[slot] - 1, {k})];
      }
      done := done + {(k, slot)};
      slots := slots - {slot};
    }
  }

  lemma RoomForOneMore(candidates: Candidates, alive: map<Slot, nat>, counts: StoreCounts, done: set<(Pubkey, Slot)>,
                       k: Pubkey, slot: Slot)
    requires EntriesAlive(candidates, alive) && CountedUpTo(candidates, alive, counts, done)
    requires k in candidates && slot in candidates[k].slots && (k, slot) !in done
    ensures slot in alive && alive[slot] >= 1
    ensures slot in counts ==> k !in counts[slot].keys && |counts[slot].keys| + 1 <= alive[slot]
  {
    if slot in counts {
      SmallerSet(counts[slot].keys + {k}, Holders(candidates, slot));
    } else {
      SmallerSet({k}, Holders(candidates, slot));
    }
  }

  lemma {:induction false} ImageSize(f: map<Pubkey, nat>)
    requires forall j, k :: j in f && k in f && j != k ==> f[j] != f[k]
    ensures |f.Values| == |f.Keys|
  {
    if f != map[] {
      var x :| x in f;
      var rest := f - {x};
      ImageSize(rest);
      assert f.Keys == rest.Keys + {x};
      assert f.Values == rest.Values + {f[x]};
      assert f[x] !in rest.Values;
    }
  }

  /** In a store whose index and storages agree, candidate entries are alive records. */
  lemma CandidatesAreAlive(index: Index, storages: Storages, candidates: Candidates)
    requires Linked(index, storages, {})
    requires forall k :: k in candidates ==> candidates[k].slots <= Slots(index, k).Keys
    ensures EntriesAlive(candidates, map s | s in storages :: storages[s].aliveCount)
  {
    forall k, s | k in candidates && s in candidates[k].slots
      ensures s in storages && |Holders(candidates, s)| <= storages[s].aliveCount {
      assert PointsAt(storages, k, s, Slots(index, k)[s]);
      HoldersAreAlive(index, storages, candidates, s);
    }
  }

  lemma HoldersAreAlive(index: Index, storages: Storages, candidates: Candidates, s: Slot)
    requires NoDangling(index, storages, {}) && StoragesOk(storages) && s in storages
    requires forall k :: k in candidates ==> candidates[k].slots <= Slots(index, k).Keys
    ensures |Holders(candidates, s)| <= storages[s].aliveCount
  {
    var offset := map k | k in Holders(candidates, s) :: Slots(index, k)[s].offset;
    forall k | k in offset ensures PointsAt(storages, k, s, Slots(index, k)[s]) {}
    ImageSize(offset);
    assert offset.Keys == Holders(candidates, s);
    CountSplits(|storages[s].records|, storages[s].obsolete.Keys, offset.Values);
  }

  // ---------- which candidates are purged ----------

  /** All the candidate's slots are being deleted. */
  predicate Doomed(candidates: Candidates, left: StoreCounts, k: Pubkey) {
    k in candidates && candidates[k].slots != {} && forall s ::
      s in candidates[k].slots ==> s in left && left[s].count == 0
  }

  /** With incremental snapshots, a candidate whose newest slot the full snapshot does not cover is kept. */
  predicate Covered(candidates: Candidates, full: Option<Slot>, k: Pubkey)
    requires k in candidates
  {
    full.Some? ==> forall s :: s in candidates[k].slots ==> s <= full.value
  }

  /** `full` is None when no filtering for incremental snapshots is needed. */
  function Purged(candidates: Candidates, left: StoreCounts, full: Option<Slot>): set<Pubkey> {
    set k | k in candidates && Doomed(candidates, left, k) && Covered(candidates, full, k)
  }

  /** A candidate is purged when all its slots are being deleted and the newest of them needs no waiting. */
  lemma PurgedIs(candidates: Candidates, left: StoreCounts, full: Option<Slot>, k: Pubkey)
    ensures k in Purged(candidates, left, full) <==>
      && k in candidates && candidates[k].slots != {}
      && (forall s :: s in candidates[k].slots ==> s in left && left[s].count == 0)
      && (full.None? || Max(candidates[k].slots) <= full.value)
  {
    if k in candidates && candidates[k].slots != {} {
      assert forall s :: s in candidates[k].slots ==> s <= Max(candidates[k].slots);
    }
  }

  /** Every slot a purged key is reclaimed from loses all it has, as clean asserts. */
  ghost predicate TouchedSlotsDie(candidates: Candidates, alive: map<Slot, nat>, purged: set<Pubkey>) {
    forall k, s :: k in purged && k in candidates && s in candidates[k].slots ==>
      s in alive && |(set j | j in purged && j in candidates && s in candidates[j].slots)| == alive[s]
  }

  /** No purged key shares a slot with a candidate that has to wait for the next full snapshot. */
  ghost predicate NoneHeldBack(candidates: Candidates, left: StoreCounts, full: Option<Slot>) {
    forall k, s, j :: k in Purged(candidates, left, full) && s in candidates[k].slots && j in Holders(candidates, s) ==>
      Covered(candidates, full, j)
  }

  /** What the store counts and the solver hand to the purge. */
  ghost predicate Solved(candidates: Candidates, alive: map<Slot, nat>, counts: StoreCounts, left: StoreCounts) {
    && EntriesAlive(candidates, alive) && Consistent(candidates, counts)
    && (forall s :: s in counts ==> s in alive && counts[s].count == alive[s] - |Holders(candidates, s)|)
    && Deletable(candidates, counts, left.Keys)
    && (forall s :: s in left ==> left[s] == counts[s])
  }

  lemma PurgedAt(candidates: Candidates, alive: map<Slot, nat>, counts: StoreCounts, left: StoreCounts,
                 full: Option<Slot>, s: Slot)
    requires Solved(candidates, alive, counts, left) && s in left
    ensures s in alive && alive[s] == |Holders(candidates, s)|
    ensures (set j | j in Purged(candidates, left, full) && j in candidates && s in candidates[j].slots) ==
            set j | j in Holders(candidates, s) && Covered(candidates, full, j)
  {
    forall j | j in Holders(candidates, s) ensures Doomed(candidates, left, j) {
      assert candidates[j].slots <= left.Keys;
    }
  }

  /**
   The final purge empties every slot it touches if and only if no purged candidate shares a slot with
   one held back for the next full snapshot.
   */
  lemma PurgeKillsWhatItTouches(candidates: Candidates, alive: map<Slot, nat>, counts: StoreCounts, left: StoreCounts,
                                full: Option<Slot>)
    requires Solved(candidates, alive, counts, left)
    ensures TouchedSlotsDie(candidates, alive, Purged(candidates, left, full)) <==> NoneHeldBack(candidates, left, full)
  {
    var purged := Purged(candidates, left, full);
    forall k, s | k in purged && s in candidates[k].slots
      ensures s in left && s in alive
      ensures |(set j | j in purged && j in candidates && s in candidates[j].slots)| == alive[s] <==>
        forall j :: j in Holders(candidates, s) ==> Covered(candidates, full, j)
    {
      PurgedAt(candidates, alive, counts, left, full, s);
      var some := set j | j in Holders(candidates, s) && Covered(candidates, full, j);
      SmallerSet(some, Holders(candidates, s));
      assert (forall j :: j in Holders(candidates, s) ==> Covered(candidates, full, j)) ==>
        some == Holders(candidates, s);
    }
  }

  /** Without filtering, and when every candidate is down to one slot, nothing is held back. */
  lemma NothingHeldBack(candidates: Candidates, left: StoreCounts, full: Option<Slot>)
    requires full.None? || forall k, s, t ::
      k in candidates && s in candidates[k].slots && t in candidates[k].slots ==> s == t
    ensures NoneHeldBack(candidates, left, full)
  {
  }

  /** With two slots to a candidate the purge can leave a slot half full: key 1 goes, key 2 in the same slot waits. */
  lemma FilteringCanLeaveASlotHalfFull()
    ensures
      var candidates: Candidates := map[1 := CleaningInfo({5}, 1), 2 := CleaningInfo({5, 9}, 2)];
      var counts: StoreCounts := map[5 := StoreCount(0, {1, 2}), 9 := StoreCount(0, {2})];
      Solved(candidates, map[5 := 2, 9 := 1], counts, counts) &&
      !TouchedSlotsDie(candidates, map[5 := 2, 9 := 1], Purged(candidates, counts, Some(7)))
  {
    var candidates: Candidates := map[1 := CleaningInfo({5}, 1), 2 := CleaningInfo({5, 9}, 2)];
    var counts: StoreCounts := map[5 := StoreCount(0, {1, 2}), 9 := StoreCount(0, {2})];
    SampleSolved(candidates, counts);
    SampleHeldBack(candidates, counts);
    PurgeKillsWhatItTouches(candidates, map[5 := 2, 9 := 1], counts, counts, Some(7));
  }

  lemma SampleSolved(candidates: Candidates, counts: StoreCounts)
    requires candidates == map[1 := CleaningInfo({5}, 1), 2 := CleaningInfo({5, 9}, 2)]
    requires counts == map[5 := StoreCount(0, {1, 2}), 9 := StoreCount(0, {2})]
    ensures Solved(candidates, map[5 := 2, 9 := 1], counts, counts)
  {
    assert Holders(candidates, 5) == {1, 2} && Holders(candidates, 9) == {2};
    assert 1 in counts[5].keys && 2 in counts[9].keys;
  }

  lemma SampleHeldBack(candidates: Candidates, counts: StoreCounts)
    requires candidates == map[1 := CleaningInfo({5}, 1), 2 := CleaningInfo({5, 9}, 2)]
    requires counts == map[5 := StoreCount(0, {1, 2}), 9 := StoreCount(0, {2})]
    ensures !NoneHeldBack(candidates, counts, Some(7))
  {
    assert 5 in candidates[1].slots && Doomed(candidates, counts, 1);
    assert 1 in Purged(candidates, counts, Some(7));
    assert 2 in Holders(candidates, 5) && 9 in candidates[2].slots && !Covered(candidates, Some(7), 2);
  }

  // ---------- what the reclaim phase leaves to purge ----------

  /** What clean remembers of a key after its older entries are reclaimed. */
  function CandidateOf(list: map<Slot, Info>, root: Slot): CleaningInfo {
    var left := CleanedList(list, root);
    CleaningInfo(set s | s in left && s <= root, |left|)
  }

  /**
   A key whose newest entry up to the root has no lamports either leaves the index during the reclaim
   phase or keeps an entry above the root; so its slots up to the root never account for its
   reference count.
   */
  lemma ReclaimedKeyCannotGo(list: map<Slot, Info>, root: Slot)
    requires var low := NewestUpTo(list, root); low in list && list[low].zeroLamport
    ensures var info := CandidateOf(list, root); info.slots == {} || (|info.slots| == 1 && info.refCount > 1)
  {
    var left, low, info := CleanedList(list, root), NewestUpTo(list, root), CandidateOf(list, root);
    SurvivorsFromNewest(list, root);
    if info.slots != {} {
      assert left == L.Survivors(list, root) && low in left;
      OnlyNewestUpTo(list, root);
      SmallerSet({low}, left.Keys);
      LoneByCount(left);
    }
  }

  /** Above the reclaimed entries only the newest one up to the root is left. */
  lemma OnlyNewestUpTo(list: map<Slot, Info>, root: Slot)
    requires NewestUpTo(list, root) in list
    ensures (set s | s in L.Survivors(list, root) && s <= root) == {NewestUpTo(list, root)}
  {
    SurvivorsFromNewest(list, root);
    var below := set s | s in list && s <= root;
    assert NewestUpTo(list, root) in below;
    assert forall s :: s in L.Survivors(list, root) && s <= root ==> s in below;
  }

  lemma HasCandidate(candidates: Candidates, counts: StoreCounts, s: Slot)
    requires Consistent(candidates, counts) && s in counts
    ensures exists k :: k in candidates && s in candidates[k].slots
  {
    var k :| k in counts[s].keys;
    assert s in candidates[k].slots;
  }

  /** The key's newest entry up to the root has no lamports, and the reclaim phase leaves an entry up to the root. */
  ghost predicate IsCandidate(list: map<Slot, Info>, root: Slot) {
    var low := NewestUpTo(list, root);
    low in list && list[low].zeroLamport && CandidateOf(list, root).slots != {}
  }

  /** The candidates a clean of `keys` up to `root` has left after its reclaim phase. */
  ghost function CandidatesOf(index: Index, keys: set<Pubkey>, root: Slot): Candidates {
    map k | k in keys && IsCandidate(Slots(index, k), root) :: CandidateOf(Slots(index, k), root)
  }

  /** Looks at every key of a clean for candidates. */
  method GatherCandidates(index: Index, keys: set<Pubkey>, root: Slot) returns (candidates: Candidates)
    ensures candidates == CandidatesOf(index, keys, root)
  {
    hide IsCandidate, CandidateOf;
    candidates := map[];
    var todo := keys;
    assert keys - todo == {};
    while todo != {}
      invariant todo <= keys && candidates == CandidatesOf(index, keys - todo, root)
      decreases todo
    {
      var k :| k in todo;
      var list := Slots(index, k);
      var newest := FindNewest(list, root);
      var info := CandidateOf(list, root);
      NextCandidate(index, keys - todo, root, k, newest);
      if newest in list && list[newest].zeroLamport && info.slots != {} {
        candidates := candidates[k := info];
      }
      assert keys - todo + {k} == keys - (todo - {k});
      todo := todo - {k};
    }
    assert keys - {} == keys;
  }

  lemma NextCandidate(index: Index, keys: set<Pubkey>, root: Slot, k: Pubkey, newest: Slot)
    requires newest == NewestUpTo(Slots(index, k), root)
    ensures var list := Slots(index, k); var now := CandidatesOf(index, keys + {k}, root);
      var was := CandidatesOf(index, keys, root);
      now == if newest in list && list[newest].zeroLamport && CandidateOf(list, root).slots != {}
             then was[k := CandidateOf(list, root)] else was
  {
    hide CandidateOf, NewestUpTo;
  }

  /** The key's newest entry up to the root has no lamports. */
  predicate NewestIsZero(list: map<Slot, Info>, root: Slot) {
    exists s :: s in list && s <= root && list[s].zeroLamport && forall t :: t in list && t <= root ==> t <= s
  }

  /**
   The candidates are the cleaned keys whose newest entry up to the root has no lamports, so far as the
   reclaim phase leaves them an entry up to the root. Each comes with those entries and its reference count.
   */
  lemma CandidatesAre(was: Index, index: Index, keys: set<Pubkey>, root: Slot, k: Pubkey)
    requires CleanedIndex(was, index, keys, root) && EntriesOk(index)
    ensures var candidates := CandidatesOf(was, keys, root);
      && (k in candidates <==>
            k in keys && NewestIsZero(Slots(was, k), root) && exists s :: s in Slots(index, k) && s <= root)
      && (k in candidates ==>
            && k in index && candidates[k].refCount == index[k].refCount
            && candidates[k].slots == set s | s in Slots(index, k) && s <= root)
  {
    hide CleanedList, NewestUpTo, NewestIsZero;
    var list := Slots(was, k);
    NewestUpToIs(list, root);
    if k in keys {
      var slots := CandidateOf(list, root).slots;
      assert Slots(index, k) == CleanedList(list, root);
      assert slots == set s | s in Slots(index, k) && s <= root;
      if s :| s in Slots(index, k) && s <= root {
        assert s in slots;
      }
    }
  }

  lemma NewestUpToIs(list: map<Slot, Info>, root: Slot)
    ensures var low := NewestUpTo(list, root); NewestIsZero(list, root) <==> low in list && list[low].zeroLamport
  {
    var below := set s | s in list && s <= root;
    assert forall s :: s in list && s <= root <==> s in below;
  }

  /** Candidate entries stay in the index through the reclaim phase. */
  lemma CandidatesStay(was: Index, index: Index, keys: set<Pubkey>, root: Slot)
    requires CleanedIndex(was, index, keys, root)
    ensures forall k :: k in CandidatesOf(was, keys, root) ==>
      CandidatesOf(was, keys, root)[k].slots <= Slots(index, k).Keys
  {
  }

  /** Hence after the reclaim phase of any clean the solver leaves nothing and the final purge has nothing to do. */
  lemma NothingIsLeftToPurge(index: Index, keys: set<Pubkey>, root: Slot, counts: StoreCounts, left: StoreCounts,
                             full: Option<Slot>)
    requires Consistent(CandidatesOf(index, keys, root), counts)
    requires Deletable(CandidatesOf(index, keys, root), counts, left.Keys)
    ensures left == map[] && Purged(CandidatesOf(index, keys, root), left, full) == {}
  {
    var candidates := CandidatesOf(index, keys, root);
    forall k | k in candidates ensures |candidates[k].slots| == 1 && candidates[k].refCount > 1 {
      ReclaimedKeyCannotGo(Slots(index, k), root);
    }
    hide CandidatesOf;
    forall s | s in left ensures false {
      HasCandidate(candidates, counts, s);
    }
    assert left == map[];
    assert forall k :: k in candidates ==> !Doomed(candidates, left, k);
  }

  /** The keys the last phase of a clean purges, worked out as the source does: there are never any. */
  method KeysToPurge(ghost was: Index, ghost index: Index, storages: Storages, keys: set<Pubkey>, root: Slot,
                     candidates: Candidates, full: Option<Slot>) returns (purged: set<Pubkey>)
    requires Linked(index, storages, {}) && CleanedIndex(was, index, keys, root)
    requires candidates == CandidatesOf(was, keys, root)
    ensures purged == {}
  {
    hide Linked, CandidatesOf, Consistent, Deletable;
    var alive := map s | s in storages :: storages[s].aliveCount;
    CandidatesStay(was, index, keys, root);
    CandidatesAreAlive(index, storages, candidates);
    var counts := CollectStoreCounts(candidates, alive);
    var left := CalcDeleteDependencies(candidates, counts);
    var filter := if full.Some? && full.value < root then full else None;
    NothingIsLeftToPurge(was, keys, root, counts, left, filter);
    purged := Purged(candidates, left, filter);
  }
}
