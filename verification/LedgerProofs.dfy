/** Every step keeps the ledger's invariant; collection changes no load and no restart. */
module LedgerProofs {
  import opened Types
  import opened Ledger

  // ---------- the newest version ----------

  lemma NewestIs(m: map<Slot, Account>, top: Slot)
    requires top in m && forall s :: s in m ==> s <= top
    ensures Newest(m) == Alive(m[top])
  {
    assert Max(m.Keys) == top;
  }

  /** Two version maps that agree from `from` upwards, where they are not empty, give one answer. */
  lemma NewestAgrees(m: map<Slot, Account>, n: map<Slot, Account>, from: Slot)
    requires forall s :: s >= from ==> (s in m <==> s in n)
    requires forall s :: s >= from && s in m ==> m[s] == n[s]
    requires exists s :: s >= from && s in m
    ensures Newest(m) == Newest(n)
  {
    var x :| x >= from && x in m;
    var top := Max(m.Keys);
    NewestIs(m, top);
    NewestIs(n, top);
  }

  // ---------- the archive, one key at a time ----------

  lemma StillAgrees(answer: Option<Account>, m: map<Slot, Account>, g: set<Slot>, m': map<Slot, Account>, g': set<Slot>,
                    base: int, cleaned: Slot, cleaned': Slot)
    requires Agrees(answer, m, g, base, cleaned) && cleaned <= cleaned'
    requires Newest(UpTo(m', base)) == Newest(UpTo(m, base))
    requires forall s :: base < s && (s in m || s in g) ==> s in m' || s in g'
    ensures Agrees(answer, m', g', base, cleaned')
  {
  }

  /** Reclaiming below `root` keeps the newest version at or below any bound no reclaimed version passes. */
  lemma SurvivorsKeepNewest(m: map<Slot, Account>, root: Slot, bound: int)
    requires forall s :: s in m && s <= root ==> s <= bound
    ensures Newest(UpTo(Survivors(m, root), bound)) == Newest(UpTo(m, bound))
  {
    var all, left := UpTo(m, bound), UpTo(Survivors(m, root), bound);
    if all == map[] {
      assert forall s :: s in left ==> s in all;
    } else {
      var top := Max(all.Keys);
      NewestIs(all, top);
      assert forall t :: t in m && t <= root ==> t in all;
      assert top in left;
      assert forall s :: s in left ==> s in all;
      NewestIs(left, top);
    }
  }

  lemma CleanAgrees(answer: Option<Account>, m: map<Slot, Account>, g: set<Slot>, g': set<Slot>,
                    base: nat, cleaned: Slot, cleaned': Slot, root: Slot)
    requires Agrees(answer, m, g, base, cleaned) && cleaned <= cleaned' && root <= cleaned'
    requires forall x, s :: x in g && s in m ==> x < s
    requires forall x :: x in g && base < x ==> x in g'
    requires forall x :: x in GravesFromClean(m, root) && base < x ==> x in g'
    ensures Agrees(answer, StoredAfterClean(m, root), g', base, cleaned')
  {
    var left, m' := Survivors(m, root), StoredAfterClean(m, root);
    if s :| s in m && base < s <= root {
      assert forall t :: t in m && t <= root ==> t in UpTo(m, root);
      var top := Max(UpTo(m, root).Keys);
      assert top in UpTo(m, root) && base < s <= top;
      assert top in left;
      assert top in m' || top in GravesFromClean(m, root);
      assert top in m' || top in g';
    } else {
      SurvivorsKeepNewest(m, root, base);
      if LoneZero(left) {
        LoneZeroIsAbsent(left, base);
      }
      assert forall s :: s in m && base < s ==> s in left;
      StillAgrees(answer, m, g, m', g', base, cleaned, cleaned');
    }
  }

  lemma LoneZeroIsAbsent(m: map<Slot, Account>, bound: int)
    requires LoneZero(m)
    ensures Newest(UpTo(m, bound)) == Newest(UpTo(map[], bound)) == None
  {
    var only :| only in m && m.Keys == {only} && m[only].IsZeroLamport();
    if only <= bound {
      NewestIs(UpTo(m, bound), only);
    } else {
      assert UpTo(m, bound) == map[];
    }
  }

  lemma ShrinkAgrees(answer: Option<Account>, m: map<Slot, Account>, g: set<Slot>, g': set<Slot>, base: nat,
                     cleaned: Slot, slot: Slot)
    requires Agrees(answer, m, g, base, cleaned)
    requires LoneZeroAt(m, slot)
    requires forall x :: base < x && (x in g || x == slot) ==> x in g'
    ensures Agrees(answer, map[], g', base, cleaned)
  {
    LoneZeroIsAbsent(m, base);
    StillAgrees(answer, m, g, map[], g', base, cleaned, cleaned);
  }

  // ---------- restart ----------

  /** `disk` is the stored versions of a key together with its tombstones, which are all older. */
  ghost predicate IsDisk(disk: map<Slot, Account>, m: map<Slot, Account>, g: set<Slot>) {
    && (forall x, s :: x in g && s in m ==> x < s)
    && (forall s :: s in disk <==> s in m || s in g)
    && (forall s :: s in m ==> disk[s] == m[s])
    && (forall s :: s in disk && s !in m ==> disk[s].IsZeroLamport())
  }

  lemma DiskNewest(disk: map<Slot, Account>, m: map<Slot, Account>, g: set<Slot>, base: int, slot: Slot)
    requires IsDisk(disk, m, g) && base <= slot
    requires exists s :: s in disk && base < s <= slot
    ensures Newest(Above(UpTo(disk, slot), base)) == Newest(UpTo(m, slot))
  {
    var some :| some in disk && base < some <= slot;
    var incremental, live := Above(UpTo(disk, slot), base), UpTo(m, slot);
    assert some in incremental;
    var top := Max(incremental.Keys);
    NewestIs(incremental, top);
    assert forall s :: s in live ==> s <= base || s in incremental;
    if top in m {
      NewestIs(live, top);
    } else {
      assert top in g && live == map[];
    }
  }

  lemma SnapshotNewest(disk: map<Slot, Account>, m: map<Slot, Account>, g: set<Slot>, slot: Slot)
    requires IsDisk(disk, m, g)
    ensures Newest(UpTo(disk, slot)) == Newest(UpTo(m, slot))
  {
    assert UpTo(disk, slot) == Above(UpTo(disk, slot), -1);
    if s :| s in disk && s <= slot {
      DiskNewest(disk, m, g, -1, slot);
    } else {
      NothingIncremental(disk, m, g, -1, slot);
      assert UpTo(m, -1) == map[];
    }
  }

  lemma NothingIncremental(disk: map<Slot, Account>, m: map<Slot, Account>, g: set<Slot>, base: int, slot: Slot)
    requires IsDisk(disk, m, g) && base <= slot
    requires forall s :: s in disk && base < s ==> slot < s
    ensures Above(UpTo(disk, slot), base) == map[]
    ensures UpTo(m, slot) == UpTo(m, base)
    ensures !HasRecord(m, g, base, slot)
  {
    assert forall s :: s in m ==> s in disk;
    assert forall s :: s in g ==> s in disk;
  }

  /** An incremental snapshot at any slot from the clean bound on rebuilds what is stored at that slot. */
  lemma RestartRebuildsStored(l: Ledger, slot: Slot, k: Pubkey)
    requires Inv(l) && l.cleaned <= slot && Base(l) <= slot
    ensures Restart(l, slot, k) == Newest(UpTo(Stored(l, k), slot))
  {
    var disk, m, g := Disk(l, k), Stored(l, k), Graves(l, k);
    assert SlotsOrdered(l, k) && ArchiveAgrees(l, k);
    if s :| s in disk && Base(l) < s <= slot {
      assert s in Above(UpTo(disk, slot), Base(l));
      DiskNewest(disk, m, g, Base(l), slot);
    } else {
      NothingIncremental(disk, m, g, Base(l), slot);
      assert HasRecord(m, g, Base(l), l.cleaned) ==> HasRecord(m, g, Base(l), slot);
    }
  }

  // ---------- the invariant ----------

  lemma FlushKeepsOrder(l: Ledger, slot: Slot, clean: Option<Slot>, kept: set<Pubkey>, l': Ledger, k: Pubkey)
    requires FlushStep(l, slot, clean, kept, l') && SlotsOrdered(l, k) && slot <= l.maxRoot
    ensures SlotsOrdered(l', k)
  {
    assert GravesGain(l, l', k, GravesFromFlush(l, slot, clean.Some?, kept, k));
    assert forall s :: s in Stored(l', k) ==> s in Stored(l, k) || s == slot;
    assert forall g :: g in Graves(l', k) ==> g in Graves(l, k) || (g == slot && Stored(l', k) == map[]);
  }

  lemma FlushKeepsArchive(l: Ledger, slot: Slot, clean: Option<Slot>, kept: set<Pubkey>, l': Ledger, k: Pubkey)
    requires FlushStep(l, slot, clean, kept, l') && ArchiveAgrees(l, k) && Base(l) < slot
    requires l.full.None? ==> ArchiveAnswer(l, k) == None
    ensures ArchiveAgrees(l', k)
  {
    var m, m', g, g' := Stored(l, k), Stored(l', k), Graves(l, k), Graves(l', k);
    assert GravesGain(l, l', k, GravesFromFlush(l, slot, clean.Some?, kept, k));
    assert m' == StoredAfterFlush(l, slot, clean.Some?, kept, k);
    if l.full.None? {
      assert UpTo(m', Base(l')) == map[];
    } else if clean.Some? && k in kept {
      assert slot in m' || slot in g';
    } else {
      assert UpTo(m', Base(l)) == UpTo(m, Base(l));
      StillAgrees(ArchiveAnswer(l, k), m, g, m', g', Base(l), l.cleaned, l'.cleaned);
    }
  }

  lemma CleanKeepsOrder(l: Ledger, keys: set<Pubkey>, root: Slot, l': Ledger, k: Pubkey)
    requires CleanStep(l, keys, root, l') && SlotsOrdered(l, k)
    ensures SlotsOrdered(l', k)
  {
    assert GravesGain(l, l', k, if k in keys then GravesFromClean(Stored(l, k), root) else {});
    assert forall s :: s in Stored(l', k) ==> s in Stored(l, k);
    assert forall g :: g in Graves(l', k) ==> g in Graves(l, k) || (g in Stored(l, k) && Stored(l', k) == map[]);
  }

  lemma CleanKeepsArchive(l: Ledger, keys: set<Pubkey>, root: Slot, l': Ledger, k: Pubkey)
    requires CleanStep(l, keys, root, l') && ArchiveAgrees(l, k) && SlotsOrdered(l, k)
    requires l.full.None? ==> ArchiveAnswer(l, k) == None
    ensures ArchiveAgrees(l', k)
  {
    var m, m', g, g' := Stored(l, k), Stored(l', k), Graves(l, k), Graves(l', k);
    assert GravesGain(l, l', k, if k in keys then GravesFromClean(m, root) else {});
    if l.full.None? {
      assert UpTo(m', Base(l')) == map[];
    } else if k in keys {
      CleanAgrees(ArchiveAnswer(l, k), m, g, g', l.full.value, l.cleaned, l'.cleaned, root);
    } else {
      StillAgrees(ArchiveAnswer(l, k), m, g, m', g', Base(l), l.cleaned, l'.cleaned);
    }
  }

  lemma ShrinkKeeps(l: Ledger, slot: Slot, l': Ledger, k: Pubkey)
    requires Inv(l) && ShrinkStep(l, slot, l')
    ensures SlotsOrdered(l', k) && ArchiveAgrees(l', k)
  {
    var m, m', g, g' := Stored(l, k), Stored(l', k), Graves(l, k), Graves(l', k);
    assert SlotsOrdered(l, k) && ArchiveAgrees(l, k);
    assert LoneZeroAt(m, slot) ==> slot in m;
    assert forall x :: x in g' ==> x in g || (x == slot && slot in m);
    if l.full.None? {
      assert UpTo(m', Base(l')) == map[];
    } else if LoneZeroAt(m, slot) {
      ShrinkAgrees(ArchiveAnswer(l, k), m, g, g', l.full.value, l.cleaned, slot);
    } else {
      StillAgrees(ArchiveAnswer(l, k), m, g, m', g', Base(l), l.cleaned, l'.cleaned);
    }
  }

  lemma SweepKeeps(l: Ledger, slots: set<Slot>, l': Ledger, k: Pubkey)
    requires Inv(l) && SweepStep(l, slots, l')
    ensures SlotsOrdered(l', k) && ArchiveAgrees(l', k)
  {
    var m, g, g' := Stored(l, k), Graves(l, k), Graves(l', k);
    assert SlotsOrdered(l, k) && ArchiveAgrees(l, k);
    assert g' == g - slots;
    if l.full.None? {
      assert UpTo(m, Base(l')) == map[];
    } else {
      StillAgrees(ArchiveAnswer(l, k), m, g, m, g', Base(l), l.cleaned, l'.cleaned);
    }
  }

  lemma SnapshotKeeps(l: Ledger, slot: Slot, l': Ledger, k: Pubkey)
    requires Inv(l) && SnapshotStep(l, slot, l')
    ensures SlotsOrdered(l', k) && ArchiveAgrees(l', k)
  {
    assert SlotsOrdered(l, k);
    assert ArchiveAnswer(l', k) == Newest(UpTo(Disk(l, k), slot));
    SnapshotNewest(Disk(l, k), Stored(l, k), Graves(l, k), slot);
  }

  /** Every step, by a writer, by rooting or by collection, keeps the invariant. */
  lemma StepKeepsInv(l: Ledger, step: Step, l': Ledger)
    requires Inv(l) && Next(l, step, l')
    ensures Inv(l')
  {
    forall k ensures SlotsOrdered(l', k) && ArchiveAgrees(l', k) {
      assert SlotsOrdered(l, k) && ArchiveAgrees(l, k);
      match step
      case Flush(slot, clean, kept) => FlushKeepsOrder(l, slot, clean, kept, l', k);
        FlushKeepsArchive(l, slot, clean, kept, l', k);
      case Clean(keys, root) => CleanKeepsOrder(l, keys, root, l', k); CleanKeepsArchive(l, keys, root, l', k);
      case Shrink(slot) => ShrinkKeeps(l, slot, l', k);
      case Sweep(slots) => SweepKeeps(l, slots, l', k);
      case FullSnapshot(slot) => SnapshotKeeps(l, slot, l', k);
      case _ => assert Stored(l', k) == Stored(l, k) && Graves(l', k) == Graves(l, k);
    }
  }

  // ---------- loads, one key at a time ----------

  /** A cached version the bank sees. */
  predicate SeesCached(unflushed: set<Slot>, ancestors: set<Slot>, c: Slot) {
    c in ancestors || (c in unflushed && Sees(ancestors, c))
  }

  /** What the invariant and the bank's chain give for one key: of the versions it sees, the cached ones are newer. */
  predicate CacheIsNewer(stored: map<Slot, Account>, cached: map<Slot, Account>, unflushed: set<Slot>,
                         ancestors: set<Slot>) {
    forall s, c :: s in stored && Sees(ancestors, s) && c in cached && SeesCached(unflushed, ancestors, c) ==> s < c
  }

  lemma SearchFindsNewest(stored: map<Slot, Account>, cached: map<Slot, Account>, unflushed: set<Slot>,
                          ancestors: set<Slot>)
    requires CacheIsNewer(stored, cached, unflushed, ancestors)
    ensures Search(stored, cached, unflushed, ancestors) == Newest(Seen(stored, cached, unflushed, ancestors))
  {
    var roots := map s | s in cached && s in unflushed :: cached[s];
    var mine := map s | s in cached && (s in ancestors || (s in roots && Sees(ancestors, s))) :: cached[s];
    var theirs := map s | s in stored && (s in ancestors || (s in stored && Sees(ancestors, s))) :: stored[s];
    AncestorsFirstNewest(cached, ancestors, roots, mine);
    AncestorsFirstNewest(stored, ancestors, stored, theirs);
    assert forall c :: c in mine <==> c in cached && SeesCached(unflushed, ancestors, c);
    SeenIsBoth(stored, cached, unflushed, ancestors, mine, theirs);
    hide AncestorsFirst, Seen, Sees, SeesCached;
  }

  /** The visible cached versions answer if there are any, the visible stored ones otherwise. */
  lemma SeenIsBoth(stored: map<Slot, Account>, cached: map<Slot, Account>, unflushed: set<Slot>,
                   ancestors: set<Slot>, mine: map<Slot, Account>, theirs: map<Slot, Account>)
    requires CacheIsNewer(stored, cached, unflushed, ancestors)
    requires forall c :: c in mine <==> c in cached && SeesCached(unflushed, ancestors, c)
    requires forall c :: c in mine ==> mine[c] == cached[c]
    requires forall s :: s in theirs <==> s in stored && Sees(ancestors, s)
    requires forall s :: s in theirs ==> theirs[s] == stored[s]
    ensures Newest(Seen(stored, cached, unflushed, ancestors)) == if mine != map[] then Newest(mine) else Newest(theirs)
  {
    var seen := Seen(stored, cached, unflushed, ancestors);
    assert forall s :: s in seen <==> s in mine || s in theirs;
    if mine != map[] {
      var top := Max(mine.Keys);
      assert top in mine;
      NewestIs(mine, top);
      NewestIs(seen, top);
    } else {
      assert forall s :: s !in mine;
      assert seen == theirs;
    }
  }

  /** Looking at ancestors first misses nothing newer: every visible root is no newer than any ancestor. */
  lemma AncestorsFirstNewest(m: map<Slot, Account>, ancestors: set<Slot>, roots: map<Slot, Account>,
                             visible: map<Slot, Account>)
    requires forall s :: s in roots ==> s in m && roots[s] == m[s]
    requires visible == map s | s in m && (s in ancestors || (s in roots && Sees(ancestors, s))) :: m[s]
    ensures var first := AncestorsFirst(m, ancestors, roots);
      (first == map[] <==> visible == map[]) && Newest(first) == Newest(visible)
  {
    var mine := map s | s in m && s in ancestors :: m[s];
    var low := map s | s in roots && (forall a :: a in ancestors ==> s <= a) :: roots[s];
    if mine != map[] {
      var top := Max(mine.Keys);
      assert top in mine && top in visible;
      NewestIs(mine, top);
      assert forall s :: s in visible ==> s in mine || s <= top;
      NewestIs(visible, top);
    } else {
      assert forall s :: s in visible ==> s !in mine;
      assert visible == low == AncestorsFirst(m, ancestors, roots);
    }
  }

  lemma SurvivorsSeen(stored: map<Slot, Account>, cached: map<Slot, Account>, unflushed: set<Slot>,
                      ancestors: set<Slot>, root: Slot)
    requires CacheIsNewer(stored, cached, unflushed, ancestors)
    requires forall s :: s in stored && s <= root ==> Sees(ancestors, s)
    ensures Newest(Seen(Survivors(stored, root), cached, unflushed, ancestors)) ==
      Newest(Seen(stored, cached, unflushed, ancestors))
  {
    var low, left := UpTo(stored, root), Survivors(stored, root);
    if low == map[] {
      assert forall s :: s in stored ==> s !in low;
      assert left == stored;
    } else {
      var top := Max(low.Keys);
      assert top in low;
      assert forall t :: t in stored && t <= root ==> t in low;
      assert top in left;
      assert forall s :: s in stored && top <= s ==> s in left;
      assert top in Seen(stored, cached, unflushed, ancestors);
      NewestAgrees(Seen(stored, cached, unflushed, ancestors), Seen(left, cached, unflushed, ancestors), top);
    }
  }

  /** Removing the only stored version of a key, when it has no lamports, cannot be seen. */
  lemma LoneZeroUnseen(stored: map<Slot, Account>, cached: map<Slot, Account>, unflushed: set<Slot>,
                       ancestors: set<Slot>, only: Slot)
    requires CacheIsNewer(stored, cached, unflushed, ancestors) && LoneZeroAt(stored, only)
    ensures Newest(Seen(map[], cached, unflushed, ancestors)) == Newest(Seen(stored, cached, unflushed, ancestors))
  {
    var seen, seen' := Seen(stored, cached, unflushed, ancestors), Seen(map[], cached, unflushed, ancestors);
    assert only in stored;
    if !Sees(ancestors, only) {
      assert seen == seen';
      return;
    }
    assert forall s :: s in seen' ==> SeesCached(unflushed, ancestors, s);
    assert forall s :: s in seen' ==> only < s;
    if seen' != map[] {
      NewestAgrees(seen, seen', only + 1);
    } else if seen != map[] {
      assert forall s :: s in seen ==> s !in seen' && s == only;
      var x :| x in seen;
      NewestIs(seen, only);
    }
  }

  /** `slot` lies above every stored version and, if the bank sees it, is the oldest cached version it sees. */
  predicate OldestCached(stored: map<Slot, Account>, cached: map<Slot, Account>, unflushed: set<Slot>,
                         ancestors: set<Slot>, slot: Slot) {
    && slot in cached && slot in unflushed
    && (forall s :: s in stored ==> s < slot)
    && (Sees(ancestors, slot) ==> forall c :: c in cached && SeesCached(unflushed, ancestors, c) ==> slot <= c)
  }

  function Without(m: map<Slot, Account>, slot: Slot): map<Slot, Account> {
    map s | s in m && s != slot :: m[s]
  }

  /** A root moves from the cache to storage, perhaps hiding older versions. */
  lemma FlushStored(stored: map<Slot, Account>, cached: map<Slot, Account>, unflushed: set<Slot>, ancestors: set<Slot>,
                    stored': map<Slot, Account>, slot: Slot)
    requires OldestCached(stored, cached, unflushed, ancestors, slot)
    requires stored' == stored[slot := cached[slot]] || (stored' == map[slot := cached[slot]] && Sees(ancestors, slot))
    ensures Newest(Seen(stored', Without(cached, slot), unflushed - {slot}, ancestors)) ==
      Newest(Seen(stored, cached, unflushed, ancestors))
  {
    var seen, seen' := Seen(stored, cached, unflushed, ancestors),
      Seen(stored', Without(cached, slot), unflushed - {slot}, ancestors);
    if stored' == stored[slot := cached[slot]] {
      assert seen' == seen;
    } else {
      assert slot in seen;
      NewestAgrees(seen, seen', slot);
    }
  }

  /** A root leaves the cache with a zero-lamport version that nothing older is left under. */
  lemma FlushDropped(stored: map<Slot, Account>, cached: map<Slot, Account>, unflushed: set<Slot>, ancestors: set<Slot>,
                     slot: Slot)
    requires OldestCached(stored, cached, unflushed, ancestors, slot)
    requires cached[slot].IsZeroLamport() && (stored == map[] || Sees(ancestors, slot))
    ensures Newest(Seen(map[], Without(cached, slot), unflushed - {slot}, ancestors)) ==
      Newest(Seen(stored, cached, unflushed, ancestors))
  {
    var seen, seen' := Seen(stored, cached, unflushed, ancestors),
      Seen(map[], Without(cached, slot), unflushed - {slot}, ancestors);
    if !Sees(ancestors, slot) {
      assert seen == seen';
      return;
    }
    assert forall s :: s in seen' ==> SeesCached(unflushed, ancestors, s);
    assert forall s :: s in seen' ==> slot < s;
    assert forall s :: slot < s ==> (s in seen <==> s in seen');
    if seen' != map[] {
      NewestAgrees(seen, seen', slot + 1);
    } else {
      assert forall s :: s in seen ==> s !in seen';
      NewestIs(seen, slot);
    }
  }

  /** A root leaves the cache with a version a newer visible root replaces. */
  lemma FlushShadowed(stored: map<Slot, Account>, cached: map<Slot, Account>, unflushed: set<Slot>,
                      ancestors: set<Slot>, slot: Slot, newer: Slot)
    requires OldestCached(stored, cached, unflushed, ancestors, slot)
    requires slot < newer && newer in cached && newer in unflushed && Sees(ancestors, newer) && Sees(ancestors, slot)
    ensures Newest(Seen(stored, Without(cached, slot), unflushed - {slot}, ancestors)) ==
      Newest(Seen(stored, cached, unflushed, ancestors))
  {
    var seen, seen' := Seen(stored, cached, unflushed, ancestors),
      Seen(stored, Without(cached, slot), unflushed - {slot}, ancestors);
    assert newer in seen;
    NewestAgrees(seen, seen', newer);
  }

  // ---------- loads ----------

  lemma CacheIsNewerHolds(l: Ledger, ancestors: set<Slot>, k: Pubkey)
    requires Inv(l) && RootsComeFirst(l, ancestors)
    ensures CacheIsNewer(Stored(l, k), Cached(l, k), l.unflushed, ancestors)
  {
    assert SlotsOrdered(l, k);
    forall s | s in Stored(l, k) ensures IsRoot(l, s) {
      assert k in l.stored && s in l.stored[k];
    }
  }

  /** The two-stage search answers with the newest visible version. */
  lemma LookUpIsLoad(l: Ledger, ancestors: set<Slot>, k: Pubkey)
    requires Inv(l) && RootsComeFirst(l, ancestors)
    ensures LookUp(l, ancestors, k) == Load(l, ancestors, k)
  {
    CacheIsNewerHolds(l, ancestors, k);
    SearchFindsNewest(Stored(l, k), Cached(l, k), l.unflushed, ancestors);
  }

  /** Cleaning one key's entries: the older ones are shadowed, and a lone zero entry answers like none. */
  lemma CleanUnseen(stored: map<Slot, Account>, cached: map<Slot, Account>, unflushed: set<Slot>, ancestors: set<Slot>,
                    root: Slot)
    requires CacheIsNewer(stored, cached, unflushed, ancestors)
    requires forall s :: s in stored && s <= root ==> Sees(ancestors, s)
    ensures Newest(Seen(StoredAfterClean(stored, root), cached, unflushed, ancestors)) ==
      Newest(Seen(stored, cached, unflushed, ancestors))
  {
    var left := Survivors(stored, root);
    SurvivorsSeen(stored, cached, unflushed, ancestors, root);
    if LoneZero(left) {
      var only :| only in left && left.Keys == {only} && left[only].IsZeroLamport();
      LoneZeroUnseen(left, cached, unflushed, ancestors, only);
    }
  }

  lemma CoversStored(l: Ledger, ancestors: set<Slot>, bound: Slot, k: Pubkey)
    requires Covers(l, ancestors, bound)
    ensures forall s :: s in Stored(l, k) && s <= bound ==> Sees(ancestors, s)
  {
    forall s | s in Stored(l, k) && s <= bound ensures Sees(ancestors, s) {
      assert IsRoot(l, s);
    }
  }

  lemma CachedWithout(l: Ledger, l': Ledger, slot: Slot, k: Pubkey)
    requires l'.cache == l.cache - {slot}
    ensures Cached(l', k) == Without(Cached(l, k), slot)
  {
  }

  lemma OldestCachedHolds(l: Ledger, slot: Slot, ancestors: set<Slot>, k: Pubkey)
    requires SlotsOrdered(l, k) && RootsComeFirst(l, ancestors)
    requires slot in l.unflushed && slot in l.cache && k in l.cache[slot]
    requires (forall r :: r in l.unflushed ==> slot <= r) && slot <= l.maxRoot
    ensures OldestCached(Stored(l, k), Cached(l, k), l.unflushed, ancestors, slot)
  {
    assert IsRoot(l, slot);
  }

  lemma FlushKeepsLoad(l: Ledger, slot: Slot, clean: Option<Slot>, kept: set<Pubkey>, l': Ledger, ancestors: set<Slot>,
                       k: Pubkey)
    requires FlushStep(l, slot, clean, kept, l') && SlotsOrdered(l, k) && slot <= l.maxRoot
    requires RootsComeFirst(l, ancestors) && (clean.Some? ==> Covers(l, ancestors, clean.value))
    ensures Load(l', ancestors, k) == Load(l, ancestors, k)
  {
    var stored, cached, stored' := Stored(l, k), Cached(l, k), Stored(l', k);
    CachedWithout(l, l', slot, k);
    assert stored' == StoredAfterFlush(l, slot, clean.Some?, kept, k);
    if k !in l.cache[slot] {
      assert Without(cached, slot) == cached;
      assert Seen(stored, cached, l.unflushed, ancestors) == Seen(stored, cached, l'.unflushed, ancestors);
    } else {
      OldestCachedHolds(l, slot, ancestors, k);
      assert IsRoot(l, slot);
      if stored' == stored[slot := cached[slot]] || stored' == map[slot := cached[slot]] {
        FlushStored(stored, cached, l.unflushed, ancestors, stored', slot);
      } else if k in kept || SkippedAtFlush(l, slot, k) {
        FlushDropped(stored, cached, l.unflushed, ancestors, slot);
      } else {
        var r :| r in l.unflushed && slot < r <= clean.value && r in l.cache && k in l.cache[r];
        assert IsRoot(l, r);
        FlushShadowed(stored, cached, l.unflushed, ancestors, slot, r);
      }
    }
  }

  lemma CleanKeepsLoad(l: Ledger, keys: set<Pubkey>, root: Slot, l': Ledger, ancestors: set<Slot>, k: Pubkey)
    requires CleanStep(l, keys, root, l') && forall s :: s in Stored(l, k) && s <= root ==> Sees(ancestors, s)
    requires CacheIsNewer(Stored(l, k), Cached(l, k), l.unflushed, ancestors)
    ensures Load(l', ancestors, k) == Load(l, ancestors, k)
  {
    assert Cached(l', k) == Cached(l, k);
    CleanUnseen(Stored(l, k), Cached(l, k), l.unflushed, ancestors, root);
  }

  lemma ShrinkKeepsLoad(l: Ledger, slot: Slot, l': Ledger, ancestors: set<Slot>, k: Pubkey)
    requires ShrinkStep(l, slot, l') && CacheIsNewer(Stored(l, k), Cached(l, k), l.unflushed, ancestors)
    ensures Load(l', ancestors, k) == Load(l, ancestors, k)
  {
    assert Cached(l', k) == Cached(l, k);
    if LoneZeroAt(Stored(l, k), slot) {
      LoneZeroUnseen(Stored(l, k), Cached(l, k), l.unflushed, ancestors, slot);
    }
  }

  /** Collection that reclaims no further than the roots a bank sees leaves its loads alone. */
  lemma CollectionKeepsLoad(l: Ledger, step: Step, l': Ledger, ancestors: set<Slot>, k: Pubkey)
    requires Inv(l) && Next(l, step, l') && IsCollection(step)
    requires RootsComeFirst(l, ancestors) && Covers(l, ancestors, CleanBound(step))
    ensures Load(l', ancestors, k) == Load(l, ancestors, k)
  {
    assert SlotsOrdered(l, k);
    CacheIsNewerHolds(l, ancestors, k);
    match step
    case Flush(slot, clean, kept) => FlushKeepsLoad(l, slot, clean, kept, l', ancestors, k);
    case Clean(keys, root) => CoversStored(l, ancestors, root, k); CleanKeepsLoad(l, keys, root, l', ancestors, k);
    case Shrink(slot) => ShrinkKeepsLoad(l, slot, l', ancestors, k);
    case FlushNothing(slot) =>
      assert Seen(Stored(l, k), Cached(l, k), l.unflushed, ancestors) ==
        Seen(Stored(l, k), Cached(l, k), l'.unflushed, ancestors);
    case _ =>
  }

  /** No bank that sees every root up to `bound` can tell `l'` from `l`. */
  ghost predicate SameLoads(l: Ledger, l': Ledger, bound: Slot) {
    forall ancestors: set<Slot> ::
      RootsComeFirst(l, ancestors) && Covers(l, ancestors, bound) ==> SameFor(l, l', ancestors, bound)
  }

  ghost predicate SameFor(l: Ledger, l': Ledger, ancestors: set<Slot>, bound: Slot) {
    && RootsComeFirst(l', ancestors) && Covers(l', ancestors, bound)
    && forall k :: Load(l', ancestors, k) == Load(l, ancestors, k)
  }

  lemma SameLoadsRefl(l: Ledger, bound: Slot)
    ensures SameLoads(l, l, bound)
  {
  }

  lemma CollectionAddsNoRoot(l: Ledger, step: Step, l': Ledger, slot: Slot)
    requires Next(l, step, l') && IsCollection(step) && IsRoot(l', slot)
    ensures IsRoot(l, slot)
  {
    if slot !in l'.unflushed {
      var k :| k in l'.stored && slot in l'.stored[k];
      assert slot in Stored(l', k);
      assert slot in Stored(l, k) || (step.Flush? && slot == step.slot);
    }
  }

  lemma CollectionKeepsFork(l: Ledger, step: Step, l': Ledger, ancestors: set<Slot>, bound: Slot)
    requires Next(l, step, l') && IsCollection(step) && RootsComeFirst(l, ancestors) && Covers(l, ancestors, bound)
    ensures RootsComeFirst(l', ancestors) && Covers(l', ancestors, bound)
  {
    forall r: Slot | IsRoot(l', r) ensures IsRoot(l, r) {
      CollectionAddsNoRoot(l, step, l', r);
    }
    assert forall a :: a in l'.cache && a !in l'.unflushed ==> a in l.cache && a !in l.unflushed;
  }

  /** Collection steps add up: none of them, up to `bound`, can be seen. */
  lemma SameLoadsStep(l: Ledger, mid: Ledger, step: Step, l': Ledger, bound: Slot)
    requires SameLoads(l, mid, bound) && Inv(mid) && Next(mid, step, l') && IsCollection(step)
    requires CleanBound(step) <= bound
    ensures SameLoads(l, l', bound)
  {
    forall ancestors: set<Slot> | RootsComeFirst(l, ancestors) && Covers(l, ancestors, bound)
      ensures SameFor(l, l', ancestors, bound)
    {
      assert SameFor(l, mid, ancestors, bound);
      CollectionKeepsFork(mid, step, l', ancestors, bound);
      forall k ensures Load(l', ancestors, k) == Load(l, ancestors, k) {
        CollectionKeepsLoad(mid, step, l', ancestors, k);
      }
    }
  }

  // ---------- what a load answers ----------

  /** The bank can see this account of the key at the slot: in storage, or in the cache on its fork or at a root. */
  predicate Shows(l: Ledger, ancestors: set<Slot>, k: Pubkey, s: Slot, a: Account) {
    var atRoot := s in ancestors || forall x :: x in ancestors ==> s <= x;
    || (k in l.stored && s in l.stored[k] && l.stored[k][s] == a && atRoot)
    || (s in l.cache && k in l.cache[s] && l.cache[s][k] == a && (s in ancestors || (s in l.unflushed && atRoot)))
  }

  lemma ShowsIsSeen(l: Ledger, ancestors: set<Slot>, k: Pubkey, s: Slot, a: Account)
    requires SlotsOrdered(l, k)
    ensures var seen := Seen(Stored(l, k), Cached(l, k), l.unflushed, ancestors);
      Shows(l, ancestors, k, s, a) <==> s in seen && seen[s] == a
  {
    assert s in Stored(l, k) ==> s !in Cached(l, k);
  }

  /** A load answers with an account exactly when that account, whole, is at the highest slot shown and has lamports. */
  lemma LoadMeans(l: Ledger, ancestors: set<Slot>, k: Pubkey, b: Account)
    requires Inv(l)
    ensures Load(l, ancestors, k) == Some(b) <==>
      b.lamports > 0 && exists s ::
        Shows(l, ancestors, k, s, b) && forall t, c :: Shows(l, ancestors, k, t, c) ==> t <= s
  {
    var seen := Seen(Stored(l, k), Cached(l, k), l.unflushed, ancestors);
    assert SlotsOrdered(l, k);
    forall s, a ensures Shows(l, ancestors, k, s, a) <==> s in seen && seen[s] == a {
      ShowsIsSeen(l, ancestors, k, s, a);
    }
    hide Inv, SlotsOrdered, Seen, Shows;
    if seen != map[] {
      var top := Max(seen.Keys);
      NewestIs(seen, top);
      assert Shows(l, ancestors, k, top, seen[top]);
      forall s | s in seen ensures Shows(l, ancestors, k, s, seen[s]) {
      }
    }
  }

  /** What a bank stores at its own slot it loads back, whole, and as absent if it has no lamports. */
  lemma StoreThenLoad(l: Ledger, slot: Slot, k: Pubkey, a: Account, l': Ledger, ancestors: set<Slot>)
    requires Inv(l) && Next(l, Store(slot, k, a), l')
    requires slot in ancestors && forall x :: x in ancestors ==> x <= slot
    ensures Load(l', ancestors, k) == if a.lamports == 0 then None else Some(a)
  {
    var seen := Seen(Stored(l', k), Cached(l', k), l'.unflushed, ancestors);
    assert SlotsOrdered(l, k);
    assert Cached(l', k)[slot] == a && slot !in Stored(l', k);
    assert slot in seen && seen[slot] == a;
    NewestIs(seen, slot);
  }
}
