/** The write cache: one map of accounts per slot, an index of which keys are cached, and running totals. */
module WriteCache {
  import opened Types
  import opened Sums
  import L = Ledger

  datatype SlotCache = SlotCache(accounts: map<Pubkey, Account>, size: nat, count: nat)

  /** `maxSlot` may be stale: it is not lowered when a slot leaves the cache. */
  datatype IndexEntry = IndexEntry(maxSlot: Slot, refs: nat)

  ghost function Lengths(accounts: map<Pubkey, Account>): map<Pubkey, int> {
    map k | k in accounts :: |accounts[k].data|
  }

  /** A slot's cache, empty until something is stored in it. */
  function CacheAt(slots: map<Slot, SlotCache>, slot: Slot): SlotCache {
    if slot in slots then slots[slot] else SlotCache(map[], 0, 0)
  }

  ghost predicate Counted(c: SlotCache) {
    c.size == Sum(Lengths(c.accounts)) && c.count == |c.accounts|
  }

  ghost function Sizes(caches: map<nat, SlotCache>): map<nat, int> {
    map s | s in caches :: caches[s].size
  }

  ghost function Counts(caches: map<nat, SlotCache>): map<nat, int> {
    map s | s in caches :: caches[s].count
  }

  /** The slots whose cache holds the key. */
  ghost function Holders(slots: map<Slot, SlotCache>, k: Pubkey): set<Slot> {
    set s | s in slots && k in slots[s].accounts
  }

  ghost function AccountsOf(slots: map<Slot, SlotCache>): map<Slot, map<Pubkey, Account>> {
    map s | s in slots :: slots[s].accounts
  }

  lemma AccountsPut(slots: map<Slot, SlotCache>, slot: Slot, c: SlotCache)
    ensures AccountsOf(slots[slot := c]) == AccountsOf(slots)[slot := c.accounts]
  {
  }

  lemma AccountsTake(slots: map<Slot, SlotCache>, slot: Slot)
    ensures AccountsOf(slots - {slot}) == AccountsOf(slots) - {slot}
    ensures slot !in slots ==> slots - {slot} == slots
  {
  }

  /** The cached versions of a key, by slot. */
  ghost function Versions(slots: map<Slot, SlotCache>, k: Pubkey): map<Slot, Account> {
    map s | s in slots && k in slots[s].accounts :: slots[s].accounts[k]
  }

  /** The index counts the holders of a key, and one more while the key is being released. */
  predicate Tracks(index: map<Pubkey, IndexEntry>, k: Pubkey, holders: set<Slot>, pending: bool) {
    && (k in index <==> holders != {} || pending)
    && (k in index ==> index[k].refs == |holders| + (if pending then 1 else 0))
    && (k in index ==> forall s :: s in holders ==> s <= index[k].maxSlot)
  }

  ghost predicate Indexed(slots: map<Slot, SlotCache>, index: map<Pubkey, IndexEntry>, pending: set<Pubkey>) {
    forall k :: Tracks(index, k, Holders(slots, k), k in pending)
  }

  // ---------- a slot's own cache ----------

  /** The account the key had in this slot, if any, is replaced, and the size follows the difference. */
  function Insert(c: SlotCache, k: Pubkey, account: Account): SlotCache
    requires k in c.accounts ==> |c.accounts[k].data| <= c.size
  {
    var len := |account.data|;
    if k in c.accounts then
      var oldLen := |c.accounts[k].data|;
      SlotCache(c.accounts[k := account], if oldLen < len then c.size + (len - oldLen)
        else c.size - (oldLen - len), c.count)
    else
      SlotCache(c.accounts[k := account], c.size + len, c.count + 1)
  }

  lemma HeldFits(c: SlotCache, k: Pubkey)
    requires Counted(c)
    ensures k in c.accounts ==> |c.accounts[k].data| <= c.size
  {
    if k in c.accounts {
      SumTake(Lengths(c.accounts), k);
      SumIsNat(Lengths(c.accounts) - {k});
    }
  }

  lemma LengthsPut(accounts: map<Pubkey, Account>, k: Pubkey, account: Account)
    ensures Lengths(accounts[k := account]) == Lengths(accounts)[k := |account.data|]
    ensures |accounts[k := account]| == |accounts| + (if k in accounts then 0 else 1)
  {
    assert accounts[k := account].Keys == accounts.Keys + {k};
  }

  lemma InsertCounts(c: SlotCache, k: Pubkey, account: Account)
    requires Counted(c) && (k in c.accounts ==> |c.accounts[k].data| <= c.size)
    ensures Counted(Insert(c, k, account)) && Insert(c, k, account).accounts == c.accounts[k := account]
    ensures Insert(c, k, account).accounts.Keys == c.accounts.Keys + {k}
  {
    hide Sum;
    LengthsPut(c.accounts, k, account);
    var was := Lengths(c.accounts);
    SumPut(was, k, |account.data|);
    if k in c.accounts {
      SumTake(was, k);
    } else {
      SumMissing(was, k);
    }
  }

  ghost predicate AllCounted(slots: map<Slot, SlotCache>) {
    forall s :: s in slots ==> Counted(slots[s])
  }

  lemma SlotIsCounted(slots: map<Slot, SlotCache>, slot: Slot)
    requires AllCounted(slots)
    ensures Counted(CacheAt(slots, slot))
  {
  }

  lemma TakeCounted(slots: map<Slot, SlotCache>, slot: Slot)
    requires AllCounted(slots)
    ensures AllCounted(slots - {slot})
  {
  }

  lemma PutCounted(slots: map<Slot, SlotCache>, slot: Slot, c: SlotCache)
    requires AllCounted(slots) && Counted(c)
    ensures AllCounted(slots[slot := c])
  {
  }

  /** The totals cover every slot cache not yet dropped, in the cache or out of it. */
  ghost predicate Totalled(slots: map<Slot, SlotCache>, detached: map<nat, SlotCache>, size: int, count: int) {
    && size == Sum(Sizes(slots)) + Sum(Sizes(detached))
    && count == Sum(Counts(slots)) + Sum(Counts(detached))
  }

  lemma StoreTotals(slots: map<Slot, SlotCache>, detached: map<nat, SlotCache>, size: int, count: int, slot: Slot,
                    c: SlotCache, c': SlotCache)
    requires Totalled(slots, detached, size, count) && c == CacheAt(slots, slot)
    ensures Totalled(slots[slot := c'], detached, size + c'.size - c.size, count + c'.count - c.count)
    ensures 0 <= size + c'.size - c.size && 0 <= count + c'.count - c.count
  {
    hide Sum, Sizes, Counts;
    TotalsPut(slots, slot, c');
    TotalsAreNat(slots[slot := c']);
    TotalsAreNat(detached);
  }

  lemma DetachTotals(slots: map<Slot, SlotCache>, detached: map<nat, SlotCache>, size: int, count: int, slot: Slot,
                     handle: nat)
    requires Totalled(slots, detached, size, count) && slot in slots && handle !in detached
    ensures Totalled(slots - {slot}, detached[handle := slots[slot]], size, count)
  {
    hide Sum, Sizes, Counts;
    TotalsTake(slots, slot);
    TotalsPut(detached, handle, slots[slot]);
  }

  lemma DropTotals(slots: map<Slot, SlotCache>, detached: map<nat, SlotCache>, size: int, count: int, handle: nat)
    requires Totalled(slots, detached, size, count) && handle in detached
    ensures Totalled(slots, detached - {handle}, size - detached[handle].size, count - detached[handle].count)
    ensures 0 <= size - detached[handle].size && 0 <= count - detached[handle].count
  {
    hide Sum, Sizes, Counts;
    TotalsTake(detached, handle);
    TotalsAreNat(slots);
    TotalsAreNat(detached - {handle});
  }

  lemma TotalsPut(caches: map<nat, SlotCache>, s: nat, c: SlotCache)
    ensures Sum(Sizes(caches[s := c])) == Sum(Sizes(caches)) + c.size - (if s in caches then caches[s].size else 0)
    ensures Sum(Counts(caches[s := c])) == Sum(Counts(caches)) + c.count - (if s in caches then caches[s].count else 0)
  {
    hide Sum;
    SumPut(Sizes(caches), s, c.size);
    SumPut(Counts(caches), s, c.count);
    assert Sizes(caches[s := c]) == Sizes(caches)[s := c.size];
    assert Counts(caches[s := c]) == Counts(caches)[s := c.count];
    if s in caches {
      SumTake(Sizes(caches), s);
      SumTake(Counts(caches), s);
    } else {
      SumMissing(Sizes(caches), s);
      SumMissing(Counts(caches), s);
    }
  }

  lemma TotalsTake(caches: map<nat, SlotCache>, s: nat)
    requires s in caches
    ensures Sum(Sizes(caches - {s})) == Sum(Sizes(caches)) - caches[s].size
    ensures Sum(Counts(caches - {s})) == Sum(Counts(caches)) - caches[s].count
  {
    hide Sum;
    SumTake(Sizes(caches), s);
    SumTake(Counts(caches), s);
    assert Sizes(caches - {s}) == Sizes(caches) - {s};
    assert Counts(caches - {s}) == Counts(caches) - {s};
  }

  lemma TotalsAreNat(caches: map<nat, SlotCache>)
    ensures 0 <= Sum(Sizes(caches)) && 0 <= Sum(Counts(caches))
  {
    hide Sum;
    SumIsNat(Sizes(caches));
    SumIsNat(Counts(caches));
  }

  // ---------- the index ----------

  function Entered(index: map<Pubkey, IndexEntry>, k: Pubkey, slot: Slot): map<Pubkey, IndexEntry> {
    if k in index then
      index[k := IndexEntry(if index[k].maxSlot < slot then slot else index[k].maxSlot, index[k].refs + 1)]
    else
      index[k := IndexEntry(slot, 1)]
  }

  lemma EnteredSize(index: map<Pubkey, IndexEntry>, k: Pubkey, slot: Slot)
    ensures |Entered(index, k, slot)| == |index| + (if k in index then 0 else 1)
  {
    assert Entered(index, k, slot).Keys == index.Keys + {k};
  }

  lemma EnteredTracks(index: map<Pubkey, IndexEntry>, k: Pubkey, slot: Slot, holders: set<Slot>)
    requires Tracks(index, k, holders, false) && slot !in holders
    ensures Tracks(Entered(index, k, slot), k, holders + {slot}, false)
  {
  }

  lemma StoreIndexes(slots: map<Slot, SlotCache>, index: map<Pubkey, IndexEntry>, slot: Slot, c: SlotCache, k: Pubkey)
    requires Indexed(slots, index, {})
    requires c.accounts.Keys == CacheAt(slots, slot).accounts.Keys + {k}
    ensures Indexed(slots[slot := c], if k in CacheAt(slots, slot).accounts then index else Entered(index, k, slot), {})
  {
    var index' := if k in CacheAt(slots, slot).accounts then index else Entered(index, k, slot);
    var slots' := slots[slot := c];
    forall j ensures Tracks(index', j, Holders(slots', j), false) {
      StoreTracks(slots, index, index', slot, c, k, j);
    }
  }

  lemma StoreHolders(slots: map<Slot, SlotCache>, slot: Slot, c: SlotCache, k: Pubkey, j: Pubkey)
    requires c.accounts.Keys == CacheAt(slots, slot).accounts.Keys + {k}
    ensures Holders(slots[slot := c], j) == if j == k then Holders(slots, j) + {slot} else Holders(slots, j)
  {
  }

  lemma StoreTracks(slots: map<Slot, SlotCache>, index: map<Pubkey, IndexEntry>, index': map<Pubkey, IndexEntry>,
                    slot: Slot, c: SlotCache, k: Pubkey, j: Pubkey)
    requires Tracks(index, j, Holders(slots, j), false)
    requires index' == if k in CacheAt(slots, slot).accounts then index else Entered(index, k, slot)
    requires c.accounts.Keys == CacheAt(slots, slot).accounts.Keys + {k}
    ensures Tracks(index', j, Holders(slots[slot := c], j), false)
  {
    var holders := Holders(slots, j);
    StoreHolders(slots, slot, c, k, j);
    if j == k && slot !in holders {
      EnteredTracks(index, k, slot, holders);
    } else if j == k {
      assert holders + {slot} == holders;
    }
  }

  lemma RemoveHolders(slots: map<Slot, SlotCache>, index: map<Pubkey, IndexEntry>, slot: Slot)
    requires Indexed(slots, index, {}) && slot in slots
    ensures Indexed(slots - {slot}, index, slots[slot].accounts.Keys)
  {
    forall k ensures Tracks(index, k, Holders(slots - {slot}, k), k in slots[slot].accounts) {
      assert Tracks(index, k, Holders(slots, k), false);
      var left := Holders(slots - {slot}, k);
      assert Holders(slots, k) == if k in slots[slot].accounts then left + {slot} else left;
      assert slot !in left;
    }
  }

  /** Releases one key: the entry goes when nothing else holds the key. */
  function Released(index: map<Pubkey, IndexEntry>, k: Pubkey): map<Pubkey, IndexEntry>
    requires k in index && 0 < index[k].refs
  {
    if index[k].refs == 1 then index - {k} else index[k := index[k].(refs := index[k].refs - 1)]
  }

  lemma ReleaseKey(slots: map<Slot, SlotCache>, index: map<Pubkey, IndexEntry>, pending: set<Pubkey>, k: Pubkey)
    requires Indexed(slots, index, pending) && k in pending
    ensures k in index && 0 < index[k].refs
    ensures index[k].refs == 1 <==> Holders(slots, k) == {}
    ensures Indexed(slots, Released(index, k), pending - {k})
  {
    assert Tracks(index, k, Holders(slots, k), true);
    forall j ensures Tracks(Released(index, k), j, Holders(slots, j), j in pending - {k}) {
      assert Tracks(index, j, Holders(slots, j), j in pending);
    }
  }

  lemma ReleasedSize(index: map<Pubkey, IndexEntry>, k: Pubkey)
    requires k in index && 0 < index[k].refs
    ensures |Released(index, k)| == |index| - (if index[k].refs == 1 then 1 else 0)
  {
    assert Released(index, k).Keys == if index[k].refs == 1 then index.Keys - {k} else index.Keys;
  }

  // ---------- the whole cache ----------

  /** The newest version in `m`, if any. */
  predicate IsNewest(m: map<Slot, Account>, r: Option<(Account, Slot)>) {
    match r
    case None => m == map[]
    case Some((account, slot)) => slot in m && m[slot] == account && forall s :: s in m ==> s <= slot
  }

  /** What a search of every cached slot would choose from: the ancestors, else the unflushed roots below them all. */
  ghost function Visible(slots: map<Slot, SlotCache>, unflushed: set<Slot>, ancestors: set<Slot>, k: Pubkey): map<Slot,
                         Account> {
    Choice(Versions(slots, k), unflushed, ancestors)
  }

  class AccountsCache {
    var slots: map<Slot, SlotCache>
    var index: map<Pubkey, IndexEntry>
    var uniqueKeys: nat
    var unflushed: set<Slot>
    var totalSize: nat
    var totalCount: nat
    var detached: map<nat, SlotCache>   // out of the cache, but a reader still holds them
    var nextHandle: nat

    ghost predicate Valid()
      reads this
    {
      && Indexed(slots, index, {})
      && uniqueKeys == |index|
      && AllCounted(slots)
      && Totalled(slots, detached, totalSize, totalCount)
      && (forall h :: h in detached ==> h < nextHandle)
    }

    /** What the cache holds, without its bookkeeping. */
    ghost function Contents(): map<Slot, map<Pubkey, Account>>
      reads this
    {
      AccountsOf(slots)
    }

    constructor ()
      ensures Valid() && Contents() == map[] && unflushed == {}
      ensures totalSize == 0 && totalCount == 0 && uniqueKeys == 0
    {
      slots, index, uniqueKeys, unflushed := map[], map[], 0, {};
      totalSize, totalCount, detached, nextHandle := 0, 0, map[], 0;
    }

    method Store(slot: Slot, k: Pubkey, account: Account)
      requires Valid()
      modifies `slots, `index, `uniqueKeys, `totalSize, `totalCount
      ensures Valid()
      ensures Contents() == old(Contents())[slot := old(CacheAt(slots, slot)).accounts[k := account]]
    {
      hide Indexed, Counted, AllCounted, Totalled, Entered, AccountsOf, Insert, CacheAt;
      var cache := CacheAt(slots, slot);
      SlotIsCounted(slots, slot);
      HeldFits(cache, k);
      var cache' := Insert(cache, k, account);
      InsertCounts(cache, k, account);
      PutCounted(slots, slot, cache');
      StoreTotals(slots, detached, totalSize, totalCount, slot, cache, cache');
      StoreIndexes(slots, index, slot, cache', k);
      AccountsPut(slots, slot, cache');
      totalSize, totalCount := totalSize + cache'.size - cache.size, totalCount + cache'.count - cache.count;
      slots := slots[slot := cache'];
      assert Totalled(slots, detached, totalSize, totalCount);
      assert AllCounted(slots);
      if k !in cache.accounts {
        EnterKey(k, slot);
      }
      assert Indexed(slots, index, {});
    }

    method EnterKey(k: Pubkey, slot: Slot)
      requires uniqueKeys == |index|
      modifies `index, `uniqueKeys
      ensures index == Entered(old(index), k, slot) && uniqueKeys == |index|
    {
      EnteredSize(index, k, slot);
      uniqueKeys := if k in index then uniqueKeys else uniqueKeys + 1;
      index := Entered(index, k, slot);
    }

    /**
     The slot leaves the cache, and with it every key it alone held. Its accounts stay in the
     totals until the last reader lets go of them.
     */
    method RemoveSlot(slot: Slot) returns (removed: Option<seq<Pubkey>>)
      requires Valid()
      modifies `slots, `index, `uniqueKeys, `unflushed, `detached, `nextHandle
      ensures Valid() && Contents() == old(Contents()) - {slot} && unflushed == old(unflushed) - {slot}
      ensures removed.Some? <==> slot in old(slots)
      ensures removed.Some? ==> forall k :: k in removed.value <==>
        k in old(slots)[slot].accounts && Holders(slots, k) == {}
    {
      hide Indexed, AllCounted, Totalled, AccountsOf, Counted, Holders;
      unflushed := unflushed - {slot};
      AccountsTake(slots, slot);
      if slot !in slots {
        removed := None;
        return;
      }
      var cache := slots[slot];
      RemoveHolders(slots, index, slot);
      TakeCounted(slots, slot);
      DetachTotals(slots, detached, totalSize, totalCount, slot, nextHandle);
      slots, detached, nextHandle := slots - {slot}, detached[nextHandle := cache], nextHandle + 1;
      var gone := ReleaseKeys(cache.accounts.Keys);
      removed := Some(gone);
    }

    /** Each key of a removed slot must still be in the index, however its entries were counted up. */
    method ReleaseKeys(keys: set<Pubkey>) returns (removed: seq<Pubkey>)
      requires Indexed(slots, index, keys) && uniqueKeys == |index|
      modifies `index, `uniqueKeys
      ensures Indexed(slots, index, {}) && uniqueKeys == |index|
      ensures forall k :: k in removed <==> k in keys && Holders(slots, k) == {}
    {
      hide Indexed, Holders;
      removed := [];
      var todo := keys;
      while todo != {}
        invariant todo <= keys && Indexed(slots, index, todo) && uniqueKeys == |index|
        invariant forall k :: k in removed <==> k in keys - todo && Holders(slots, k) == {}
        decreases todo
      {
        var k :| k in todo;
        ReleaseKey(slots, index, todo, k);
        ReleasedSize(index, k);
        if index[k].refs == 1 {
          uniqueKeys := uniqueKeys - 1;
          removed := removed + [k];
        }
        index := Released(index, k);
        todo := todo - {k};
      }
    }

    /** The last reader of a removed slot lets go of it. */
    method DropDetached(handle: nat)
      requires Valid() && handle in detached
      modifies `detached, `totalSize, `totalCount
      ensures Valid() && detached == old(detached) - {handle}
    {
      hide Indexed, AllCounted, Totalled;
      DropTotals(slots, detached, totalSize, totalCount, handle);
      totalSize, totalCount := totalSize - detached[handle].size, totalCount - detached[handle].count;
      detached := detached - {handle};
    }

    /**
     Makes a slot a root. Its version of a key comes into view of exactly the banks that find none at
     their ancestors and have no ancestor older than it; nobody else sees a difference.
     */
    method AddRoot(root: Slot)
      requires Valid()
      modifies `unflushed
      ensures Valid() && unflushed == old(unflushed) + {root}
      ensures forall ancestors, k ::
        Visible(slots, unflushed, ancestors, k) ==
        WithRoot(Versions(slots, k), ancestors, root, old(Visible(slots, unflushed, ancestors, k)))
    {
      forall ancestors, k
        ensures Visible(slots, unflushed + {root}, ancestors, k) ==
          WithRoot(Versions(slots, k), ancestors, root, Visible(slots, unflushed, ancestors, k))
      {
        RootAppears(Versions(slots, k), unflushed, ancestors, root);
      }
      hide Choice, WithRoot;
      unflushed := unflushed + {root};
    }

    /** The highest slot from `top` down to `lo` that is an ancestor and holds the key. */
    method SearchAncestors(k: Pubkey, ancestors: set<Slot>, lo: Slot, top: Slot) returns (r: Option<(Account, Slot)>)
      ensures FirstBelow(Versions(slots, k), ancestors, lo, top, r)
    {
      var i := top + 1;
      while lo < i
        invariant forall s :: s in Versions(slots, k) && s in ancestors && i <= s ==> top < s
        decreases i
      {
        i := i - 1;
        if i in ancestors && i in slots && k in slots[i].accounts {
          return Some((slots[i].accounts[k], i));
        }
      }
      return None;
    }

    /** The highest unflushed root at or below `top` that holds the key. */
    method SearchRoots(k: Pubkey, top: Slot) returns (r: Option<(Account, Slot)>)
      ensures FirstBelow(Versions(slots, k), unflushed, 0, top, r)
    {
      var roots := set s | s in unflushed && s <= top;
      while roots != {}
        invariant roots <= unflushed && forall s :: s in roots ==> s <= top
        invariant forall s :: s in Versions(slots, k) && s in unflushed && s <= top ==> s in roots
        decreases roots
      {
        var lo, hi := Bounds(roots);
        if hi in slots && k in slots[hi].accounts {
          return Some((slots[hi].accounts[k], hi));
        }
        roots := roots - {hi};
      }
      return None;
    }

    /** Finds the newest cached version visible from the ancestors, starting at the hint in the index. */
    method LoadLatest(k: Pubkey, ancestors: set<Slot>) returns (r: Option<(Account, Slot)>)
      requires Valid()
      ensures IsNewest(Visible(slots, unflushed, ancestors, k), r)
    {
      ghost var versions := Versions(slots, k);
      assert Tracks(index, k, Holders(slots, k), false);
      assert versions.Keys == Holders(slots, k);
      if k !in index {
        NothingCached(versions, unflushed, ancestors);
        return None;
      }
      var top := index[k].maxSlot;
      if ancestors == {} {
        r := SearchRoots(k, top);
        RootsSearched(versions, unflushed, ancestors, top, r);
      } else {
        var lo, hi := Bounds(ancestors);
        var bound := if hi < top then hi else top;
        r := SearchAncestors(k, ancestors, lo, bound);
        if r.Some? {
          AncestorsSearched(versions, unflushed, ancestors, lo, bound, r);
        } else {
          bound := if lo < top then lo else top;
          r := SearchRoots(k, bound);
          RootsSearched(versions, unflushed, ancestors, bound, r);
        }
      }
    }
  }

  /** The newest version held by a candidate slot in the range. */
  predicate FirstBelow(versions: map<Slot, Account>, candidates: set<Slot>, lo: Slot, top: Slot,
                       r: Option<(Account, Slot)>) {
    match r
    case None => forall s :: s in versions && s in candidates ==> s < lo || top < s
    case Some((account, slot)) =>
      && slot in versions && slot in candidates && versions[slot] == account && lo <= slot <= top
      && forall s :: s in versions && s in candidates && lo <= s <= top ==> s <= slot
  }

  /** What `Visible` chooses from, given the versions. */
  function Choice(versions: map<Slot, Account>, unflushed: set<Slot>, ancestors: set<Slot>): map<Slot, Account> {
    L.AncestorsFirst(versions, ancestors, map s | s in versions && s in unflushed :: versions[s])
  }

  /** What a bank chooses from once `root` is a root. */
  function WithRoot(versions: map<Slot, Account>, ancestors: set<Slot>, root: Slot, was: map<Slot, Account>): map<Slot,
                    Account> {
    if root in versions && (forall s :: s in versions ==> s !in ancestors) && (forall a :: a in ancestors ==> root <= a)
    then was[root := versions[root]] else was
  }

  lemma RootAppears(versions: map<Slot, Account>, unflushed: set<Slot>, ancestors: set<Slot>, root: Slot)
    ensures Choice(versions, unflushed + {root}, ancestors) ==
      WithRoot(versions, ancestors, root, Choice(versions, unflushed, ancestors))
  {
    var roots := map s | s in versions && s in unflushed :: versions[s];
    var roots' := map s | s in versions && s in unflushed + {root} :: versions[s];
    if a :| a in versions && a in ancestors {
      MineFirst(versions, ancestors, roots, a);
      MineFirst(versions, ancestors, roots', a);
    } else {
      RootsFirst(versions, ancestors, roots);
      RootsFirst(versions, ancestors, roots');
    }
  }

  lemma NothingCached(versions: map<Slot, Account>, unflushed: set<Slot>, ancestors: set<Slot>)
    requires versions.Keys == {}
    ensures Choice(versions, unflushed, ancestors) == map[]
  {
  }

  lemma MineFirst(m: map<Slot, Account>, ancestors: set<Slot>, roots: map<Slot, Account>, s: Slot)
    requires s in m && s in ancestors
    ensures L.AncestorsFirst(m, ancestors, roots) == map t | t in m && t in ancestors :: m[t]
  {
    var mine := map t | t in m && t in ancestors :: m[t];
    assert s in mine;
    assert mine != map[];
  }

  lemma RootsFirst(m: map<Slot, Account>, ancestors: set<Slot>, roots: map<Slot, Account>)
    requires forall s :: s in m ==> s !in ancestors
    ensures L.AncestorsFirst(m, ancestors, roots) == map s | s in roots && (forall a :: a in ancestors ==> s <= a) ::
      roots[s]
  {
    assert (map s | s in m && s in ancestors :: m[s]) == map[];
  }

  lemma AncestorsSearched(versions: map<Slot, Account>, unflushed: set<Slot>, ancestors: set<Slot>, lo: Slot, top: Slot,
                          r: Option<(Account, Slot)>)
    requires FirstBelow(versions, ancestors, lo, top, r) && r.Some?
    requires forall s :: s in versions && s in ancestors ==> lo <= s <= top
    ensures IsNewest(Choice(versions, unflushed, ancestors), r)
  {
    MineFirst(versions, ancestors, map s | s in versions && s in unflushed :: versions[s], r.value.1);
  }

  lemma RootsSearched(versions: map<Slot, Account>, unflushed: set<Slot>, ancestors: set<Slot>, top: Slot,
                      r: Option<(Account, Slot)>)
    requires FirstBelow(versions, unflushed, 0, top, r)
    requires forall s :: s in versions ==> s !in ancestors
    requires forall s :: s in versions ==> (s <= top <==> forall a :: a in ancestors ==> s <= a)
    ensures IsNewest(Choice(versions, unflushed, ancestors), r)
  {
    assert (map s | s in versions && s in ancestors :: versions[s]) == map[];
    var roots := Choice(versions, unflushed, ancestors);
    var unflushedVersions := map s | s in versions && s in unflushed :: versions[s];
    assert forall s :: s in roots <==> s in unflushedVersions && s <= top;
    if r.None? {
      assert roots.Keys == {};
    } else {
      assert r.value.1 in unflushedVersions;
    }
  }

  /** A load answers from the cache when the search there finds something, and from the index otherwise. */
  lemma LoadLatestLeadsLookUp(l: L.Ledger, slots: map<Slot, SlotCache>, ancestors: set<Slot>, k: Pubkey,
                              r: Option<(Account, Slot)>)
    requires l.cache == AccountsOf(slots)
    requires IsNewest(Visible(slots, l.unflushed, ancestors, k), r)
    ensures L.LookUp(l, ancestors, k) ==
      if r.Some? then L.Alive(r.value.0) else L.Newest(L.AncestorsFirst(L.Stored(l, k), ancestors, L.Stored(l, k)))
  {
    assert L.Cached(l, k) == Versions(slots, k);
  }
}
