/**
 The account store with files, offsets and counters forgotten: which versions of each account the
 write cache, the index and the snapshot archive hold, and how every operation changes that.

 What a reader sees and what a restart rebuilds are defined here, and shown to be unchanged by
 flush, clean, shrink and sweep over whole runs.
 */
module Ledger {
  import opened Types

  datatype Ledger = Ledger(
    cache: map<Slot, map<Pubkey, Account>>,     // the write cache, one map per slot
    unflushed: set<Slot>,                       // roots whose accounts are still in the cache
    maxRoot: Slot,
    stored: map<Pubkey, map<Slot, Account>>,    // versions the index points at
    graves: map<Slot, set<Pubkey>>,             // keys whose tombstone a slot's storage holds
    full: Option<Slot>,                         // the latest full snapshot
    archive: map<Pubkey, Account>,              // what that snapshot holds
    cleaned: Slot)                              // older versions may be gone up to this slot

  // ---------- what the state means ----------

  function Stored(l: Ledger, k: Pubkey): map<Slot, Account> {
    if k in l.stored then l.stored[k] else map[]
  }

  function Graves(l: Ledger, k: Pubkey): set<Slot> {
    set s | s in l.graves && k in l.graves[s]
  }

  function Cached(l: Ledger, k: Pubkey): map<Slot, Account> {
    map s | s in l.cache && k in l.cache[s] :: l.cache[s][k]
  }

  /** Every record of `k` a storage still holds and has not marked obsolete. */
  function Disk(l: Ledger, k: Pubkey): map<Slot, Account> {
    map s | s in Stored(l, k).Keys + Graves(l, k) :: if s in Stored(l, k) then Stored(l, k)[s] else Account(0, [])
  }

  /** The latest full snapshot slot, or -1 when there is none. */
  function Base(l: Ledger): int {
    if l.full.Some? then l.full.value else -1
  }

  /** A zero-lamport account answers a load like an absent one. */
  function Alive(a: Account): Option<Account> {
    if a.IsZeroLamport() then None else Some(a)
  }

  function UpTo(m: map<Slot, Account>, bound: int): map<Slot, Account> {
    map s | s in m && s <= bound :: m[s]
  }

  function Above(m: map<Slot, Account>, bound: int): map<Slot, Account> {
    map s | s in m && bound < s :: m[s]
  }

  /** The answer given by the newest of several versions. */
  ghost function Newest(m: map<Slot, Account>): Option<Account> {
    if m == map[] then None else Alive(m[Max(m.Keys)])
  }

  /** A root is visible to a bank when it is an ancestor or is no newer than any ancestor. */
  predicate Sees(ancestors: set<Slot>, slot: Slot) {
    slot in ancestors || forall a :: a in ancestors ==> slot <= a
  }

  predicate IsSeen(s: Slot, stored: map<Slot, Account>, cached: map<Slot, Account>, unflushed: set<Slot>,
                   ancestors: set<Slot>) {
    || (s in stored && Sees(ancestors, s))
    || (s in cached && (s in ancestors || (s in unflushed && Sees(ancestors, s))))
  }

  function Version(s: Slot, stored: map<Slot, Account>, cached: map<Slot, Account>): Account
    requires s in stored || s in cached
  {
    if s in stored then stored[s] else cached[s]
  }

  /** The versions of a key a bank can see: stored ones, and cached ones on its fork or at its roots. */
  function Seen(stored: map<Slot, Account>, cached: map<Slot, Account>, unflushed: set<Slot>,
                ancestors: set<Slot>): map<Slot, Account> {
    map s | s in stored.Keys + cached.Keys && IsSeen(s, stored, cached, unflushed, ancestors) ::
      Version(s, stored, cached)
  }

  /** What a load must answer: the newest visible version, wherever it is kept. */
  ghost function Load(l: Ledger, ancestors: set<Slot>, k: Pubkey): Option<Account> {
    Newest(Seen(Stored(l, k), Cached(l, k), l.unflushed, ancestors))
  }

  /** The part of `m` at ancestors, or failing that the part at roots no newer than every ancestor. */
  function AncestorsFirst(m: map<Slot, Account>, ancestors: set<Slot>, roots: map<Slot, Account>): map<Slot, Account> {
    var mine := map s | s in m && s in ancestors :: m[s];
    if mine != map[] then mine else map s | s in roots && (forall a :: a in ancestors ==> s <= a) :: roots[s]
  }

  /**
   How a load is carried out: the write cache first, then the index, and in each the ancestors
   before the roots. The search stops at the first version it meets, even a zero-lamport one.
   */
  ghost function LookUp(l: Ledger, ancestors: set<Slot>, k: Pubkey): Option<Account> {
    Search(Stored(l, k), Cached(l, k), l.unflushed, ancestors)
  }

  ghost function Search(stored: map<Slot, Account>, cached: map<Slot, Account>, unflushed: set<Slot>,
                        ancestors: set<Slot>): Option<Account> {
    var inCache := AncestorsFirst(cached, ancestors, map s | s in cached && s in unflushed :: cached[s]);
    if inCache != map[] then Newest(inCache) else Newest(AncestorsFirst(stored, ancestors, stored))
  }

  /**
   Along a bank's own chain of ancestors the roots come first: a cached ancestor that is not a root is
   newer than every ancestor that is. It holds on every fork, abandoned ones included.
   */
  ghost predicate RootsComeFirst(l: Ledger, ancestors: set<Slot>) {
    forall r, a :: r in ancestors && IsRoot(l, r) && a in ancestors && a in l.cache && a !in l.unflushed ==> r < a
  }

  /** `root` is no newer than the newest root, and if it is cached it is cached as a root. */
  predicate HoldsRoot(l: Ledger, root: Slot) {
    root <= l.maxRoot && (root in l.cache ==> root in l.unflushed)
  }

  /** Every root at or below `bound` is visible to the bank. */
  ghost predicate Covers(l: Ledger, ancestors: set<Slot>, bound: Slot) {
    forall r: Slot :: r <= bound && IsRoot(l, r) ==> Sees(ancestors, r)
  }

  /** What a restart rebuilds from an incremental snapshot taken at `slot` laid over the full one. */
  ghost function Restart(l: Ledger, slot: Slot, k: Pubkey): Option<Account> {
    var incremental := Above(UpTo(Disk(l, k), slot), Base(l));
    if incremental == map[] then ArchiveAnswer(l, k) else Newest(incremental)
  }

  function ArchiveAnswer(l: Ledger, k: Pubkey): Option<Account> {
    if k in l.archive then Alive(l.archive[k]) else None
  }

  predicate IsRoot(l: Ledger, slot: Slot) {
    slot in l.unflushed || exists k :: k in l.stored && slot in l.stored[k]
  }

  // ---------- invariant ----------

  predicate SlotsOrdered(l: Ledger, k: Pubkey) {
    && (forall s :: s in Stored(l, k) ==> s <= l.maxRoot && s !in l.cache && forall r :: r in l.unflushed ==> s < r)
    && (forall g :: g in Graves(l, k) ==> g <= l.maxRoot && forall r :: r in l.unflushed ==> g < r)
    && (forall g, s :: g in Graves(l, k) && s in Stored(l, k) ==> g < s)
  }

  /** A storage between two slots holds a record of the key. */
  predicate HasRecord(stored: map<Slot, Account>, graves: set<Slot>, above: int, upTo: int) {
    (exists s :: s in stored && above < s <= upTo) || (exists g :: g in graves && above < g <= upTo)
  }

  /**
   The archive still answers for a key that has no record between the full snapshot and the point
   up to which older versions may have been reclaimed.
   */
  ghost predicate Agrees(answer: Option<Account>, stored: map<Slot, Account>, graves: set<Slot>, base: int,
                         cleaned: Slot) {
    !HasRecord(stored, graves, base, cleaned) ==> answer == Newest(UpTo(stored, base))
  }

  ghost predicate ArchiveAgrees(l: Ledger, k: Pubkey) {
    Agrees(ArchiveAnswer(l, k), Stored(l, k), Graves(l, k), Base(l), l.cleaned)
  }

  ghost predicate Inv(l: Ledger) {
    && (forall r :: r in l.unflushed ==> Base(l) < r <= l.maxRoot)
    && Base(l) <= l.maxRoot
    && (l.full.None? ==> l.archive == map[])
    && (forall k :: k in l.stored ==> l.stored[k] != map[])
    && (forall k :: SlotsOrdered(l, k))
    && (forall k :: ArchiveAgrees(l, k))
  }

  function Init(): (l: Ledger)
    ensures Inv(l)
  {
    Ledger(map[], {}, 0, map[], map[], None, map[], 0)
  }

  // ---------- steps ----------

  datatype Step =
    | Store(slot: Slot, key: Pubkey, account: Account)
    | DropUnrooted(slot: Slot)
    | AddRoot(slot: Slot)
    | Flush(slot: Slot, clean: Option<Slot>, kept: set<Pubkey>)   // clean: the bound up to which older versions go
    | FlushNothing(slot: Slot)
    | Clean(keys: set<Pubkey>, root: Slot)
    | Shrink(slot: Slot)
    | Sweep(slots: set<Slot>)
    | FullSnapshot(slot: Slot)

  /** The highest root whose older versions a step may reclaim; 0 reclaims nothing. */
  function CleanBound(step: Step): Slot {
    match step
    case Flush(_, Some(bound), _) => bound
    case Clean(_, root) => root
    case _ => 0
  }

  predicate IsCollection(step: Step) {
    step.Flush? || step.FlushNothing? || step.Clean? || step.Shrink? || step.Sweep? || step.FullSnapshot?
  }

  /** Tombstones are added where `added` says and vanish only at slots the full snapshot covers. */
  predicate GravesGain(l: Ledger, l': Ledger, k: Pubkey, added: set<Slot>) {
    && (forall g :: g in Graves(l', k) ==> g in Graves(l, k) || g in added)
    && (forall g :: g in Graves(l, k) ==> g in Graves(l', k) || CanPurge(l.full, g))
    && (forall g :: g in added ==> g in Graves(l', k) || CanPurge(l.full, g))
  }

  predicate SkippedAtFlush(l: Ledger, slot: Slot, k: Pubkey)
    requires slot in l.cache && k in l.cache[slot]
  {
    l.cache[slot][k].IsZeroLamport() && k !in l.stored
  }

  predicate Superseded(l: Ledger, slot: Slot, k: Pubkey, bound: Slot) {
    exists r :: r in l.unflushed && slot < r <= bound && r in l.cache && k in l.cache[r]
  }

  predicate KeptIsRight(l: Ledger, slot: Slot, clean: Option<Slot>, kept: set<Pubkey>)
    requires slot in l.cache
  {
    && kept <= l.cache[slot].Keys
    && (clean.Some? ==> slot <= clean.value)
    && (forall k :: k in kept ==> !SkippedAtFlush(l, slot, k))
    && (forall k :: k in l.cache[slot] && k !in kept ==>
          SkippedAtFlush(l, slot, k) || (clean.Some? && Superseded(l, slot, k, clean.value)))
  }

  function StoredAfterFlush(l: Ledger, slot: Slot, clean: bool, kept: set<Pubkey>, k: Pubkey): map<Slot, Account>
    requires slot in l.cache && kept <= l.cache[slot].Keys
  {
    if k !in kept then Stored(l, k)
    else if !clean then Stored(l, k)[slot := l.cache[slot][k]]
    else if l.cache[slot][k].IsZeroLamport() then map[]
    else map[slot := l.cache[slot][k]]
  }

  function GravesFromFlush(l: Ledger, slot: Slot, clean: bool, kept: set<Pubkey>, k: Pubkey): set<Slot>
    requires slot in l.cache && kept <= l.cache[slot].Keys
  {
    if clean && k in kept && l.cache[slot][k].IsZeroLamport() then {slot} else {}
  }

  /** The entries left once everything older than the newest entry at or below `root` is reclaimed. */
  function Survivors<T>(m: map<Slot, T>, root: Slot): map<Slot, T> {
    map s | s in m && (forall t :: t in m && t <= root ==> t <= s) :: m[s]
  }

  predicate LoneZero(m: map<Slot, Account>) {
    exists s :: s in m && m.Keys == {s} && m[s].IsZeroLamport()
  }

  function StoredAfterClean(m: map<Slot, Account>, root: Slot): map<Slot, Account> {
    if LoneZero(Survivors(m, root)) then map[] else Survivors(m, root)
  }

  function GravesFromClean(m: map<Slot, Account>, root: Slot): set<Slot> {
    if LoneZero(Survivors(m, root)) then Survivors(m, root).Keys else {}
  }

  predicate LoneZeroAt(m: map<Slot, Account>, slot: Slot) {
    m.Keys == {slot} && m[slot].IsZeroLamport()
  }

  predicate Untouched(l: Ledger, l': Ledger) {
    l'.cache == l.cache && l'.unflushed == l.unflushed && l'.maxRoot == l.maxRoot &&
    l'.full == l.full && l'.archive == l.archive
  }

  predicate SameDisk(l: Ledger, l': Ledger) {
    l'.stored == l.stored && l'.graves == l.graves && l'.full == l.full && l'.archive == l.archive &&
      l'.cleaned == l.cleaned
  }

  /** Cleaning up to a bound may reclaim versions anywhere up to it. */
  function Raised(cleaned: Slot, clean: Option<Slot>): Slot {
    if clean.Some? && cleaned < clean.value then clean.value else cleaned
  }

  ghost predicate FlushStep(l: Ledger, slot: Slot, clean: Option<Slot>, kept: set<Pubkey>, l': Ledger) {
    && slot in l.unflushed && slot in l.cache && (forall r :: r in l.unflushed ==> slot <= r)
    && KeptIsRight(l, slot, clean, kept)
    && l' == l.(cache := l.cache - {slot}, unflushed := l.unflushed - {slot}, stored := l'.stored, graves := l'.graves,
                cleaned := Raised(l.cleaned, clean))
    && (forall k :: Stored(l', k) == StoredAfterFlush(l, slot, clean.Some?, kept, k))
    && (forall k :: GravesGain(l, l', k, GravesFromFlush(l, slot, clean.Some?, kept, k)))
  }

  ghost predicate CleanStep(l: Ledger, keys: set<Pubkey>, root: Slot, l': Ledger) {
    && Untouched(l, l') && l'.cleaned == Raised(l.cleaned, Some(root))
    && (forall k :: Stored(l', k) == if k in keys then StoredAfterClean(Stored(l, k), root) else Stored(l, k))
    && (forall k :: GravesGain(l, l', k, if k in keys then GravesFromClean(Stored(l, k), root) else {}))
  }

  ghost predicate ShrinkStep(l: Ledger, slot: Slot, l': Ledger) {
    && Untouched(l, l') && l'.cleaned == l.cleaned
    && (forall k :: Stored(l', k) == if LoneZeroAt(Stored(l, k), slot) then map[] else Stored(l, k))
    && (forall k :: Graves(l', k) ==
          if CanPurge(l.full, slot) then Graves(l, k) - {slot}
          else if LoneZeroAt(Stored(l, k), slot) then Graves(l, k) + {slot} else Graves(l, k))
  }

  ghost predicate SweepStep(l: Ledger, slots: set<Slot>, l': Ledger) {
    && Untouched(l, l') && l'.cleaned == l.cleaned && l'.stored == l.stored
    && (forall s :: s in slots ==> CanPurge(l.full, s))
    && (forall k :: Graves(l', k) == Graves(l, k) - slots)
  }

  ghost predicate SnapshotStep(l: Ledger, slot: Slot, l': Ledger) {
    && Base(l) <= slot && l.cleaned <= slot <= l.maxRoot && (forall r :: r in l.unflushed ==> slot < r)
    && l' == l.(full := Some(slot), archive := l'.archive)
    && (forall k :: ArchiveAnswer(l', k) == Newest(UpTo(Disk(l, k), slot)))
  }

  ghost predicate Next(l: Ledger, step: Step, l': Ledger) {
    && (forall k :: k in l'.stored ==> l'.stored[k] != map[])
    && match step
    case Store(slot, key, account) =>
      && l.maxRoot < slot && SameDisk(l, l') && l'.unflushed == l.unflushed && l'.maxRoot == l.maxRoot
      && l'.cache == l.cache[slot := (if slot in l.cache then l.cache[slot] else map[])[key := account]]
    case DropUnrooted(slot) =>
      && slot !in l.unflushed && SameDisk(l, l') && l'.unflushed == l.unflushed && l'.maxRoot == l.maxRoot
      && l'.cache == l.cache - {slot}
    case AddRoot(slot) =>
      && l.maxRoot < slot && SameDisk(l, l') && l'.cache == l.cache
      && l'.unflushed == l.unflushed + {slot} && l'.maxRoot == slot
    case FlushNothing(slot) =>
      && slot in l.unflushed && slot !in l.cache && SameDisk(l, l') && l'.cache == l.cache
      && l'.unflushed == l.unflushed - {slot} && l'.maxRoot == l.maxRoot
    case Flush(slot, clean, kept) => FlushStep(l, slot, clean, kept, l')
    case Clean(keys, root) => CleanStep(l, keys, root, l')
    case Shrink(slot) => ShrinkStep(l, slot, l')
    case Sweep(slots) => SweepStep(l, slots, l')
    case FullSnapshot(slot) => SnapshotStep(l, slot, l')
  }
}
