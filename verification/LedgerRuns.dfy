/** What holds over whole runs of the store. */
module LedgerRuns {
  import opened Types
  import opened Ledger
  import opened LedgerProofs

  /** A run: states joined by steps. */
  ghost predicate IsRun(states: seq<Ledger>, steps: seq<Step>) {
    |states| == |steps| + 1 && forall i :: 0 <= i < |steps| ==> Next(states[i], steps[i], states[i + 1])
  }

  lemma {:induction false} RunKeepsInv(states: seq<Ledger>, steps: seq<Step>, n: nat)
    requires IsRun(states, steps) && Inv(states[0]) && n < |states|
    ensures Inv(states[n])
  {
    if n > 0 {
      RunKeepsInv(states, steps, n - 1);
      StepKeepsInv(states[n - 1], steps[n - 1], states[n]);
    }
  }

  /** Some run leads from one state to the other. */
  ghost predicate Reaches(l: Ledger, l': Ledger) {
    exists states, steps :: IsRun(states, steps) && states[0] == l && states[|steps|] == l'
  }

  lemma ReachesItself(l: Ledger)
    ensures Reaches(l, l)
  {
    assert IsRun([l], []);
  }

  lemma ReachesStep(l: Ledger, mid: Ledger, step: Step, l': Ledger)
    requires Reaches(l, mid) && Next(mid, step, l')
    ensures Reaches(l, l')
  {
    hide Next;
    var states, steps :| IsRun(states, steps) && states[0] == l && states[|steps|] == mid;
    assert IsRun(states + [l'], steps + [step]);
  }

  // ---------- a bank whose view is held ----------

  /** A bank on a chain through `root` that sees every root up to it. */
  ghost predicate SeesRoots(l: Ledger, ancestors: set<Slot>, root: Slot) {
    root <= l.maxRoot && root in ancestors && Covers(l, ancestors, root) && RootsComeFirst(l, ancestors)
  }

  /**
   The step leaves the bank's chain alone: nobody writes to or drops its ancestors, and one of them
   becomes a root only after the older ones.
   */
  predicate Respects(l: Ledger, step: Step, ancestors: set<Slot>) {
    match step
    case Store(slot, _, _) => slot !in ancestors
    case DropUnrooted(slot) => slot in l.cache ==> slot !in ancestors
    case AddRoot(slot) => slot in ancestors ==> forall a ::
      a in ancestors && a < slot && a in l.cache ==> a in l.unflushed
    case _ => true
  }

  ghost predicate StoredUpTo(l: Ledger, root: Slot) {
    forall k, s :: s in Stored(l, k) ==> s <= root
  }

  /** The step cleans nothing above `root`: its bound stays below, or it is a clean and nothing newer is stored. */
  ghost predicate CleansUpTo(l: Ledger, step: Step, root: Slot) {
    CleanBound(step) <= root || (step.Clean? && StoredUpTo(l, root))
  }

  lemma SeenUnchanged(stored: map<Slot, Account>, cached: map<Slot, Account>, unflushed: set<Slot>,
                      cached': map<Slot, Account>, unflushed': set<Slot>, ancestors: set<Slot>)
    requires forall s ::
      (s in cached && SeesCached(unflushed, ancestors, s)) <==> (s in cached' && SeesCached(unflushed', ancestors, s))
    requires forall s :: s in cached && s in cached' && SeesCached(unflushed, ancestors, s) ==> cached[s] == cached'[s]
    ensures Seen(stored, cached, unflushed, ancestors) == Seen(stored, cached', unflushed', ancestors)
  {
  }

  /** Writes and new roots elsewhere are not on the bank's chain, so it does not see them. */
  lemma WriterUnseen(l: Ledger, step: Step, l': Ledger, ancestors: set<Slot>, root: Slot, k: Pubkey)
    requires Inv(l) && Next(l, step, l') && !IsCollection(step) && SeesRoots(l, ancestors, root)
    requires Respects(l, step, ancestors)
    ensures Load(l', ancestors, k) == Load(l, ancestors, k)
  {
    assert Stored(l', k) == Stored(l, k);
    SeenUnchanged(Stored(l, k), Cached(l, k), l.unflushed, Cached(l', k), l'.unflushed, ancestors);
  }

  lemma WriterKeepsChain(l: Ledger, step: Step, l': Ledger, ancestors: set<Slot>, root: Slot)
    requires Next(l, step, l') && !IsCollection(step) && SeesRoots(l, ancestors, root) && Respects(l, step, ancestors)
    ensures SeesRoots(l', ancestors, root)
  {
    assert forall r :: IsRoot(l', r) ==> IsRoot(l, r) || (step.AddRoot? && r == step.slot);
  }

  lemma CollectionUnseen(l: Ledger, step: Step, l': Ledger, ancestors: set<Slot>, root: Slot, k: Pubkey)
    requires Inv(l) && Next(l, step, l') && IsCollection(step) && SeesRoots(l, ancestors, root)
    requires CleansUpTo(l, step, root)
    ensures Load(l', ancestors, k) == Load(l, ancestors, k)
  {
    if CleanBound(step) <= root {
      CollectionKeepsLoad(l, step, l', ancestors, k);
    } else {
      CacheIsNewerHolds(l, ancestors, k);
      CoversStored(l, ancestors, root, k);
      CleanKeepsLoad(l, step.keys, step.root, l', ancestors, k);
    }
  }

  lemma HeldStep(l: Ledger, step: Step, l': Ledger, ancestors: set<Slot>, root: Slot, k: Pubkey)
    requires Inv(l) && Next(l, step, l') && SeesRoots(l, ancestors, root)
    requires Respects(l, step, ancestors) && CleansUpTo(l, step, root)
    ensures Load(l', ancestors, k) == Load(l, ancestors, k) && SeesRoots(l', ancestors, root)
  {
    hide Inv, Next, Load, CleansUpTo, Respects, RootsComeFirst, Covers;
    if IsCollection(step) {
      CollectionUnseen(l, step, l', ancestors, root, k);
      CollectionKeepsFork(l, step, l', ancestors, root);
      MaxRootGrows(l, step, l');
    } else {
      WriterUnseen(l, step, l', ancestors, root, k);
      WriterKeepsChain(l, step, l', ancestors, root);
    }
  }

  lemma MaxRootGrows(l: Ledger, step: Step, l': Ledger)
    requires Next(l, step, l')
    ensures l.maxRoot <= l'.maxRoot
  {
  }

  /** What such a bank loads never changes while cleaning stays at or below its root, whatever else happens. */
  lemma {:induction false} HeldBankIsStable(states: seq<Ledger>, steps: seq<Step>, first: nat, last: nat,
                                            ancestors: set<Slot>, root: Slot, k: Pubkey)
    requires IsRun(states, steps) && Inv(states[0]) && first <= last < |states|
    requires SeesRoots(states[first], ancestors, root)
    requires forall i ::
      first <= i < last ==> Respects(states[i], steps[i], ancestors) && CleansUpTo(states[i], steps[i], root)
    ensures Load(states[last], ancestors, k) == Load(states[first], ancestors, k)
    ensures SeesRoots(states[last], ancestors, root)
    decreases last
  {
    hide Inv, Next, Load, CleansUpTo, Respects, SeesRoots;
    if first < last {
      HeldBankIsStable(states, steps, first, last - 1, ancestors, root, k);
      RunKeepsInv(states, steps, last - 1);
      HeldStep(states[last - 1], steps[last - 1], states[last], ancestors, root, k);
    }
  }

  // ---------- a pinned root ----------

  lemma PinnedSees(l: Ledger, root: Slot)
    requires Inv(l) && HoldsRoot(l, root)
    ensures SeesRoots(l, {root}, root)
  {
  }

  lemma PinnedStep(l: Ledger, step: Step, l': Ledger, root: Slot, k: Pubkey)
    requires Inv(l) && Next(l, step, l') && HoldsRoot(l, root) && CleanBound(step) <= root
    ensures Load(l', {root}, k) == Load(l, {root}, k) && HoldsRoot(l', root)
  {
    PinnedSees(l, root);
    HeldStep(l, step, l', {root}, root, k);
  }

  /** Nothing a root's readers see changes while collection stays at or below the root. */
  lemma {:induction false} PinnedRootIsStable(states: seq<Ledger>, steps: seq<Step>, first: nat, last: nat, root: Slot,
                                              k: Pubkey)
    requires IsRun(states, steps) && Inv(states[0]) && first <= last < |states| && HoldsRoot(states[first], root)
    requires forall i :: first <= i < last ==> CleanBound(steps[i]) <= root
    ensures Load(states[last], {root}, k) == Load(states[first], {root}, k) && HoldsRoot(states[last], root)
    decreases last
  {
    hide Inv, Next, Load;
    if first < last {
      PinnedRootIsStable(states, steps, first, last - 1, root, k);
      RunKeepsInv(states, steps, last - 1);
      PinnedStep(states[last - 1], steps[last - 1], states[last], root, k);
    }
  }

  // ---------- restart ----------

  lemma StepRaisesCleaned(l: Ledger, step: Step, l': Ledger)
    requires Next(l, step, l')
    ensures l.cleaned <= l'.cleaned && CleanBound(step) <= l'.cleaned
  {
  }

  /** No step of a run cleans past what the state remembers. */
  lemma {:induction false} RunRaisesCleaned(states: seq<Ledger>, steps: seq<Step>, i: nat, n: nat)
    requires IsRun(states, steps) && i < n < |states|
    ensures CleanBound(steps[i]) <= states[n].cleaned
    decreases n
  {
    hide Next;
    StepRaisesCleaned(states[n - 1], steps[n - 1], states[n]);
    if i < n - 1 {
      RunRaisesCleaned(states, steps, i, n - 1);
    }
  }

  /**
   Restart safety. In every state of every run, an incremental snapshot at a fully flushed root `slot`,
   with nothing cleaned above it, laid over the latest full snapshot, rebuilds for every key what a bank
   at that root loaded at any time since the root was made.
   */
  lemma RestartIsSafe(states: seq<Ledger>, steps: seq<Step>, m: nat, n: nat, slot: Slot, k: Pubkey)
    requires IsRun(states, steps) && states[0] == Init() && m <= n < |states| && HoldsRoot(states[m], slot)
    requires Base(states[n]) <= slot && states[n].cleaned <= slot && forall r :: r in states[n].unflushed ==> slot < r
    ensures Restart(states[n], slot, k) == Load(states[m], {slot}, k)
  {
    hide Inv, Next, Load, Restart;
    RunKeepsInv(states, steps, n);
    forall i | m <= i < n ensures CleanBound(steps[i]) <= slot {
      RunRaisesCleaned(states, steps, i, n);
    }
    PinnedRootIsStable(states, steps, m, n, slot, k);
    RestartRebuildsLoads(states[n], slot, k);
  }

  lemma RestartRebuildsLoads(l: Ledger, slot: Slot, k: Pubkey)
    requires Inv(l) && Base(l) <= slot && l.cleaned <= slot && HoldsRoot(l, slot)
    requires forall r :: r in l.unflushed ==> slot < r
    ensures Restart(l, slot, k) == Load(l, {slot}, k)
  {
    hide Inv, Restart;
    RestartRebuildsStored(l, slot, k);
    assert slot !in Cached(l, k);
    SeenAtRoot(Stored(l, k), Cached(l, k), l.unflushed, slot);
  }

  /** A reader at a fully flushed root sees the stored versions up to it and nothing else. */
  lemma SeenAtRoot(stored: map<Slot, Account>, cached: map<Slot, Account>, unflushed: set<Slot>, root: Slot)
    requires root !in cached && forall r :: r in unflushed ==> root < r
    ensures Seen(stored, cached, unflushed, {root}) == UpTo(stored, root)
  {
  }
}
