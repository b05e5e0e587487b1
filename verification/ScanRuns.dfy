/**
 Scans, background cleaning and writers interleaved. A flush or clean reads its bound once, when it
 starts; scans begin and end, and roots are added, at any time after that.
 */
module ScanRuns {
  import opened Types
  import opened Ledger
  import opened LedgerProofs
  import opened LedgerRuns
  import opened ScanAccounts
  import opened ScanTracker
  import W = WriteCache

  /** What the background service is doing, with the bound it read when it started. */
  datatype Job = Flushing(bound: Option<Slot>) | Cleaning(bound: Option<Slot>)

  /** A scan under way: the root it pins and the ancestors it reads with. */
  datatype Scan = Scan(root: Slot, ancestors: set<Slot>)

  datatype State = State(ledger: Ledger, scans: map<nat, Scan>, job: Option<Job>)

  datatype Event =
    | Begin(id: nat, bank: set<Slot>)
    | End(id: nat)
    | StartFlush(proposed: Option<Slot>)
    | StartClean(proposed: Option<Slot>)
    | Finish
    | Work(step: Step)

  /** A scan uses its bank's ancestors if the pinned root is one of them, and that root alone otherwise. */
  function ScanAt(root: Slot, bank: set<Slot>): Scan {
    Scan(root, if root in bank then bank else {root})
  }

  ghost function Roots(scans: map<nat, Scan>): set<Slot> {
    set id | id in scans :: scans[id].root
  }

  /** `bound` is what reading the bound gives now. */
  ghost predicate ReadsBound(st: State, proposed: Option<Slot>, bound: Option<Slot>) {
    exists low :: Lowest(Roots(st.scans), low) && bound == CleanRoot(low, proposed)
  }

  /** Flush steps belong to a flush and clean steps to a clean, up to the bound it read, if it read one. */
  predicate Allowed(job: Option<Job>, step: Step) {
    match step
    case Flush(_, clean, _) =>
      job.Some? && job.value.Flushing? && (clean.Some? && job.value.bound.Some? ==> clean == job.value.bound)
    case FlushNothing(_) => job.Some? && job.value.Flushing?
    case Clean(_, root) => job.Some? && job.value.Cleaning? && (job.value.bound.Some? ==> Some(root) == job.value.bound)
    case _ => true
  }

  ghost predicate Happens(st: State, event: Event, st': State) {
    match event
    case Begin(id, bank) =>
      && id !in st.scans && (st.ledger.maxRoot in bank ==> SeesRoots(st.ledger, bank, st.ledger.maxRoot))
      && st' == st.(scans := st.scans[id := ScanAt(st.ledger.maxRoot, bank)])
    case End(id) => st' == st.(scans := st.scans - {id})
    case StartFlush(proposed) =>
      && st.job.None? && st'.job.Some? && st'.job.value.Flushing? && ReadsBound(st, proposed, st'.job.value.bound)
      && st' == st.(job := st'.job)
    case StartClean(proposed) =>
      && st.job.None? && st'.job.Some? && st'.job.value.Cleaning? && ReadsBound(st, proposed, st'.job.value.bound)
      && st' == st.(job := st'.job)
    case Finish => st' == st.(job := None)
    case Work(step) =>
      && Next(st.ledger, step, st'.ledger) && Allowed(st.job, step) && st' == st.(ledger := st'.ledger)
      && forall id :: id in st.scans ==> Respects(st.ledger, step, st.scans[id].ancestors)
  }

  /** A flush reads a bound that holds for later scans too: a scan is under way, or the proposed root is a root. */
  predicate Careful(st: State, event: Event) {
    event.StartFlush? ==> st.scans != map[] || AtMost(event.proposed, st.ledger.maxRoot)
  }

  // ---------- invariant ----------

  /** The job in progress reclaims nothing a reader at `root` needs. */
  ghost predicate Spares(l: Ledger, job: Option<Job>, root: Slot) {
    match job
    case None => true
    case Some(Flushing(bound)) => AtMost(bound, root)
    case Some(Cleaning(bound)) => AtMost(bound, root) || StoredUpTo(l, root)
  }

  ghost predicate ScanIsSafe(st: State, id: nat)
    requires id in st.scans
  {
    SeesRoots(st.ledger, st.scans[id].ancestors, st.scans[id].root) && Spares(st.ledger, st.job, st.scans[id].root)
  }

  ghost predicate Safe(st: State) {
    && Inv(st.ledger) && HoldsRoot(st.ledger, st.ledger.maxRoot)
    && Spares(st.ledger, st.job, st.ledger.maxRoot)
    && forall id :: id in st.scans ==> ScanIsSafe(st, id)
  }

  lemma StepKeepsNewestRoot(l: Ledger, step: Step, l': Ledger)
    requires Next(l, step, l') && HoldsRoot(l, l.maxRoot)
    ensures HoldsRoot(l', l'.maxRoot)
  {
  }

  /** Only a flush stores anything. */
  lemma StepKeepsStored(l: Ledger, step: Step, l': Ledger, root: Slot)
    requires Next(l, step, l') && !step.Flush? && StoredUpTo(l, root)
    ensures StoredUpTo(l', root)
  {
    forall k, s | s in Stored(l', k) ensures s <= root {
      assert s in Stored(l, k);
    }
  }

  lemma StepSpares(l: Ledger, job: Option<Job>, step: Step, l': Ledger, root: Slot)
    requires Next(l, step, l') && Allowed(job, step) && Spares(l, job, root)
    ensures CleansUpTo(l, step, root) && Spares(l', job, root)
  {
    if job.Some? && job.value.Cleaning? && StoredUpTo(l, root) {
      StepKeepsStored(l, step, l', root);
    }
    hide Next, StoredUpTo;
  }

  /** All that is stored lies at or below the newest root. */
  lemma NewestRootIsSpared(l: Ledger, job: Option<Job>)
    requires Inv(l) && (job.Some? && job.value.Flushing? ==> AtMost(job.value.bound, l.maxRoot))
    ensures Spares(l, job, l.maxRoot)
  {
    forall k, s | s in Stored(l, k) ensures s <= l.maxRoot {
      assert SlotsOrdered(l, k);
    }
  }

  lemma BoundSpares(st: State, proposed: Option<Slot>, bound: Option<Slot>, id: nat)
    requires ReadsBound(st, proposed, bound) && id in st.scans
    ensures AtMost(bound, st.scans[id].root)
  {
    assert st.scans[id].root in Roots(st.scans);
  }

  lemma WorkKeepsSafe(st: State, step: Step, st': State)
    requires Safe(st) && Happens(st, Work(step), st')
    ensures Safe(st')
  {
    hide Inv, Next, SeesRoots, Respects, CleansUpTo, Spares, Allowed, HoldsRoot;
    StepKeepsInv(st.ledger, step, st'.ledger);
    StepKeepsNewestRoot(st.ledger, step, st'.ledger);
    SparesLater(st.ledger, st.job, step, st'.ledger);
    forall id | id in st.scans ensures ScanIsSafe(st', id) {
      assert ScanIsSafe(st, id);
      StepSpares(st.ledger, st.job, step, st'.ledger, st.scans[id].root);
      HeldStep(st.ledger, step, st'.ledger, st.scans[id].ancestors, st.scans[id].root, 0);
    }
  }

  lemma SparesLater(l: Ledger, job: Option<Job>, step: Step, l': Ledger)
    requires Inv(l) && Next(l, step, l') && Spares(l, job, l.maxRoot)
    ensures Spares(l', job, l'.maxRoot)
  {
    StepKeepsInv(l, step, l');
    MaxRootGrows(l, step, l');
    hide Inv, Next;
    NewestRootIsSpared(l', job);
  }

  lemma EventKeepsSafe(st: State, event: Event, st': State)
    requires Safe(st) && Happens(st, event, st') && Careful(st, event)
    ensures Safe(st')
  {
    if event.Work? {
      WorkKeepsSafe(st, event.step, st');
      return;
    }
    var l := st.ledger;
    hide Inv, SeesRoots, Next, Respects, Allowed;
    if event.Begin? && l.maxRoot !in event.bank {
      PinnedSees(l, l.maxRoot);
    }
    if event.StartFlush? || event.StartClean? {
      hide StoredUpTo;
      forall id | id in st.scans ensures ScanIsSafe(st', id) {
        assert ScanIsSafe(st, id);
        BoundSpares(st, event.proposed, st'.job.value.bound, id);
      }
      StartSpares(st, event, st');
    } else {
      forall id | id in st'.scans ensures ScanIsSafe(st', id) {
        assert id in st.scans ==> ScanIsSafe(st, id);
      }
    }
  }

  lemma StartSpares(st: State, event: Event, st': State)
    requires Safe(st) && Happens(st, event, st') && Careful(st, event) && (event.StartFlush? || event.StartClean?)
    ensures Spares(st'.ledger, st'.job, st'.ledger.maxRoot)
  {
    var bound := st'.job.value.bound;
    if st.scans != map[] {
      var id :| id in st.scans;
      assert ScanIsSafe(st, id);
      BoundSpares(st, event.proposed, bound, id);
    } else {
      assert Roots(st.scans) == {};
    }
    NewestRootIsSpared(st'.ledger, st'.job);
  }

  // ---------- runs ----------

  ghost predicate IsScanRun(states: seq<State>, events: seq<Event>) {
    && |states| == |events| + 1 && states[0] == State(Init(), map[], None)
    && forall i :: 0 <= i < |events| ==> Happens(states[i], events[i], states[i + 1])
  }

  /** A run from the empty store in which every cleaning flush reads its bound carefully. */
  ghost predicate IsCarefulRun(states: seq<State>, events: seq<Event>) {
    IsScanRun(states, events) && forall i :: 0 <= i < |events| ==> Careful(states[i], events[i])
  }

  lemma {:induction false} RunIsSafe(states: seq<State>, events: seq<Event>, n: nat)
    requires IsCarefulRun(states, events) && n < |states|
    ensures Safe(states[n])
  {
    hide Happens, Careful;
    if n > 0 {
      RunIsSafe(states, events, n - 1);
      EventKeepsSafe(states[n - 1], events[n - 1], states[n]);
    }
  }

  /** No step of a run reclaims past the root of a scan under way, however long ago its bound was read. */
  lemma BoundsRespectScans(states: seq<State>, events: seq<Event>, n: nat, id: nat)
    requires IsCarefulRun(states, events) && n < |events| && events[n].Work? && id in states[n].scans
    ensures CleansUpTo(states[n].ledger, events[n].step, states[n].scans[id].root)
  {
    RunIsSafe(states, events, n);
    assert ScanIsSafe(states[n], id);
    hide Inv, SeesRoots, Respects;
    StepSpares(states[n].ledger, states[n].job, events[n].step, states[n + 1].ledger, states[n].scans[id].root);
  }

  /** The scan is under way from `first` to `last`. */
  predicate UnderWay(states: seq<State>, id: nat, scan: Scan, first: nat, last: nat)
    requires first <= last < |states|
  {
    forall i: nat :: first <= i <= last ==> id in states[i].scans && states[i].scans[id] == scan
  }

  /** From one state of a scan to a later one loads agree and nothing new comes into view. */
  ghost predicate SameView(l: Ledger, l': Ledger, ancestors: set<Slot>, k: Pubkey) {
    && Load(l', ancestors, k) == Load(l, ancestors, k)
    && Within(CachedSeen(l', ancestors, k), CachedSeen(l, ancestors, k))
    && WithinEither(StoredSeen(l', ancestors, k), StoredSeen(l, ancestors, k), CachedSeen(l, ancestors, k))
  }

  lemma SameViewStep(l: Ledger, mid: Ledger, l': Ledger, ancestors: set<Slot>, k: Pubkey)
    requires SameView(l, mid, ancestors, k) && SameView(mid, l', ancestors, k)
    ensures SameView(l, l', ancestors, k)
  {
    hide CachedSeen, StoredSeen, Load;
  }

  lemma EventKeepsView(st: State, event: Event, st': State, id: nat, k: Pubkey)
    requires Safe(st) && Happens(st, event, st') && id in st.scans
    ensures SameView(st.ledger, st'.ledger, st.scans[id].ancestors, k)
  {
    hide Inv, Next, SeesRoots, Respects, CleansUpTo, Spares, Allowed, Load, CachedSeen, StoredSeen;
    if event.Work? {
      var l, step, l', scan := st.ledger, event.step, st'.ledger, st.scans[id];
      assert ScanIsSafe(st, id);
      StepSpares(l, st.job, step, l', scan.root);
      HeldStep(l, step, l', scan.ancestors, scan.root, k);
      StepShrinksCached(l, step, l', scan.ancestors, scan.root, k);
      StepShrinksStored(l, step, l', scan.ancestors, k);
    }
  }

  /** While a scan is under way, what its bank loads never changes. */
  lemma {:induction false} ScanIsStable(states: seq<State>, events: seq<Event>, first: nat, last: nat, id: nat,
                                        scan: Scan, k: Pubkey)
    requires IsCarefulRun(states, events) && first <= last < |states| && UnderWay(states, id, scan, first, last)
    ensures SameView(states[first].ledger, states[last].ledger, scan.ancestors, k)
    decreases last
  {
    hide Happens, Careful, Safe, CachedSeen, StoredSeen, Load;
    if first < last {
      ScanIsStable(states, events, first, last - 1, id, scan, k);
      RunIsSafe(states, events, last - 1);
      EventKeepsView(states[last - 1], events[last - 1], states[last], id, k);
      SameViewStep(states[first].ledger, states[last - 1].ledger, states[last].ledger, scan.ancestors, k);
    }
  }

  /**
   A scan begins at `pin`, looks a key up in the cache at `first` and in the index at `last`. Whatever
   was written, rooted, flushed and cleaned in between, it reports what its bank saw when it began.
   */
  lemma ScanReportsNewest(states: seq<State>, events: seq<Event>, pin: nat, first: nat, last: nat, id: nat, scan: Scan,
                          k: Pubkey,
                          cached: Option<Found>, stored: Option<Found>)
    requires IsCarefulRun(states, events) && pin <= first <= last < |states| && UnderWay(states, id, scan, pin, last)
    requires W.IsNewest(W.Choice(Cached(states[first].ledger, k), states[first].ledger.unflushed, scan.ancestors),
      cached)
    requires var versions := Stored(states[last].ledger, k);
      W.IsNewest(AncestorsFirst(versions, scan.ancestors, UpTo(versions, scan.root)), stored)
    ensures Answer(Report(cached, stored)) == Load(states[pin].ledger, scan.ancestors, k)
  {
    hide Happens, Careful, CachedSeen, StoredSeen, Load, Inv, RootsComeFirst, Covers, Spares, AncestorsFirst, W.Choice;
    RunIsSafe(states, events, first);
    RunIsSafe(states, events, last);
    assert ScanIsSafe(states[first], id) && ScanIsSafe(states[last], id);
    ScanIsStable(states, events, pin, first, id, scan, k);
    ScanIsStable(states, events, first, last, id, scan, k);
    CachePassFinds(states[first].ledger, scan.ancestors, k, cached);
    IndexPassFinds(states[last].ledger, scan.ancestors, scan.root, k, stored);
    PassesReportNewest(states[first].ledger, states[last].ledger, scan.ancestors, k, cached, stored);
  }

  // ---------- exactly which bounds are safe ----------

  /** A flush cleaning up to `bound`, or up to anything if there is none, changes no load at `root`. */
  ghost predicate FlushSafeAt(bound: Option<Slot>, root: Slot) {
    forall l, slot, b, kept, l', k ::
      Inv(l) && HoldsRoot(l, root) && (bound.Some? ==> b == bound.value) && Next(l, Flush(slot, Some(b), kept), l') ==>
      Load(l', {root}, k) == Load(l, {root}, k)
  }

  /** The same of a clean. */
  ghost predicate CleanSafeAt(bound: Option<Slot>, root: Slot) {
    forall l, keys, b, l', k ::
      Inv(l) && HoldsRoot(l, root) && (bound.Some? ==> b == bound.value) && Next(l, Clean(keys, b), l') ==>
      Load(l', {root}, k) == Load(l, {root}, k)
  }

  /** A root holding 5 lamports for key 7 and a newer one holding 9, both cached. */
  function TwoCached(root: Slot, newer: Slot): Ledger {
    Ledger(map[root := map[7 := Account(5, [])], newer := map[7 := Account(9, [])]], {root, newer}, newer, map[], map[],
      None, map[], 0)
  }

  /** A flush bounded past the root drops the older version for the newer one, and a reader at the root finds none. */
  lemma FlushPastRootLosesVersion(root: Slot, newer: Slot)
    requires root < newer
    ensures var l := TwoCached(root, newer);
      && Inv(l) && HoldsRoot(l, root) && Load(l, {root}, 7) == Some(Account(5, []))
      && exists l' :: Next(l, Flush(root, Some(newer), {}), l') && Load(l', {root}, 7) == None
  {
    var l := TwoCached(root, newer);
    var l' := l.(cache := l.cache - {root}, unflushed := l.unflushed - {root}, cleaned := Raised(0, Some(newer)));
    assert Superseded(l, root, 7, newer) by {
      assert newer in l.unflushed && root < newer <= newer && newer in l.cache && 7 in l.cache[newer];
    }
    assert Next(l, Flush(root, Some(newer), {}), l');
    var seen := Seen(Stored(l, 7), Cached(l, 7), l.unflushed, {root});
    assert seen.Keys == {root};
    NewestIs(seen, root);
    assert Seen(Stored(l', 7), Cached(l', 7), l'.unflushed, {root}) == map[];
  }

  lemma FlushSafeIff(bound: Option<Slot>, root: Slot)
    ensures FlushSafeAt(bound, root) <==> AtMost(bound, root)
  {
    if AtMost(bound, root) {
      forall l, slot, b, kept, l', k |
        Inv(l) && HoldsRoot(l, root) && (bound.Some? ==> b == bound.value) && Next(l, Flush(slot, Some(b), kept), l')
        ensures Load(l', {root}, k) == Load(l, {root}, k)
      {
        PinnedStep(l, Flush(slot, Some(b), kept), l', root, k);
      }
    } else {
      FlushPastRootLosesVersion(root, if bound.Some? then bound.value else root + 1);
    }
  }

  function TwoStored(root: Slot, newer: Slot): Ledger {
    Ledger(map[], {}, newer, map[7 := map[root := Account(5, []), newer := Account(9, [])]], map[], None, map[], 0)
  }

  lemma OnlyNewerSurvives(root: Slot, newer: Slot)
    requires root < newer
    ensures StoredAfterClean(map[root := Account(5, []), newer := Account(9, [])], newer) ==
      map[newer := Account(9, [])]
  {
    var m: map<Slot, Account> := map[root := Account(5, []), newer := Account(9, [])];
    var left := Survivors(m, newer);
    assert newer in m && root in m;
    assert forall s :: s in left <==> s == newer;
    assert left == map[newer := Account(9, [])];
  }

  lemma CleanPastRootLosesVersion(root: Slot, newer: Slot)
    requires root < newer
    ensures var l := TwoStored(root, newer);
      && Inv(l) && HoldsRoot(l, root) && Load(l, {root}, 7) == Some(Account(5, []))
      && exists l' :: Next(l, Clean({7}, newer), l') && Load(l', {root}, 7) == None
  {
    var l := TwoStored(root, newer);
    var l' := l.(stored := map[7 := map[newer := Account(9, [])]], cleaned := Raised(0, Some(newer)));
    TwoStoredHolds(root, newer);
    assert Next(l, Clean({7}, newer), l') by {
      OnlyNewerSurvives(root, newer);
      hide StoredAfterClean, Survivors;
      assert newer in l'.stored[7];
    }
    hide Next;
    assert Seen(Stored(l', 7), Cached(l', 7), l'.unflushed, {root}) == map[];
  }

  lemma TwoStoredHolds(root: Slot, newer: Slot)
    requires root < newer
    ensures var l := TwoStored(root, newer); Inv(l) && HoldsRoot(l, root) && Load(l, {root}, 7) == Some(Account(5, []))
  {
    var l := TwoStored(root, newer);
    assert newer in l.stored[7];
    assert UpTo(Stored(l, 7), -1) == map[];
    var seen := Seen(Stored(l, 7), Cached(l, 7), l.unflushed, {root});
    assert seen.Keys == {root};
    NewestIs(seen, root);
  }

  lemma CleanSafeIff(bound: Option<Slot>, root: Slot)
    ensures CleanSafeAt(bound, root) <==> AtMost(bound, root)
  {
    if AtMost(bound, root) {
      forall l, keys, b, l', k |
        Inv(l) && HoldsRoot(l, root) && (bound.Some? ==> b == bound.value) && Next(l, Clean(keys, b), l')
        ensures Load(l', {root}, k) == Load(l, {root}, k)
      {
        PinnedStep(l, Clean(keys, b), l', root, k);
      }
    } else {
      CleanPastRootLosesVersion(root, if bound.Some? then bound.value else root + 1);
    }
  }

  /** While nothing newer than the root is stored, a clean with any bound, or none, changes no load there. */
  lemma CleanSafeUntilFlush(l: Ledger, keys: set<Pubkey>, bound: Slot, l': Ledger, root: Slot, k: Pubkey)
    requires Inv(l) && HoldsRoot(l, root) && StoredUpTo(l, root) && Next(l, Clean(keys, bound), l')
    ensures Load(l', {root}, k) == Load(l, {root}, k)
  {
    PinnedSees(l, root);
    CollectionUnseen(l, Clean(keys, bound), l', {root}, root, k);
  }

  /**
   The bound a flush reads spares the scans under way, and every scan that starts later at a newest root
   that has only grown, exactly when a scan is under way or a root no newer than the newest was proposed.
   */
  lemma CarefulIsExact(roots: set<Slot>, lowest: Option<Slot>, proposed: Option<Slot>, maxRoot: Slot)
    requires Lowest(roots, lowest) && forall r :: r in roots ==> r <= maxRoot
    ensures (forall root :: root in roots || maxRoot <= root ==> FlushSafeAt(CleanRoot(lowest, proposed), root))
      <==> roots != {} || AtMost(proposed, maxRoot)
  {
    hide FlushSafeAt;
    var bound := CleanRoot(lowest, proposed);
    forall root ensures FlushSafeAt(bound, root) <==> AtMost(bound, root) {
      FlushSafeIff(bound, root);
    }
    if roots == {} && !AtMost(proposed, maxRoot) {
      assert !AtMost(bound, maxRoot);
    }
  }

  // ---------- a careless flush ----------

  const FIVE := Account(5, [])
  const NINE := Account(9, [])

  function Before(cache: map<Slot, SlotAccounts>, unflushed: set<Slot>, maxRoot: Slot): Ledger {
    Ledger(cache, unflushed, maxRoot, map[], map[], None, map[], 0)
  }

  type SlotAccounts = map<Pubkey, Account>

  /** A scan begins after a flush has read no bound; a root is added, and the flush drops what the scan needs. */
  ghost predicate LosesVersion(states: seq<State>, events: seq<Event>) {
    && IsScanRun(states, events) && |events| == 7 && UnderWay(states, 0, Scan(1, {1}), 4, 7)
    && Load(states[4].ledger, {1}, 7) == Some(FIVE) && Load(states[7].ledger, {1}, 7) == None
  }

  lemma FirstRoot(one: map<Slot, SlotAccounts>)
    requires one == map[1 := map[7 := FIVE]]
    ensures Next(Init(), Store(1, 7, FIVE), Before(one, {}, 0))
    ensures Next(Before(one, {}, 0), AddRoot(1), Before(one, {1}, 1))
  {
    var none: map<Slot, SlotAccounts> := map[];
    var empty: SlotAccounts := map[];
    assert none[1 := empty[7 := FIVE]] == one;
    assert {} + {1} == {1};
  }

  lemma SecondRoot(one: map<Slot, SlotAccounts>, both: map<Slot, SlotAccounts>)
    requires one == map[1 := map[7 := FIVE]] && both == map[1 := map[7 := FIVE], 2 := map[7 := NINE]]
    ensures Next(Before(one, {1}, 1), Store(2, 7, NINE), Before(both, {1}, 1))
    ensures Next(Before(both, {1}, 1), AddRoot(2), Before(both, {1, 2}, 2))
  {
    var empty: SlotAccounts := map[];
    assert one[2 := empty[7 := NINE]] == both;
    assert {1} + {2} == {1, 2};
  }

  lemma FiveIsLoaded(one: map<Slot, SlotAccounts>)
    requires one == map[1 := map[7 := FIVE]]
    ensures Load(Before(one, {1}, 1), {1}, 7) == Some(FIVE)
  {
    var l := Before(one, {1}, 1);
    var seen := Seen(Stored(l, 7), Cached(l, 7), l.unflushed, {1});
    assert 1 in seen;
    NewestIs(seen, 1);
  }

  lemma LosingFlush(both: map<Slot, SlotAccounts>) returns (last: Ledger)
    requires both == map[1 := map[7 := FIVE], 2 := map[7 := NINE]]
    ensures Next(Before(both, {1, 2}, 2), Flush(1, Some(2), {}), last) && Load(last, {1}, 7) == None
  {
    FlushPastRootLosesVersion(1, 2);
    assert TwoCached(1, 2) == Before(both, {1, 2}, 2);
    hide Next, Load;
    last :| Next(TwoCached(1, 2), Flush(1, Some(2), {}), last) && Load(last, {1}, 7) == None;
  }

  function Idle(l: Ledger): State {
    State(l, map[], None)
  }

  function Scanning(l: Ledger): State {
    State(l, map[0 := Scan(1, {1})], Some(Flushing(None)))
  }

  lemma EarlyEvents(one: map<Slot, SlotAccounts>)
    requires one == map[1 := map[7 := FIVE]]
    ensures Happens(Idle(Init()), Work(Store(1, 7, FIVE)), Idle(Before(one, {}, 0)))
    ensures Happens(Idle(Before(one, {}, 0)), Work(AddRoot(1)), Idle(Before(one, {1}, 1)))
  {
    FirstRoot(one);
    hide Next, Before;
  }

  lemma LateEvents(one: map<Slot, SlotAccounts>, both: map<Slot, SlotAccounts>, last: Ledger)
    requires one == map[1 := map[7 := FIVE]] && both == map[1 := map[7 := FIVE], 2 := map[7 := NINE]]
    requires Next(Before(both, {1, 2}, 2), Flush(1, Some(2), {}), last)
    ensures Happens(Scanning(Before(one, {1}, 1)), Work(Store(2, 7, NINE)), Scanning(Before(both, {1}, 1)))
    ensures Happens(Scanning(Before(both, {1}, 1)), Work(AddRoot(2)), Scanning(Before(both, {1, 2}, 2)))
    ensures Happens(Scanning(Before(both, {1, 2}, 2)), Work(Flush(1, Some(2), {})), Scanning(last))
  {
    SecondRoot(one, both);
    hide Next, Before;
  }

  /** A flush that is not careful can make a scan miss an account its root holds. */
  lemma CarelessFlushCanFailAScan()
    ensures exists states, events :: LosesVersion(states, events)
  {
    hide Next, Load, Before, Happens, LosesVersion, Init;
    var one, both := map[1 := map[7 := FIVE]], map[1 := map[7 := FIVE], 2 := map[7 := NINE]];
    var last := LosingFlush(both);
    EarlyEvents(one);
    FiveIsLoaded(one);
    LateEvents(one, both, last);
    var rooted := Before(one, {1}, 1);
    ScanFollowsFlush(Idle(rooted), Idle(rooted).(job := Some(Flushing(None))), Scanning(rooted), one);
    JoinEvents([Idle(Init()), Idle(Before(one, {}, 0)), Idle(rooted), Idle(rooted).(job := Some(Flushing(None))),
      Scanning(rooted),
                Scanning(Before(both, {1}, 1)), Scanning(Before(both, {1, 2}, 2)), Scanning(last)]);
  }

  lemma JoinEvents(states: seq<State>)
    requires |states| == 8 && states[0] == State(Init(), map[], None)
    requires Happens(states[0], Work(Store(1, 7, FIVE)), states[1]) && Happens(states[1], Work(AddRoot(1)), states[2])
    requires Happens(states[2], StartFlush(None), states[3]) && Happens(states[3], Begin(0, {}), states[4])
    requires Happens(states[4], Work(Store(2, 7, NINE)), states[5]) && Happens(states[5], Work(AddRoot(2)), states[6])
    requires Happens(states[6], Work(Flush(1, Some(2), {})), states[7])
    requires forall i :: 4 <= i < 8 ==> states[i].scans == map[0 := Scan(1, {1})]
    requires Load(states[4].ledger, {1}, 7) == Some(FIVE) && Load(states[7].ledger, {1}, 7) == None
    ensures exists events :: LosesVersion(states, events)
  {
    hide Happens, Load;
    var events := [
      Work(Store(1, 7, FIVE)), Work(AddRoot(1)), StartFlush(None), Begin(0, {}),
      Work(Store(2, 7, NINE)), Work(AddRoot(2)), Work(Flush(1, Some(2), {}))
    ];
    assert LosesVersion(states, events);
  }

  lemma ScanFollowsFlush(st: State, flushing: State, scanning: State, one: map<Slot, SlotAccounts>)
    requires st == State(Before(one, {1}, 1), map[], None) && flushing == st.(job := Some(Flushing(None)))
    requires scanning == flushing.(scans := map[0 := Scan(1, {1})])
    ensures Happens(st, StartFlush(None), flushing) && Happens(flushing, Begin(0, {}), scanning)
  {
    assert Roots(st.scans) == {} && Lowest({}, None);
    assert flushing.scans[0 := Scan(1, {1})] == scanning.scans;
  }
}
