/**
 A reader looking up a storage while storages are flushed, shrunk and cleaned under it. Every access
 to a shared map is one step, and steps of the reader and of the writers interleave freely.
 */
module ReaderProtocol {
  import opened Types

  type StoreId = nat

  datatype Location = Location(id: StoreId, offset: nat)

  /** A shrink of one slot: rewriting keys that still name the old store, or swapped in and about to finish. */
  datatype ShrinkJob =
    | Rewriting(before: StoreId, after: StoreId, todo: set<Pubkey>)
    | Swapped(after: StoreId)

  datatype Reader =
    | Idle
    | Looking(k: Pubkey, slot: Slot, loc: Location,
              misses: nat,                         // how many of the three reads already missed
              locked: bool)
    | Found(k: Pubkey, slot: Slot, loc: Location)
    | Missed(k: Pubkey, slot: Slot, loc: Location)
    | Absent(k: Pubkey)
    | BadIndexEntry(k: Pubkey, slot: Slot, loc: Location)

  datatype State = State(
    stores: map<Slot, StoreId>,                    // the storage map
    shrinking: map<Slot, StoreId>,                 // the shrink-in-progress map
    index: map<Pubkey, map<Slot, Location>>,
    jobs: map<Slot, ShrinkJob>,
    nextId: StoreId,
    reader: Reader)

  datatype Step =
    | InsertFlushed(s: Slot)                       // a flush publishes a new store
    | IndexFlushed(k: Pubkey, s: Slot, offset: nat)
    | StartShrink(s: Slot)                         // the new store goes into the shrink-in-progress map
    | ReplaceEntry(k: Pubkey, s: Slot, offset: nat)
    | DropEntry(k: Pubkey, s: Slot)                // a lone zero-lamport entry leaves the index
    | SwapStore(s: Slot)                           // the new store replaces the old one in the map
    | FinishShrink(s: Slot)                        // and leaves the shrink-in-progress map
    | PurgeEntry(k: Pubkey, s: Slot)               // clean takes an entry out of the index
    | RemoveStore(s: Slot)                         // and later the store no entry names
    | ReadIndex(k: Pubkey, s: Slot, locked: bool)
    | LookUp
    | Retry(s: Slot, locked: bool)                 // read the index again after a miss
    | RetryNone

  function Entries(st: State, k: Pubkey): map<Slot, Location> {
    if k in st.index then st.index[k] else map[]
  }

  function WithEntries(st: State, k: Pubkey, entries: map<Slot, Location>): State {
    st.(index := st.index[k := entries])
  }

  /** Index entries of `k` may change: no reader holds its lock. */
  predicate Unlocked(st: State, k: Pubkey) {
    !(st.reader.Looking? && st.reader.locked && st.reader.k == k)
  }

  predicate InMap(m: map<Slot, StoreId>, s: Slot, id: StoreId) {
    s in m && m[s] == id
  }

  /** One read of the three: the map, the shrink-in-progress map, the map again. */
  function ReadOf(st: State, misses: nat): map<Slot, StoreId> {
    if misses == 1 then st.shrinking else st.stores
  }

  ghost predicate Enabled(st: State, step: Step) {
    match step
    case InsertFlushed(s) => s !in st.stores && s !in st.jobs && forall k :: s !in Entries(st, k)
    case IndexFlushed(k, s, _) => s in st.stores && s !in st.jobs && Unlocked(st, k)
    case StartShrink(s) => s in st.stores && s !in st.jobs && s !in st.shrinking
    case ReplaceEntry(k, s, _) => s in st.jobs && st.jobs[s].Rewriting? && k in st.jobs[s].todo && Unlocked(st, k)
    case DropEntry(k, s) => s in st.jobs && st.jobs[s].Rewriting? && k in st.jobs[s].todo && Unlocked(st, k)
    case SwapStore(s) => s in st.jobs && st.jobs[s].Rewriting? && st.jobs[s].todo == {}
    case FinishShrink(s) => s in st.jobs && st.jobs[s].Swapped?
    case PurgeEntry(k, s) => s in Entries(st, k) && s !in st.jobs && Unlocked(st, k)
    case RemoveStore(s) => s in st.stores && s !in st.jobs && forall k :: s !in Entries(st, k)
    case ReadIndex(k, s, _) => st.reader.Idle? && s in Entries(st, k)
    case LookUp => st.reader.Looking? && st.reader.misses < 3
    case Retry(s, _) => st.reader.Missed? && s in Entries(st, st.reader.k)
    case RetryNone => st.reader.Missed? && Entries(st, st.reader.k) == map[]
  }

  /** Keys whose entry at the slot names the given store. */
  ghost function Naming(st: State, s: Slot, id: StoreId): set<Pubkey> {
    set k | k in st.index && s in st.index[k] && st.index[k][s].id == id
  }

  ghost function Next(st: State, step: Step): State
    requires Enabled(st, step)
  {
    match step
    case InsertFlushed(s) => st.(stores := st.stores[s := st.nextId], nextId := st.nextId + 1)
    case IndexFlushed(k, s, offset) => WithEntries(st, k, Entries(st, k)[s := Location(st.stores[s], offset)])
    case StartShrink(s) =>
      st.(shrinking := st.shrinking[s := st.nextId], nextId := st.nextId + 1,
          jobs := st.jobs[s := Rewriting(st.stores[s], st.nextId, Naming(st, s, st.stores[s]))])
    case ReplaceEntry(k, s, offset) =>
      WithEntries(st, k, Entries(st, k)[s := Location(st.jobs[s].after, offset)])
        .(jobs := st.jobs[s := st.jobs[s].(todo := st.jobs[s].todo - {k})])
    case DropEntry(k, s) =>
      WithEntries(st, k, Entries(st, k) - {s}).(jobs := st.jobs[s := st.jobs[s].(todo := st.jobs[s].todo - {k})])
    case SwapStore(s) => st.(stores := st.stores[s := st.jobs[s].after],
      jobs := st.jobs[s := Swapped(st.jobs[s].after)])
    case FinishShrink(s) => st.(shrinking := st.shrinking - {s}, jobs := st.jobs - {s})
    case PurgeEntry(k, s) => WithEntries(st, k, Entries(st, k) - {s})
    case RemoveStore(s) => st.(stores := st.stores - {s})
    case ReadIndex(k, s, locked) => st.(reader := Looking(k, s, Entries(st, k)[s], 0, locked))
    case LookUp =>
      var r := st.reader;
      st.(reader := if InMap(ReadOf(st, r.misses), r.slot, r.loc.id) then Found(r.k, r.slot, r.loc)
                    else if r.misses == 2 then Missed(r.k, r.slot, r.loc)
                    else r.(misses := r.misses + 1))
    case Retry(s, locked) =>
      var r := st.reader;
      var loc := Entries(st, r.k)[s];
      st.(reader := if s == r.slot && loc.id == r.loc.id then BadIndexEntry(r.k, s, loc)
        else Looking(r.k, s, loc, 0, locked))
    case RetryNone => st.(reader := Absent(st.reader.k))
  }

  // ---------- invariant ----------

  /** The store an entry of `k` at the slot may name, given how far a shrink of the slot has come. */
  predicate NamesStore(st: State, k: Pubkey, s: Slot, id: StoreId) {
    if s !in st.jobs then InMap(st.stores, s, id)
    else id == st.jobs[s].after || (st.jobs[s].Rewriting? && id == st.jobs[s].before && k in st.jobs[s].todo)
  }

  ghost predicate EntriesNamed(st: State) {
    forall k, s :: s in Entries(st, k) ==>
      Entries(st, k)[s].id < st.nextId && NamesStore(st, k, s, Entries(st, k)[s].id)
  }

  /** A shrink's stores are where its stage puts them. */
  ghost predicate JobsPlaced(st: State) {
    && (forall s :: s in st.shrinking ==> s in st.jobs)
    && (forall s :: s in st.jobs ==> InMap(st.shrinking, s, st.jobs[s].after) && s in st.stores)
    && (forall s :: s in st.jobs && st.jobs[s].Rewriting? ==> st.stores[s] == st.jobs[s].before != st.jobs[s].after)
    && (forall s :: s in st.jobs && st.jobs[s].Swapped? ==> st.stores[s] == st.jobs[s].after)
  }

  ghost predicate IdsUsed(st: State) {
    && (forall s :: s in st.stores ==> st.stores[s] < st.nextId)
    && (forall s :: s in st.shrinking ==> st.shrinking[s] < st.nextId)
  }

  /** Ids are never reused, so what the misses ruled out stays ruled out. */
  ghost predicate ReaderKnows(st: State) {
    match st.reader
    case Looking(k, s, loc, misses, locked) =>
      && loc.id < st.nextId && misses < 3
      && (misses == 2 ==> !InMap(st.shrinking, s, loc.id))
      && (locked ==> s in Entries(st, k) && Entries(st, k)[s] == loc)
      && (locked && misses >= 1 ==> InMap(st.shrinking, s, loc.id) || InMap(st.stores, s, loc.id))
    case Missed(k, s, loc) => loc.id < st.nextId && !InMap(st.shrinking, s, loc.id) && !InMap(st.stores, s, loc.id)
    case BadIndexEntry(_, _, _) => false
    case _ => true
  }

  ghost predicate Inv(st: State) {
    EntriesNamed(st) && JobsPlaced(st) && IdsUsed(st) && ReaderKnows(st)
  }

  lemma EntryCanBeFound(st: State, k: Pubkey, s: Slot)
    requires EntriesNamed(st) && JobsPlaced(st) && s in Entries(st, k)
    ensures InMap(st.stores, s, Entries(st, k)[s].id) || InMap(st.shrinking, s, Entries(st, k)[s].id)
  {
  }

  lemma StepKeepsEntries(st: State, step: Step)
    requires EntriesNamed(st) && JobsPlaced(st) && IdsUsed(st) && Enabled(st, step)
    ensures EntriesNamed(Next(st, step))
  {
    var st' := Next(st, step);
    forall k, s | s in Entries(st', k)
      ensures Entries(st', k)[s].id < st'.nextId && NamesStore(st', k, s, Entries(st', k)[s].id)
    {
      if s in Entries(st, k) {
        EntryCanBeFound(st, k, s);
      }
    }
  }

  lemma StepKeepsJobs(st: State, step: Step)
    requires JobsPlaced(st) && IdsUsed(st) && Enabled(st, step)
    ensures JobsPlaced(Next(st, step))
  {
    hide NamesStore, Naming;
  }

  lemma StepKeepsIds(st: State, step: Step)
    requires JobsPlaced(st) && IdsUsed(st) && Enabled(st, step)
    ensures IdsUsed(Next(st, step))
  {
    hide NamesStore, Naming;
  }

  lemma StepKeepsReader(st: State, step: Step)
    requires Inv(st) && Enabled(st, step)
    ensures ReaderKnows(Next(st, step))
  {
    hide Naming;
    if step.LookUp? && st.reader.locked {
      EntryCanBeFound(st, st.reader.k, st.reader.slot);
    }
  }

  // ---------- runs ----------

  ghost predicate Init(st: State) {
    st == State(map[], map[], map[], map[], 0, Idle)
  }

  /** Taking the steps in order from `st` is possible and ends in `last`. */
  ghost predicate Leads(st: State, steps: seq<Step>, last: State)
    decreases |steps|
  {
    if steps == [] then st == last
    else Enabled(st, steps[0]) && Leads(Next(st, steps[0]), steps[1..], last)
  }

  lemma StepKeepsInv(st: State, step: Step)
    requires Inv(st) && Enabled(st, step)
    ensures Inv(Next(st, step))
  {
    hide Next, Enabled, EntriesNamed, JobsPlaced, IdsUsed, ReaderKnows;
    StepKeepsEntries(st, step);
    StepKeepsJobs(st, step);
    StepKeepsIds(st, step);
    StepKeepsReader(st, step);
  }

  lemma {:induction false} RunKeepsInv(st: State, steps: seq<Step>, last: State)
    requires Inv(st) && Leads(st, steps, last)
    ensures Inv(last)
    decreases |steps|
  {
    hide Next, Enabled, Inv;
    if steps != [] {
      StepKeepsInv(st, steps[0]);
      RunKeepsInv(Next(st, steps[0]), steps[1..], last);
    }
  }

  /** The "bad index entry" failure cannot be reached, whatever the interleaving. */
  lemma NoBadIndexEntry(st: State, steps: seq<Step>, last: State)
    requires Init(st) && Leads(st, steps, last)
    ensures !last.reader.BadIndexEntry?
  {
    hide Next, Enabled, Leads;
    RunKeepsInv(st, steps, last);
  }

  /** The store has left both maps. */
  ghost predicate Gone(st: State, s: Slot, id: StoreId) {
    id < st.nextId && !InMap(st.stores, s, id) && !InMap(st.shrinking, s, id)
  }

  lemma GoneIsUnnamed(st: State, s: Slot, id: StoreId, k: Pubkey)
    requires Inv(st) && Gone(st, s, id)
    ensures s in Entries(st, k) ==> Entries(st, k)[s].id != id
  {
    if s in Entries(st, k) {
      EntryCanBeFound(st, k, s);
    }
  }

  lemma StepKeepsGone(st: State, step: Step, s: Slot, id: StoreId)
    requires Inv(st) && Enabled(st, step) && Gone(st, s, id)
    ensures Gone(Next(st, step), s, id)
  {
    hide Naming, EntriesNamed, ReaderKnows, NamesStore;
  }

  lemma {:induction false} RunKeepsGone(st: State, steps: seq<Step>, last: State, s: Slot, id: StoreId)
    requires Inv(st) && Leads(st, steps, last) && Gone(st, s, id)
    ensures Inv(last) && Gone(last, s, id)
    decreases |steps|
  {
    hide Next, Enabled, Inv, Gone;
    if steps != [] {
      StepKeepsInv(st, steps[0]);
      StepKeepsGone(st, steps[0], s, id);
      RunKeepsGone(Next(st, steps[0]), steps[1..], last, s, id);
    }
  }

  /** After a lookup has missed, no key of the index names that store, now or at any later time. */
  lemma MissedStoreIsNeverNamedAgain(first: State, before: seq<Step>, st: State, after: seq<Step>, last: State,
                                     k: Pubkey)
    requires Init(first) && Leads(first, before, st) && st.reader.Missed? && Leads(st, after, last)
    ensures st.reader.slot in Entries(last, k) ==> Entries(last, k)[st.reader.slot].id != st.reader.loc.id
  {
    hide Next, Enabled, Leads;
    RunKeepsInv(first, before, st);
    RunKeepsGone(st, after, last, st.reader.slot, st.reader.loc.id);
    GoneIsUnnamed(last, st.reader.slot, st.reader.loc.id, k);
  }

  /** The reader is after, or has found, this location of the key. */
  predicate Holds(r: Reader, k: Pubkey, s: Slot, loc: Location) {
    (r.Looking? || r.Found? || r.Missed?) && r.k == k && r.slot == s && r.loc == loc
  }

  /** At some point of the run the index gave this location for the key. */
  ghost predicate WasNamed(st: State, steps: seq<Step>, k: Pubkey, s: Slot, loc: Location) {
    exists n: nat, mid ::
      n <= |steps| && Leads(st, steps[..n], mid) && s in Entries(mid, k) && Entries(mid, k)[s] == loc
  }

  lemma StepHolds(st: State, step: Step, k: Pubkey, s: Slot, loc: Location)
    requires Enabled(st, step) && Holds(Next(st, step).reader, k, s, loc)
    ensures Holds(st.reader, k, s, loc) || (s in Entries(st, k) && Entries(st, k)[s] == loc)
  {
    hide Naming;
  }

  lemma {:induction false} HeldWasNamed(st: State, steps: seq<Step>, last: State, k: Pubkey, s: Slot, loc: Location)
    requires Leads(st, steps, last) && Holds(last.reader, k, s, loc)
    ensures Holds(st.reader, k, s, loc) || WasNamed(st, steps, k, s, loc)
    decreases |steps|
  {
    hide Next, Enabled, Holds;
    if steps != [] {
      var st' := Next(st, steps[0]);
      HeldWasNamed(st', steps[1..], last, k, s, loc);
      if Holds(st'.reader, k, s, loc) {
        StepHolds(st, steps[0], k, s, loc);
        assert Leads(st, steps[..0], st);
      } else {
        var n: nat, mid :| n <= |steps[1..]| && Leads(st', steps[1..][..n], mid) && s in Entries(mid, k) &&
          Entries(mid, k)[s] == loc;
        assert steps[..n + 1][1..] == steps[1..][..n];
        assert Leads(st, steps[..n + 1], mid);
      }
    }
  }

  /** Whatever store a lookup finds is one the index named for that key during the run, at that slot and offset. */
  lemma FoundStoreWasNamed(first: State, steps: seq<Step>, last: State)
    requires Init(first) && Leads(first, steps, last) && last.reader.Found?
    ensures WasNamed(first, steps, last.reader.k, last.reader.slot, last.reader.loc)
  {
    hide Leads, WasNamed;
    HeldWasNamed(first, steps, last, last.reader.k, last.reader.slot, last.reader.loc);
  }

  /** One of the two maps has this store at the slot. */
  predicate InAMap(st: State, s: Slot, id: StoreId) {
    InMap(st.stores, s, id) || InMap(st.shrinking, s, id)
  }

  /** A step that finds a store is a lookup, and the store is in one of the maps as it is read. */
  lemma StepFinds(st: State, step: Step)
    requires Enabled(st, step) && Next(st, step).reader.Found?
    ensures var r := Next(st, step).reader;
      r == st.reader || (step.LookUp? && Holds(st.reader, r.k, r.slot, r.loc) && InAMap(st, r.slot, r.loc.id))
  {
    hide Naming;
  }

  /** At some point of the run a lookup read a map that had this store at the slot. */
  ghost predicate WasThere(st: State, steps: seq<Step>, s: Slot, id: StoreId) {
    exists n: nat, mid :: n < |steps| && Leads(st, steps[..n], mid) && steps[n].LookUp? && InAMap(mid, s, id)
  }

  lemma {:induction false} FoundWasThere(st: State, steps: seq<Step>, last: State)
    requires Leads(st, steps, last) && last.reader.Found?
    ensures st.reader == last.reader || WasThere(st, steps, last.reader.slot, last.reader.loc.id)
    decreases |steps|
  {
    hide Next, Enabled, InAMap;
    if steps != [] {
      var st' := Next(st, steps[0]);
      var s, id := last.reader.slot, last.reader.loc.id;
      FoundWasThere(st', steps[1..], last);
      if st'.reader == last.reader {
        StepFinds(st, steps[0]);
        assert Leads(st, steps[..0], st);
      } else {
        var n: nat, mid :|
          n < |steps[1..]| && Leads(st', steps[1..][..n], mid) && steps[1..][n].LookUp? && InAMap(mid, s, id);
        assert steps[..n + 1][1..] == steps[1..][..n];
        assert Leads(st, steps[..n + 1], mid) && steps[n + 1].LookUp?;
      }
    }
  }

  /** A lookup finds only a store that was in one of the two maps when it read it. */
  lemma FoundStoreWasInAMap(first: State, steps: seq<Step>, last: State)
    requires Init(first) && Leads(first, steps, last) && last.reader.Found?
    ensures WasThere(first, steps, last.reader.slot, last.reader.loc.id)
  {
    hide Leads, WasThere;
    FoundWasThere(first, steps, last);
  }

  /**
   A lookup that nothing disturbs finds what the index names by its second read, and by its first
   unless the slot is being shrunk.
   */
  lemma UndisturbedLookUpFinds(first: State, steps: seq<Step>, st: State)
    requires Init(first) && Leads(first, steps, st) && st.reader.Looking? && st.reader.misses == 0
    requires st.reader.slot in Entries(st, st.reader.k) && Entries(st, st.reader.k)[st.reader.slot] == st.reader.loc
    ensures Enabled(st, LookUp)
    ensures st.reader.slot !in st.jobs ==> Next(st, LookUp).reader.Found?
    ensures var st' := Next(st, LookUp); st'.reader.Found? || (Enabled(st', LookUp) && Next(st', LookUp).reader.Found?)
  {
    hide Leads, Naming;
    RunKeepsInv(first, steps, st);
    EntryCanBeFound(st, st.reader.k, st.reader.slot);
  }

  /** A lookup can miss all three reads: the entry it read is cleaned away, and the store with it. */
  lemma AllThreeReadsCanMiss()
    ensures exists first, steps, st :: Init(first) && Leads(first, steps, st) && st.reader.Missed?
  {
    hide Leads;
    var s0 := State(map[], map[], map[], map[], 0, Idle);
    var s1 := State(map[0 := 0], map[], map[], map[], 1, Idle);
    var s2 := s1.(index := map[7 := map[0 := Location(0, 0)]]);
    var s3 := s2.(reader := Looking(7, 0, Location(0, 0), 0, false));
    var steps, last := CleanedUnderReader(s3);
    assert Next(s2, ReadIndex(7, 0, false)) == s3;
    LeadsStep(s2, ReadIndex(7, 0, false), steps, last);
    steps := [ReadIndex(7, 0, false)] + steps;
    assert Next(s1, IndexFlushed(7, 0, 0)) == s2;
    LeadsStep(s1, IndexFlushed(7, 0, 0), steps, last);
    steps := [IndexFlushed(7, 0, 0)] + steps;
    assert Next(s0, InsertFlushed(0)) == s1;
    LeadsStep(s0, InsertFlushed(0), steps, last);
    assert Init(s0) && Leads(s0, [InsertFlushed(0)] + steps, last);
  }

  lemma CleanedUnderReader(s3: State) returns (steps: seq<Step>, last: State)
    requires s3 == State(map[0 := 0], map[], map[7 := map[0 := Location(0, 0)]], map[], 1,
      Looking(7, 0, Location(0, 0), 0, false))
    ensures Leads(s3, steps, last) && last.reader.Missed?
  {
    hide Leads;
    var s4 := s3.(index := map[7 := map[]]);
    var s5 := s4.(stores := map[]);
    var s6 := s5.(reader := s5.reader.(misses := 1));
    var s7 := s5.(reader := s5.reader.(misses := 2));
    last := s5.(reader := Missed(7, 0, Location(0, 0)));
    Still(last);
    LeadsStep(s7, LookUp, [], last);
    steps := [LookUp] + [];
    LeadsStep(s6, LookUp, steps, last);
    steps := [LookUp] + steps;
    LeadsStep(s5, LookUp, steps, last);
    steps := [LookUp] + steps;
    assert Next(s4, RemoveStore(0)) == s5;
    LeadsStep(s4, RemoveStore(0), steps, last);
    steps := [RemoveStore(0)] + steps;
    assert Next(s3, PurgeEntry(7, 0)) == s4;
    LeadsStep(s3, PurgeEntry(7, 0), steps, last);
    steps := [PurgeEntry(7, 0)] + steps;
  }

  /** A lookup made while the index entry is locked finds its store: it never misses all three reads. */
  lemma LockedLookUpFinds(first: State, steps: seq<Step>, st: State)
    requires Init(first) && Leads(first, steps, st) && st.reader.Looking? && st.reader.locked && st.reader.misses == 2
    ensures Enabled(st, LookUp) && Next(st, LookUp).reader == Found(st.reader.k, st.reader.slot, st.reader.loc)
  {
    hide Leads;
    RunKeepsInv(first, steps, st);
  }

  /** The store of a slot that has just been rewritten: in the shrink-in-progress map only, and named by the index. */
  function Rewritten(stores: map<Slot, StoreId>, shrinking: map<Slot, StoreId>, jobs: map<Slot, ShrinkJob>,
                     reader: Reader): State {
    State(stores, shrinking, map[7 := map[0 := Location(1, 0)]], jobs, 2, reader)
  }

  ghost predicate TwoReadsMissed(st: State) {
    && st.reader.Looking? && st.reader.misses == 2
    && st.reader.slot in Entries(st, st.reader.k) && Entries(st, st.reader.k)[st.reader.slot] == st.reader.loc
  }

  /** The third read is needed: the first two can miss a store that the index names all the while. */
  lemma TwoReadsCanMissANamedStore()
    ensures exists first, steps, st :: Init(first) && Leads(first, steps, st) && TwoReadsMissed(st)
  {
    hide Leads;
    var s0 := State(map[], map[], map[], map[], 0, Idle);
    var s1 := State(map[0 := 0], map[], map[], map[], 1, Idle);
    var s2 := s1.(index := map[7 := map[0 := Location(0, 0)]]);
    var s3 := s2.(shrinking := map[0 := 1], jobs := map[0 := Rewriting(0, 1, {7})], nextId := 2);
    var s4 := Rewritten(map[0 := 0], map[0 := 1], map[0 := Rewriting(0, 1, {})], Idle);
    var rest, last := TheRace();
    assert Naming(s2, 0, 0) == {7};
    assert {7} - {7} == {} && map[0 := Location(0, 0)][0 := Location(1, 0)] == map[0 := Location(1, 0)];
    assert Next(s3, ReplaceEntry(7, 0, 0)).index == s4.index && Next(s3, ReplaceEntry(7, 0, 0)).jobs == s4.jobs;
    LeadsStep(s3, ReplaceEntry(7, 0, 0), rest, last);
    var steps := [ReplaceEntry(7, 0, 0)] + rest;
    assert Next(s2, StartShrink(0)) == s3;
    LeadsStep(s2, StartShrink(0), steps, last);
    steps := [StartShrink(0)] + steps;
    assert Next(s1, IndexFlushed(7, 0, 0)) == s2;
    LeadsStep(s1, IndexFlushed(7, 0, 0), steps, last);
    steps := [IndexFlushed(7, 0, 0)] + steps;
    assert Next(s0, InsertFlushed(0)) == s1;
    LeadsStep(s0, InsertFlushed(0), steps, last);
    assert Init(s0) && Leads(s0, [InsertFlushed(0)] + steps, last);
  }

  /** The map is read before the swap and the shrink-in-progress map after it is cleared. */
  lemma TheRace() returns (steps: seq<Step>, last: State)
    ensures Leads(Rewritten(map[0 := 0], map[0 := 1], map[0 := Rewriting(0, 1, {})], Idle), steps, last)
    ensures TwoReadsMissed(last)
  {
    hide Leads;
    var s4 := Rewritten(map[0 := 0], map[0 := 1], map[0 := Rewriting(0, 1, {})], Idle);
    var s5 := s4.(reader := Looking(7, 0, Location(1, 0), 0, false));
    steps, last := SecondMiss();
    assert Next(s5, LookUp) == s5.(reader := s5.reader.(misses := 1));
    LeadsStep(s5, LookUp, steps, last);
    steps := [LookUp] + steps;
    assert Next(s4, ReadIndex(7, 0, false)) == s5;
    LeadsStep(s4, ReadIndex(7, 0, false), steps, last);
    steps := [ReadIndex(7, 0, false)] + steps;
  }

  lemma SecondMiss() returns (steps: seq<Step>, last: State)
    ensures Leads(Rewritten(map[0 := 0], map[0 := 1], map[0 := Rewriting(0, 1, {})],
                            Looking(7, 0, Location(1, 0), 1, false)), steps, last)
    ensures TwoReadsMissed(last)
  {
    hide Leads;
    var looking := Looking(7, 0, Location(1, 0), 1, false);
    var s6 := Rewritten(map[0 := 0], map[0 := 1], map[0 := Rewriting(0, 1, {})], looking);
    var s7 := Rewritten(map[0 := 1], map[0 := 1], map[0 := Swapped(1)], looking);
    var s8 := Rewritten(map[0 := 1], map[], map[], looking);
    last := s8.(reader := looking.(misses := 2));
    Still(last);
    LeadsStep(s8, LookUp, [], last);
    steps := [LookUp] + [];
    assert Next(s7, FinishShrink(0)) == s8;
    LeadsStep(s7, FinishShrink(0), steps, last);
    steps := [FinishShrink(0)] + steps;
    assert Next(s6, SwapStore(0)) == s7;
    LeadsStep(s6, SwapStore(0), steps, last);
    steps := [SwapStore(0)] + steps;
  }

  lemma Still(st: State)
    ensures Leads(st, [], st)
  {
  }

  lemma LeadsStep(st: State, step: Step, rest: seq<Step>, last: State)
    requires Enabled(st, step) && Leads(Next(st, step), rest, last)
    ensures Leads(st, [step] + rest, last)
  {
    hide Next, Enabled;
    assert ([step] + rest)[1..] == rest;
  }
}
