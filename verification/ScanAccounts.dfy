/** The two passes of a scan: the write cache first, then the index, while the store keeps changing. */
module ScanAccounts {
  import opened Types
  import opened Ledger
  import opened LedgerProofs
  import opened LedgerRuns
  import W = WriteCache

  type Found = (Account, Slot)

  /** The cached versions of a key that the bank sees. */
  function CachedSeen(l: Ledger, ancestors: set<Slot>, k: Pubkey): map<Slot, Account> {
    map s | s in Cached(l, k) && SeesCached(l.unflushed, ancestors, s) :: Cached(l, k)[s]
  }

  /** The stored ones. */
  function StoredSeen(l: Ledger, ancestors: set<Slot>, k: Pubkey): map<Slot, Account> {
    map s | s in Stored(l, k) && Sees(ancestors, s) :: Stored(l, k)[s]
  }

  /** What is reported for a key, given what the cache pass and the index pass found for it. */
  function Report(cached: Option<Found>, stored: Option<Found>): Option<Found> {
    if cached.Some? && (stored.None? || stored.value.1 <= cached.value.1) then cached else stored
  }

  // ---------- what is visible only goes away ----------

  predicate Within(m: map<Slot, Account>, n: map<Slot, Account>) {
    forall s :: s in m ==> s in n && n[s] == m[s]
  }

  predicate WithinEither(m: map<Slot, Account>, n: map<Slot, Account>, o: map<Slot, Account>) {
    forall s :: s in m ==> (s in n && n[s] == m[s]) || (s in o && o[s] == m[s])
  }

  lemma StepShrinksCached(l: Ledger, step: Step, l': Ledger, ancestors: set<Slot>, root: Slot, k: Pubkey)
    requires Inv(l) && Next(l, step, l') && SeesRoots(l, ancestors, root) && Respects(l, step, ancestors)
    ensures Within(CachedSeen(l', ancestors, k), CachedSeen(l, ancestors, k))
  {
  }

  lemma StepShrinksStored(l: Ledger, step: Step, l': Ledger, ancestors: set<Slot>, k: Pubkey)
    requires Next(l, step, l')
    ensures WithinEither(StoredSeen(l', ancestors, k), StoredSeen(l, ancestors, k), CachedSeen(l, ancestors, k))
  {
  }

  // ---------- what a scan reports ----------

  /** What a reported version says about a key: nothing is visible, or this account is. */
  function Answer(r: Option<Found>): Option<Account> {
    if r.None? then None else Alive(r.value.0)
  }

  lemma SeenSplits(l: Ledger, ancestors: set<Slot>, k: Pubkey)
    requires Inv(l) && RootsComeFirst(l, ancestors)
    ensures var seen := Seen(Stored(l, k), Cached(l, k), l.unflushed, ancestors);
      && (forall s :: s in seen <==> s in StoredSeen(l, ancestors, k) || s in CachedSeen(l, ancestors, k))
      && Within(StoredSeen(l, ancestors, k), seen) && Within(CachedSeen(l, ancestors, k), seen)
    ensures forall s, c :: s in StoredSeen(l, ancestors, k) && c in CachedSeen(l, ancestors, k) ==> s < c
  {
    CacheIsNewerHolds(l, ancestors, k);
    assert SlotsOrdered(l, k);
    hide Inv, RootsComeFirst;
  }

  /** The newest visible cached version is the newest of all. */
  lemma CachedAnswers(l: Ledger, ancestors: set<Slot>, k: Pubkey, cached: Option<Found>)
    requires Inv(l) && RootsComeFirst(l, ancestors)
    requires W.IsNewest(CachedSeen(l, ancestors, k), cached) && cached.Some?
    ensures Load(l, ancestors, k) == Answer(cached)
  {
    SeenSplits(l, ancestors, k);
    hide Inv, CachedSeen, StoredSeen, Seen, RootsComeFirst;
    NewestIs(Seen(Stored(l, k), Cached(l, k), l.unflushed, ancestors), cached.value.1);
  }

  /** With nothing cached to see, the newest stored version answers. */
  lemma StoredAnswers(l: Ledger, ancestors: set<Slot>, k: Pubkey, stored: Option<Found>)
    requires Inv(l) && RootsComeFirst(l, ancestors) && CachedSeen(l, ancestors, k).Keys == {}
    requires W.IsNewest(StoredSeen(l, ancestors, k), stored)
    ensures Load(l, ancestors, k) == Answer(stored)
  {
    SeenSplits(l, ancestors, k);
    hide Inv, CachedSeen, StoredSeen, Seen, RootsComeFirst;
    var seen := Seen(Stored(l, k), Cached(l, k), l.unflushed, ancestors);
    if stored.Some? {
      NewestIs(seen, stored.value.1);
    } else {
      assert forall s :: s !in seen;
      assert seen == map[];
    }
  }

  /** What the two passes report, when nothing new has come into view between them and loads agree. */
  lemma PassesReportNewest(l: Ledger, l': Ledger, ancestors: set<Slot>, k: Pubkey, cached: Option<Found>,
                           stored: Option<Found>)
    requires Inv(l) && RootsComeFirst(l, ancestors) && Inv(l') && RootsComeFirst(l', ancestors)
    requires Load(l', ancestors, k) == Load(l, ancestors, k)
    requires Within(CachedSeen(l', ancestors, k), CachedSeen(l, ancestors, k))
    requires WithinEither(StoredSeen(l', ancestors, k), StoredSeen(l, ancestors, k), CachedSeen(l, ancestors, k))
    requires W.IsNewest(CachedSeen(l, ancestors, k), cached) && W.IsNewest(StoredSeen(l', ancestors, k), stored)
    ensures Answer(Report(cached, stored)) == Load(l, ancestors, k)
  {
    hide Inv, CachedSeen, StoredSeen, Load, RootsComeFirst;
    if cached.Some? {
      CachedAnswers(l, ancestors, k, cached);
      SeenSplits(l, ancestors, k);
    } else {
      StoredAnswers(l', ancestors, k, stored);
    }
  }

  // ---------- the searches of the two passes ----------

  function Visible(m: map<Slot, Account>, ancestors: set<Slot>, roots: map<Slot, Account>): map<Slot, Account> {
    map s | s in m && (s in ancestors || (s in roots && Sees(ancestors, s))) :: m[s]
  }

  /** Looking at ancestors first finds the newest of everything visible. */
  lemma FirstIsNewest(m: map<Slot, Account>, ancestors: set<Slot>, roots: map<Slot, Account>, r: Option<Found>)
    requires forall s :: s in roots ==> s in m && roots[s] == m[s]
    requires W.IsNewest(AncestorsFirst(m, ancestors, roots), r)
    ensures W.IsNewest(Visible(m, ancestors, roots), r)
  {
    var visible := Visible(m, ancestors, roots);
    if a :| a in m && a in ancestors {
      W.MineFirst(m, ancestors, roots, a);
      assert a in AncestorsFirst(m, ancestors, roots);
      var (account, top) := r.value;
      assert top in visible && visible[top] == account && top in ancestors;
      forall s | s in visible ensures s <= top {
        assert s in ancestors ==> s in AncestorsFirst(m, ancestors, roots);
      }
    } else {
      W.RootsFirst(m, ancestors, roots);
      assert visible == AncestorsFirst(m, ancestors, roots);
    }
  }

  /** The cache search finds the newest cached version the bank sees. */
  lemma CachePassFinds(l: Ledger, ancestors: set<Slot>, k: Pubkey, r: Option<Found>)
    requires W.IsNewest(W.Choice(Cached(l, k), l.unflushed, ancestors), r)
    ensures W.IsNewest(CachedSeen(l, ancestors, k), r)
  {
    var cached := Cached(l, k);
    var roots := map s | s in cached && s in l.unflushed :: cached[s];
    FirstIsNewest(cached, ancestors, roots, r);
    assert CachedSeen(l, ancestors, k) == Visible(cached, ancestors, roots);
  }

  /** The index search, with roots bounded by the pinned one, finds the newest stored version the bank sees. */
  lemma IndexPassFinds(l: Ledger, ancestors: set<Slot>, root: Slot, k: Pubkey, r: Option<Found>)
    requires root in ancestors && W.IsNewest(AncestorsFirst(Stored(l, k), ancestors, UpTo(Stored(l, k), root)), r)
    ensures W.IsNewest(StoredSeen(l, ancestors, k), r)
  {
    var stored := Stored(l, k);
    var roots := UpTo(stored, root);
    FirstIsNewest(stored, ancestors, roots, r);
    assert StoredSeen(l, ancestors, k) == Visible(stored, ancestors, roots);
  }

  // ---------- one report per key ----------

  function At(m: map<Pubkey, Found>, k: Pubkey): Option<Found> {
    if k in m then Some(m[k]) else None
  }

  /** What the index pass found, by key. */
  function ByKey(visits: seq<(Pubkey, Found)>): map<Pubkey, Found> {
    if visits == [] then map[] else ByKey(visits[..|visits| - 1])[visits[|visits| - 1].0 := visits[|visits| - 1].1]
  }

  predicate DistinctKeys(out: seq<(Pubkey, Found)>) {
    forall i: nat, j: nat :: i < j < |out| ==> out[i].0 != out[j].0
  }

  /** Every key found in either pass, with the version to report. */
  function Merged(cached: map<Pubkey, Found>, stored: map<Pubkey, Found>): map<Pubkey, Found> {
    MergedOver(cached, stored, cached.Keys + stored.Keys)
  }

  function MergedOver(cached: map<Pubkey, Found>, stored: map<Pubkey, Found>,
                      keys: set<Pubkey>): (m: map<Pubkey, Found>)
    requires keys <= cached.Keys + stored.Keys
    ensures m.Keys == keys
  {
    map k | k in keys :: Report(At(cached, k), At(stored, k)).value
  }

  lemma MergeVisit(cached: map<Pubkey, Found>, stored: map<Pubkey, Found>, k: Pubkey, f: Found)
    requires k !in stored
    ensures MergedOver(cached, stored[k := f], stored[k := f].Keys) ==
      MergedOver(cached, stored, stored.Keys)[k := Report(At(cached, k), Some(f)).value]
  {
  }

  lemma MergeLeft(cached: map<Pubkey, Found>, stored: map<Pubkey, Found>, keys: set<Pubkey>, k: Pubkey)
    requires keys <= cached.Keys + stored.Keys && k in cached && k !in stored
    ensures MergedOver(cached, stored, keys + {k}) == MergedOver(cached, stored, keys)[k := cached[k]]
  {
  }

  lemma {:induction false} ByKeyHas(visits: seq<(Pubkey, Found)>)
    requires DistinctKeys(visits)
    ensures forall k :: k in ByKey(visits) <==> exists i: nat :: i < |visits| && visits[i].0 == k
    ensures forall i: nat :: i < |visits| ==> visits[i].0 in ByKey(visits) && ByKey(visits)[visits[i].0] == visits[i].1
  {
    if visits != [] {
      ByKeyHas(visits[..|visits| - 1]);
    }
  }

  lemma AppendReport(out: seq<(Pubkey, Found)>, k: Pubkey, f: Found)
    requires DistinctKeys(out) && k !in ByKey(out)
    ensures DistinctKeys(out + [(k, f)]) && ByKey(out + [(k, f)]) == ByKey(out)[k := f]
  {
    ByKeyHas(out);
    var more := out + [(k, f)];
    assert more[..|out|] == out && more[|out|] == (k, f);
    forall i: nat, j: nat | i < j < |more| ensures more[i].0 != more[j].0 {
      assert more[i] == out[i];
    }
  }

  /** Reports the newer version of each key visited, and strikes it off the cached versions. */
  method VisitIndex(cached: map<Pubkey, Found>, visits: seq<(Pubkey, Found)>)
    returns (out: seq<(Pubkey, Found)>, left: map<Pubkey, Found>)
    requires DistinctKeys(visits)
    ensures left == cached - ByKey(visits).Keys
    ensures DistinctKeys(out) && ByKey(out) == MergedOver(cached, ByKey(visits), ByKey(visits).Keys)
  {
    hide MergedOver, DistinctKeys;
    out, left := [], cached;
    assert DistinctKeys([]) by { NoReports(); }
    for i := 0 to |visits|
      invariant left == cached - ByKey(visits[..i]).Keys
      invariant DistinctKeys(out) && ByKey(out) == MergedOver(cached, ByKey(visits[..i]), ByKey(visits[..i]).Keys)
    {
      var (k, stored) := visits[i];
      NextVisit(visits, i);
      var f := if k in left && stored.1 <= left[k].1 then left[k] else stored;
      MergeVisit(cached, ByKey(visits[..i]), k, stored);
      AppendReport(out, k, f);
      left := left - {k};
      out := out + [(k, f)];
    }
    assert visits[..|visits|] == visits;
  }

  lemma NoReports()
    ensures DistinctKeys([])
  {
  }

  lemma NextVisit(visits: seq<(Pubkey, Found)>, i: nat)
    requires DistinctKeys(visits) && i < |visits|
    ensures visits[i].0 !in ByKey(visits[..i])
    ensures ByKey(visits[..i + 1]) == ByKey(visits[..i])[visits[i].0 := visits[i].1]
  {
    ByKeyHas(visits[..i]);
    assert visits[..i + 1][..i] == visits[..i];
  }

  /**
   Reports each key once: for a key the index pass visits the newer of the two versions, and then
   the cached versions of the keys it did not visit.
   */
  method MergePasses(cached: map<Pubkey, Found>, visits: seq<(Pubkey, Found)>) returns (out: seq<(Pubkey, Found)>)
    requires DistinctKeys(visits)
    ensures DistinctKeys(out) && ByKey(out) == Merged(cached, ByKey(visits))
  {
    hide MergedOver, Report;
    var rest;
    out, rest := VisitIndex(cached, visits);
    ghost var stored := ByKey(visits);
    var todo := rest.Keys;
    assert stored.Keys + (rest.Keys - todo) == stored.Keys;
    while todo != {}
      invariant todo <= rest.Keys && DistinctKeys(out)
      invariant ByKey(out) == MergedOver(cached, stored, stored.Keys + (rest.Keys - todo))
      decreases todo
    {
      var k :| k in todo;
      ghost var done := stored.Keys + (rest.Keys - todo);
      MergeLeft(cached, stored, done, k);
      AppendReport(out, k, rest[k]);
      out := out + [(k, rest[k])];
      todo := todo - {k};
      assert stored.Keys + (rest.Keys - todo) == done + {k};
    }
    assert stored.Keys + (rest.Keys - todo) == cached.Keys + stored.Keys;
  }
}
