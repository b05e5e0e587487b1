/** The roots that scans under way have pinned, and the bound they put on cleaning. */
module ScanTracker {
  import opened Types

  datatype ScanGuard = ScanGuard(maxRoot: Slot, bankId: nat)

  /** The guards pinning a root. */
  ghost function Pinning(guards: map<nat, ScanGuard>, root: Slot): set<nat> {
    set g | g in guards && guards[g].maxRoot == root
  }

  ghost function PinnedRoots(guards: map<nat, ScanGuard>): set<Slot> {
    set g | g in guards :: guards[g].maxRoot
  }

  /** Each pinned root is counted once per guard, and only pinned roots are. */
  ghost predicate CountsScans(ongoing: map<Slot, nat>, guards: map<nat, ScanGuard>) {
    forall r :: CountsRoot(ongoing, r, Pinning(guards, r))
  }

  predicate CountsRoot(ongoing: map<Slot, nat>, r: Slot, pinning: set<nat>) {
    (r in ongoing <==> pinning != {}) && (r in ongoing ==> ongoing[r] == |pinning|)
  }

  function Pin(ongoing: map<Slot, nat>, root: Slot): map<Slot, nat> {
    ongoing[root := (if root in ongoing then ongoing[root] else 0) + 1]
  }

  function Unpin(ongoing: map<Slot, nat>, root: Slot): map<Slot, nat>
    requires root in ongoing && 0 < ongoing[root]
  {
    if ongoing[root] == 1 then ongoing - {root} else ongoing[root := ongoing[root] - 1]
  }

  lemma PinRoot(ongoing: map<Slot, nat>, r: Slot, pinning: set<nat>, g: nat)
    requires CountsRoot(ongoing, r, pinning) && g !in pinning
    ensures CountsRoot(Pin(ongoing, r), r, pinning + {g})
  {
  }

  lemma UnpinRoot(ongoing: map<Slot, nat>, r: Slot, pinning: set<nat>, g: nat)
    requires CountsRoot(ongoing, r, pinning) && g in pinning
    ensures r in ongoing && 0 < ongoing[r] && CountsRoot(Unpin(ongoing, r), r, pinning - {g})
  {
    assert |pinning - {g}| == |pinning| - 1;
  }

  lemma PinCounts(ongoing: map<Slot, nat>, guards: map<nat, ScanGuard>, g: nat, guard: ScanGuard)
    requires CountsScans(ongoing, guards) && g !in guards
    ensures CountsScans(Pin(ongoing, guard.maxRoot), guards[g := guard])
    ensures |guards[g := guard]| == |guards| + 1
  {
    var now := guards[g := guard];
    assert now.Keys == guards.Keys + {g};
    forall r ensures CountsRoot(Pin(ongoing, guard.maxRoot), r, Pinning(now, r)) {
      assert CountsRoot(ongoing, r, Pinning(guards, r));
      if r == guard.maxRoot {
        PinRoot(ongoing, r, Pinning(guards, r), g);
        assert Pinning(now, r) == Pinning(guards, r) + {g};
      } else {
        assert Pinning(now, r) == Pinning(guards, r);
      }
    }
  }

  lemma UnpinCounts(ongoing: map<Slot, nat>, guards: map<nat, ScanGuard>, g: nat)
    requires CountsScans(ongoing, guards) && g in guards
    ensures guards[g].maxRoot in ongoing && 0 < ongoing[guards[g].maxRoot]
    ensures CountsScans(Unpin(ongoing, guards[g].maxRoot), guards - {g})
    ensures |guards - {g}| == |guards| - 1
  {
    var root, left := guards[g].maxRoot, guards - {g};
    assert left.Keys == guards.Keys - {g};
    assert CountsRoot(ongoing, root, Pinning(guards, root)) && g in Pinning(guards, root);
    UnpinRoot(ongoing, root, Pinning(guards, root), g);
    forall r ensures CountsRoot(Unpin(ongoing, root), r, Pinning(left, r)) {
      assert CountsRoot(ongoing, r, Pinning(guards, r));
      if r == root {
        assert Pinning(left, r) == Pinning(guards, r) - {g};
      } else {
        assert Pinning(left, r) == Pinning(guards, r);
      }
    }
  }

  predicate Lowest(roots: set<Slot>, r: Option<Slot>) {
    match r
    case None => roots == {}
    case Some(low) => low in roots && forall s :: s in roots ==> low <= s
  }

  /** The bound on cleaning: the lower of the lowest pinned root and the proposed root, if there are any. */
  function CleanRoot(lowestScan: Option<Slot>, proposed: Option<Slot>): Option<Slot> {
    match (lowestScan, proposed)
    case (None, None) => None
    case (Some(low), None) => Some(low)
    case (None, Some(p)) => Some(p)
    case (Some(low), Some(p)) => Some(if low < p then low else p)
  }

  predicate AtMost(bound: Option<Slot>, root: Slot) {
    bound.Some? && bound.value <= root
  }

  class ScanTracker {
    var ongoing: map<Slot, nat>      // pinned root to number of scans
    var activeScans: nat
    var removedBanks: set<nat>
    ghost var guards: map<nat, ScanGuard>
    ghost var nextGuard: nat

    ghost predicate Valid()
      reads this
    {
      && CountsScans(ongoing, guards)
      && activeScans == |guards|
      && (forall g :: g in guards ==> g < nextGuard)
    }

    constructor ()
      ensures Valid() && guards == map[] && removedBanks == {}
    {
      ongoing, activeScans, removedBanks, guards, nextGuard := map[], 0, {}, map[], 0;
    }

    /** Pins the maximum root, unless the bank to scan has been removed. */
    method TryNew(bankId: nat, maxRoot: Slot) returns (guard: Option<ScanGuard>)
      requires Valid()
      modifies `ongoing, `activeScans, `guards, `nextGuard
      ensures Valid()
      ensures guard == if bankId in removedBanks then None else Some(ScanGuard(maxRoot, bankId))
      ensures guards == if bankId in removedBanks then old(guards)
        else old(guards)[old(nextGuard) := ScanGuard(maxRoot, bankId)]
    {
      if bankId in removedBanks {
        return None;
      }
      hide CountsScans;
      PinCounts(ongoing, guards, nextGuard, ScanGuard(maxRoot, bankId));
      ongoing, activeScans := Pin(ongoing, maxRoot), activeScans + 1;
      guards, nextGuard := guards[nextGuard := ScanGuard(maxRoot, bankId)], nextGuard + 1;
      return Some(ScanGuard(maxRoot, bankId));
    }

    /** Unpins the root when the scan ends; the root is always still there. */
    method Drop(guard: ScanGuard, ghost g: nat)
      requires Valid() && g in guards && guards[g] == guard
      modifies `ongoing, `activeScans, `guards
      ensures Valid() && guards == old(guards) - {g}
    {
      hide CountsScans;
      UnpinCounts(ongoing, guards, g);
      ongoing, activeScans := Unpin(ongoing, guard.maxRoot), activeScans - 1;
      guards := guards - {g};
    }

    method MinOngoingScanRoot() returns (r: Option<Slot>)
      requires Valid()
      ensures Lowest(PinnedRoots(guards), r)
    {
      ghost var roots := PinnedRoots(guards);
      forall s ensures s in roots <==> s in ongoing {
        assert CountsRoot(ongoing, s, Pinning(guards, s));
        if s in roots {
          var g :| g in guards && guards[g].maxRoot == s;
          assert g in Pinning(guards, s);
        }
      }
      assert roots == ongoing.Keys;
      if ongoing.Keys == {} {
        return None;
      }
      var lo, _ := Bounds(ongoing.Keys);
      return Some(lo);
    }

    /** No clean goes past the root pinned by a scan under way. */
    method MaxCleanRoot(proposed: Option<Slot>) returns (r: Option<Slot>)
      requires Valid()
      ensures exists low :: Lowest(PinnedRoots(guards), low) && r == CleanRoot(low, proposed)
      ensures forall g :: g in guards ==> AtMost(r, guards[g].maxRoot)
      ensures proposed.Some? ==> AtMost(r, proposed.value)
      ensures r.Some? ==> proposed == r || exists g :: g in guards && guards[g].maxRoot == r.value
      ensures r.None? <==> proposed.None? && guards == map[]
    {
      var low := MinOngoingScanRoot();
      assert forall g :: g in guards ==> guards[g].maxRoot in PinnedRoots(guards);
      r := CleanRoot(low, proposed);
      if guards == map[] {
        assert PinnedRoots(guards) == {};
      }
    }
  }
}
