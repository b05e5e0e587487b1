/**
 Which slots clean can delete outright. A slot can go when nothing alive is left in it once the
 candidate keys are gone, and a candidate key can go only with all the slots that hold it.
 */
module DeleteSolver {
  import opened Types

  /** A key clean would like to purge: the slots holding it up to the clean root, and its reference count. */
  datatype CleaningInfo = CleaningInfo(slots: set<Slot>, refCount: nat)

  /** What would be left in a slot without the candidates, and which candidates it holds. */
  datatype StoreCount = StoreCount(count: nat, keys: set<Pubkey>)

  type Candidates = map<Pubkey, CleaningInfo>
  type StoreCounts = map<Slot, StoreCount>

  /** Counts are kept for exactly the slots of candidates, each with exactly its candidates. */
  ghost predicate Consistent(candidates: Candidates, counts: StoreCounts) {
    && (forall k, s :: k in candidates && s in candidates[k].slots ==> s in counts && k in counts[s].keys)
    && (forall s, k :: s in counts && k in counts[s].keys ==> k in candidates && s in candidates[k].slots)
    && (forall s :: s in counts ==> counts[s].keys != {})
  }

  /**
   A set of slots that can go together: each is left empty, and every candidate in one of them is in
   no other slot, neither another candidate slot nor one the clean does not look at.
   */
  ghost predicate Deletable(candidates: Candidates, counts: StoreCounts, slots: set<Slot>) {
    && (forall s :: s in slots ==> s in counts && counts[s].count == 0)
    && (forall k, s :: k in candidates && s in candidates[k].slots && s in slots ==>
          |candidates[k].slots| == candidates[k].refCount && candidates[k].slots <= slots)
  }

  /** Slots that have been ruled out drag along every candidate they hold. */
  ghost predicate Closed(candidates: Candidates, counts: StoreCounts, out: set<Slot>) {
    forall s, k :: s in out && s in counts && k in counts[s].keys && k in candidates ==> candidates[k].slots <= out
  }

  /** Nothing deletable is ruled out. */
  ghost predicate Sound(candidates: Candidates, counts: StoreCounts, out: set<Slot>) {
    forall slots :: Deletable(candidates, counts, slots) ==> slots !! out
  }

  ghost function Without(counts: StoreCounts, out: set<Slot>): StoreCounts {
    map s | s in counts && s !in out :: counts[s]
  }

  /** The candidate can go as far as the remaining counts tell. */
  predicate CanGo(info: CleaningInfo, counts: StoreCounts) {
    |info.slots| == info.refCount && forall s :: s in info.slots ==> s in counts && counts[s].count == 0
  }

  /** A candidate that cannot go takes all its slots out of reach. */
  lemma BlockedIsOut(candidates: Candidates, counts: StoreCounts, out: set<Slot>, k: Pubkey)
    requires Sound(candidates, counts, out) && k in candidates && !CanGo(candidates[k], Without(counts, out))
    ensures Sound(candidates, counts, out + candidates[k].slots)
  {
    forall slots | Deletable(candidates, counts, slots) ensures slots !! out + candidates[k].slots {
      assert slots !! out;
      if s :| s in slots && s in candidates[k].slots {
        assert forall t :: t in candidates[k].slots ==> t in slots && t !in out;
        assert false;
      }
    }
  }

  /** A slot that cannot go takes every slot of its candidates with it. */
  lemma DependentIsOut(candidates: Candidates, counts: StoreCounts, out: set<Slot>, slot: Slot, k: Pubkey)
    requires Sound(candidates, counts, out) && slot in out && k in candidates && slot in candidates[k].slots
    ensures Sound(candidates, counts, out + candidates[k].slots)
  {
    forall slots | Deletable(candidates, counts, slots) ensures slots !! out + candidates[k].slots {
      assert slots !! out;
      assert forall s :: s in slots && s in candidates[k].slots ==> slot in slots;
    }
  }

  /** Once every candidate is settled, what is left can go, and nothing else can. */
  lemma LeftIsDeletable(candidates: Candidates, counts: StoreCounts, out: set<Slot>)
    requires Consistent(candidates, counts) && Sound(candidates, counts, out)
    requires forall k :: k in candidates ==> CanGo(candidates[k], Without(counts, out)) || candidates[k].slots <= out
    ensures Deletable(candidates, counts, Without(counts, out).Keys)
    ensures forall slots :: Deletable(candidates, counts, slots) ==> slots <= Without(counts, out).Keys
  {
    var left := Without(counts, out);
    forall s | s in left ensures counts[s].count == 0 {
      var k :| k in counts[s].keys;
      assert s in candidates[k].slots;
    }
    forall slots | Deletable(candidates, counts, slots) ensures slots <= left.Keys {
      assert slots !! out;
    }
  }

  lemma StillSettled(candidates: Candidates, counts: StoreCounts, out: set<Slot>, out': set<Slot>, k: Pubkey)
    requires Consistent(candidates, counts) && Closed(candidates, counts, out') && out <= out' && k in candidates
    requires CanGo(candidates[k], Without(counts, out)) || candidates[k].slots <= out
    ensures CanGo(candidates[k], Without(counts, out')) || candidates[k].slots <= out'
  {
    if s :| s in candidates[k].slots && s in out' {
      assert k in counts[s].keys;
    }
  }

  /**
   Leaves in `left` exactly the largest set of slots that can be deleted together. Candidates and
   pending slots may be taken in any order; the result does not depend on it.
   */
  method CalcDeleteDependencies(candidates: Candidates, counts: StoreCounts) returns (left: StoreCounts)
    requires Consistent(candidates, counts)
    ensures Deletable(candidates, counts, left.Keys)
    ensures forall slots :: Deletable(candidates, counts, slots) ==> slots <= left.Keys
    ensures forall s :: s in left ==> left[s] == counts[s]
  {
    left := counts;
    var counted: set<Slot> := {};
    var todo := candidates.Keys;
    while todo != {}
      invariant todo <= candidates.Keys
      invariant left == Without(counts, counted)
      invariant Closed(candidates, counts, counted) && Sound(candidates, counts, counted)
      invariant forall k ::
        k in candidates && k !in todo ==> CanGo(candidates[k], left) || candidates[k].slots <= counted
    {
      var k :| k in todo;
      if !CanGo(candidates[k], left) {
        BlockedIsOut(candidates, counts, counted, k);
        ghost var was := counted;
        left, counted := RuleOut(candidates, counts, left, counted, candidates[k].slots);
        forall j | j in candidates && j !in todo ensures CanGo(candidates[j], left) || candidates[j].slots <= counted {
          StillSettled(candidates, counts, was, counted, j);
        }
      }
      todo := todo - {k};
    }
    LeftIsDeletable(candidates, counts, counted);
  }

  /** Rules out `pending` and everything that depends on it. */
  method RuleOut(candidates: Candidates, ghost counts: StoreCounts, before: StoreCounts, already: set<Slot>,
                 start: set<Slot>)
    returns (left: StoreCounts, counted: set<Slot>)
    requires Consistent(candidates, counts) && before == Without(counts, already)
    requires Closed(candidates, counts, already) && Sound(candidates, counts, already + start)
    requires forall s :: s in start ==> s in counts
    ensures left == Without(counts, counted) && already + start <= counted
    ensures Closed(candidates, counts, counted) && Sound(candidates, counts, counted)
  {
    left, counted := before, already;
    var pending := start - already;
    while pending != {}
      invariant left == Without(counts, counted) && already <= counted && start <= counted + pending
      invariant pending !! counted && forall s :: s in pending ==> s in counts
      invariant Sound(candidates, counts, counted + pending)
      invariant forall s, k ::
        s in counted && s in counts && k in counts[s].keys && k in candidates ==>
        candidates[k].slots <= counted + pending
      decreases counts.Keys - counted
    {
      var slot :| slot in pending;
      assert counted + pending == counted + {slot} + (pending - {slot});
      pending := pending - {slot};
      var affected := left[slot].keys;
      counted := counted + {slot};
      left := left - {slot};
      var keys := affected;
      while keys != {}
        invariant keys <= affected && forall s :: s in pending ==> s in counts
        invariant pending !! counted && start <= counted + pending
        invariant Sound(candidates, counts, counted + pending)
        invariant forall s, k ::
          s in counted && s != slot && s in counts && k in counts[s].keys && k in candidates ==>
          candidates[k].slots <= counted + pending
        invariant forall k :: k in affected && k !in keys ==> candidates[k].slots <= counted + pending
      {
        var k :| k in keys;
        DependentIsOut(candidates, counts, counted + pending, slot, k);
        assert counted + pending + candidates[k].slots == counted + (pending + (candidates[k].slots - counted));
        pending := pending + (candidates[k].slots - counted);
        keys := keys - {k};
      }
    }
  }

  /** Whatever the order of iteration, the slots left are the same. */
  lemma OrderDoesNotMatter(candidates: Candidates, counts: StoreCounts, one: StoreCounts, two: StoreCounts)
    requires Deletable(candidates, counts, one.Keys)
    requires forall slots :: Deletable(candidates, counts, slots) ==> slots <= one.Keys
    requires Deletable(candidates, counts, two.Keys)
    requires forall slots :: Deletable(candidates, counts, slots) ==> slots <= two.Keys
    requires (forall s :: s in one ==> one[s] == counts[s]) && (forall s :: s in two ==> two[s] == counts[s])
    ensures one == two
  {
    assert one.Keys <= two.Keys && two.Keys <= one.Keys;
    SameMap(one, two);
  }
}
