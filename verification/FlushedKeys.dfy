/** What flushing many roots, oldest first, makes of the stored versions of one key. */
module FlushedKeys {
  import opened Types

  /** The key's cached versions at the given roots. */
  function HeldBy(cache: map<Slot, map<Pubkey, Account>>, roots: set<Slot>, k: Pubkey): map<Slot, Account> {
    map r | r in roots && r in cache && k in cache[r] :: cache[r][k]
  }

  /**
   The stored versions once one root that holds the key is flushed. Writing an account without
   lamports is skipped while nothing is stored, and with `clean` leaves nothing stored.
   */
  function AfterRoot(stored: map<Slot, Account>, root: Slot, account: Account, clean: bool): map<Slot, Account> {
    if account.IsZeroLamport() && stored == map[] then stored
    else if !clean then stored[root := account]
    else if account.IsZeroLamport() then map[]
    else map[root := account]
  }

  /** The newest of the cleaned roots that hold the key. */
  predicate IsNewestCleaned(held: map<Slot, Account>, clean: set<Slot>, top: Slot) {
    top in held && top in clean && forall r :: r in held && r in clean ==> r <= top
  }

  /** The newest cleaned version has taken the place of everything older, and itself stays if it has lamports. */
  predicate OldestIs(now: map<Slot, Account>, top: Slot, account: Account) {
    && (forall s :: s in now ==> top <= s)
    && (top in now <==> account.lamports > 0)
    && (top in now ==> now[top] == account)
  }

  /** A version that is not cleaned is stored, unless it has no lamports and nothing older is stored. */
  predicate IsStored(now: map<Slot, Account>, root: Slot, account: Account) {
    && (root in now <==> account.lamports > 0 || exists s :: s in now && s < root)
    && (root in now ==> now[root] == account)
  }

  ghost predicate NoneCleaned(held: map<Slot, Account>, clean: set<Slot>, done: set<Slot>) {
    forall top :: IsNewestCleaned(held, clean, top) ==> top !in done
  }

  /** What is stored of a key that `was` stored once the roots in `done` are flushed, of all those that hold it. */
  ghost predicate KeyFlushed(was: map<Slot, Account>, now: map<Slot, Account>, held: map<Slot, Account>,
                             clean: set<Slot>, done: set<Slot>) {
    && (forall top :: IsNewestCleaned(held, clean, top) && top in done ==> OldestIs(now, top, held[top]))
    && (NoneCleaned(held, clean, done) ==> forall s :: s in was ==> s in now && now[s] == was[s])
    && (forall r :: r in held && r in done && r !in clean ==> IsStored(now, r, held[r]))
    && (forall s :: s in now ==>
          || (s in was && NoneCleaned(held, clean, done))
          || (s in done && (IsNewestCleaned(held, clean, s) || (s in held && s !in clean))))
  }

  lemma NoneFlushed(was: map<Slot, Account>, held: map<Slot, Account>, clean: set<Slot>)
    ensures KeyFlushed(was, was, held, clean, {})
  {
  }

  lemma KeyFlushedNext(was: map<Slot, Account>, now: map<Slot, Account>, held: map<Slot, Account>, clean: set<Slot>,
                       done: set<Slot>, root: Slot, next: map<Slot, Account>)
    requires KeyFlushed(was, now, held, clean, done)
    requires (forall s :: s in was ==> s < root) && (forall d :: d in done ==> d < root)
    requires forall r :: r in held && r !in done ==> root <= r
    requires forall c, r :: c in clean && r in held && r !in clean ==> c < r
    requires next == if root in held && (root in clean ==> IsNewestCleaned(held, clean, root))
                     then AfterRoot(now, root, held[root], root in clean) else now
    ensures KeyFlushed(was, next, held, clean, done + {root})
  {
    assert forall s :: s in now ==> s < root;
    if root in held && root in clean && IsNewestCleaned(held, clean, root) {
      CleanedNext(was, now, held, clean, done, root, next);
    } else if root in held && root !in clean {
      PlainNext(was, now, held, clean, done, root, next);
    } else {
      assert forall top :: IsNewestCleaned(held, clean, top) ==> top != root;
    }
  }

  lemma CleanedNext(was: map<Slot, Account>, now: map<Slot, Account>, held: map<Slot, Account>, clean: set<Slot>,
                    done: set<Slot>, root: Slot, next: map<Slot, Account>)
    requires KeyFlushed(was, now, held, clean, done) && IsNewestCleaned(held, clean, root)
    requires (forall s :: s in now ==> s < root) && (forall d :: d in done ==> d < root)
    requires forall c, r :: c in clean && r in held && r !in clean ==> c < r
    requires next == AfterRoot(now, root, held[root], true)
    ensures KeyFlushed(was, next, held, clean, done + {root})
  {
    assert forall top :: IsNewestCleaned(held, clean, top) ==> top == root;
    assert root in done + {root};
  }

  lemma PlainNext(was: map<Slot, Account>, now: map<Slot, Account>, held: map<Slot, Account>, clean: set<Slot>,
                  done: set<Slot>, root: Slot, next: map<Slot, Account>)
    requires KeyFlushed(was, now, held, clean, done) && root in held && root !in clean
    requires (forall s :: s in now ==> s < root) && (forall d :: d in done ==> d < root)
    requires next == AfterRoot(now, root, held[root], false)
    ensures KeyFlushed(was, next, held, clean, done + {root})
  {
    assert NoneCleaned(held, clean, done) <==> NoneCleaned(held, clean, done + {root});
    if s :| s in now {
      assert s in next && s < root;
    }
    forall r | r in held && r in done && r !in clean ensures IsStored(next, r, held[r]) {
      assert IsStored(now, r, held[r]) && r < root;
      assert forall s :: s < root ==> (s in next <==> s in now);
    }
  }
}
