/** Locks on the accounts of transactions: many readers or one writer per key, taken a batch at a time. */
module AccountLocks {
  import opened Types
  import opened Sums

  datatype TransactionError = AccountInUse | TooManyAccountLocks | AccountLoadedTwice | Other(code: nat)
  datatype Result<+T> = Ok(value: T) | Err(error: TransactionError)

  /** A key and whether the transaction writes to it. */
  type Key = (Pubkey, bool)

  // ---------- validation ----------

  predicate HasDuplicates(keys: seq<Pubkey>) {
    exists i: nat, j: nat :: i < j < |keys| && keys[i] == keys[j]
  }

  const USE_ACCOUNT_LOCK_SET_SIZE := 32

  /** Large key lists go through a set, small ones are compared pair by pair. */
  method FindDuplicates(keys: seq<Pubkey>) returns (found: bool)
    ensures found <==> HasDuplicates(keys)
  {
    if |keys| >= USE_ACCOUNT_LOCK_SET_SIZE {
      found := FindDuplicatesBySet(keys);
    } else {
      found := FindDuplicatesByPairs(keys);
    }
  }

  method FindDuplicatesBySet(keys: seq<Pubkey>) returns (found: bool)
    ensures found <==> HasDuplicates(keys)
  {
    var seen: set<Pubkey> := {};
    for i := 0 to |keys|
      invariant forall k :: k in seen <==> k in keys[..i]
      invariant !HasDuplicates(keys[..i])
    {
      assert keys[..i + 1] == keys[..i] + [keys[i]];
      if keys[i] in seen {
        var j: nat :| j < i && keys[..i][j] == keys[i];
        assert keys[j] == keys[i];
        return true;
      }
      seen := seen + {keys[i]};
    }
    assert keys[..|keys|] == keys;
    return false;
  }

  method FindDuplicatesByPairs(keys: seq<Pubkey>) returns (found: bool)
    ensures found <==> HasDuplicates(keys)
  {
    for i := 0 to |keys|
      invariant forall p: nat, q: nat :: p < i && p < q < |keys| ==> keys[p] != keys[q]
    {
      for j := i + 1 to |keys|
        invariant forall q: nat :: i < q < j ==> keys[i] != keys[q]
      {
        if keys[i] == keys[j] {
          return true;
        }
      }
    }
    return false;
  }

  /** The length is checked before the keys are. */
  method ValidateAccountLocks(keys: seq<Pubkey>, limit: nat) returns (r: Result<()>)
    ensures r == if |keys| > limit then Err(TooManyAccountLocks) else if HasDuplicates(keys)
      then Err(AccountLoadedTwice) else Ok(())
  {
    if |keys| > limit {
      return Err(TooManyAccountLocks);
    }
    var found := FindDuplicates(keys);
    r := if found then Err(AccountLoadedTwice) else Ok(());
  }

  // ---------- counting holders ----------

  function Occurs(keys: seq<Key>, k: Pubkey, writable: bool): nat {
    multiset(keys)[(k, writable)]
  }

  function CountOf(locks: map<Pubkey, nat>, k: Pubkey): nat {
    if k in locks then locks[k] else 0
  }

  predicate Positive(locks: map<Pubkey, nat>) {
    forall k :: k in locks ==> 0 < locks[k]
  }

  lemma SameLocks(a: map<Pubkey, nat>, b: map<Pubkey, nat>)
    requires Positive(a) && Positive(b) && forall k :: CountOf(a, k) == CountOf(b, k)
    ensures a == b
  {
    forall k ensures k in a <==> k in b {
      assert CountOf(a, k) == CountOf(b, k);
    }
    forall k | k in a ensures a[k] == b[k] {
      assert CountOf(a, k) == CountOf(b, k);
    }
  }

  /** Two transactions conflict on a key that one of them writes and the other uses. */
  predicate Conflicts(a: seq<Key>, b: seq<Key>) {
    exists i: nat, j: nat :: i < |a| && j < |b| && a[i].0 == b[j].0 && (a[i].1 || b[j].1)
  }

  /** A transaction whose accounts are locked, and the batch it was locked with. */
  datatype Holder = Holder(batch: nat, keys: seq<Key>)

  ghost function Uses(held: map<nat, Holder>, k: Pubkey, writable: bool): map<nat, int> {
    map t | t in held :: Occurs(held[t].keys, k, writable)
  }

  /** Every count is the number of times outstanding transactions hold the key that way. */
  ghost predicate CountsHolders(locks: map<Pubkey, nat>, held: map<nat, Holder>, writable: bool) {
    forall k :: CountOf(locks, k) == Sum(Uses(held, k, writable))
  }

  ghost predicate NoConflicts(held: map<nat, Holder>) {
    forall t, u :: t in held && u in held && held[t].batch != held[u].batch ==> !Conflicts(held[t].keys, held[u].keys)
  }

  lemma UsesPut(held: map<nat, Holder>, t: nat, h: Holder, k: Pubkey, writable: bool)
    requires t !in held
    ensures Sum(Uses(held[t := h], k, writable)) == Sum(Uses(held, k, writable)) + Occurs(h.keys, k, writable)
  {
    hide Sum;
    SumPut(Uses(held, k, writable), t, Occurs(h.keys, k, writable));
    SumMissing(Uses(held, k, writable), t);
    assert Uses(held[t := h], k, writable) == Uses(held, k, writable)[t := Occurs(h.keys, k, writable)];
  }

  lemma UsesTake(held: map<nat, Holder>, t: nat, k: Pubkey, writable: bool)
    requires t in held
    ensures Sum(Uses(held - {t}, k, writable)) == Sum(Uses(held, k, writable)) - Occurs(held[t].keys, k, writable)
    ensures Occurs(held[t].keys, k, writable) <= Sum(Uses(held, k, writable))
  {
    hide Sum;
    SumTake(Uses(held, k, writable), t);
    assert Uses(held - {t}, k, writable) == Uses(held, k, writable) - {t};
    SumIsNat(Uses(held - {t}, k, writable));
  }

  /** A key is free in a mode exactly when no outstanding transaction holds it in that mode. */
  lemma {:induction false} FreeMeansUnused(held: map<nat, Holder>, k: Pubkey, writable: bool)
    ensures Sum(Uses(held, k, writable)) == 0 <==> forall t :: t in held ==> (k, writable) !in held[t].keys
  {
    hide Sum;
    forall t | t in held ensures Sum(Uses(held, k, writable)) == 0 ==> (k, writable) !in held[t].keys {
      UsesTake(held, t, k, writable);
    }
    if forall t :: t in held ==> (k, writable) !in held[t].keys {
      AllZero(Uses(held, k, writable));
    }
  }

  lemma {:induction false} AllZero(m: map<nat, int>)
    requires forall t :: t in m ==> m[t] == 0
    ensures Sum(m) == 0
    decreases |m|
  {
    if m != map[] {
      var t :| t in m;
      SumTake(m, t);
      AllZero(m - {t});
    }
  }

  // ---------- the locks ----------

  function Gain(locks: map<Pubkey, nat>, k: Pubkey): map<Pubkey, nat> {
    locks[k := CountOf(locks, k) + 1]
  }

  /** The entry goes when its count reaches zero; a key that was not locked is left alone. */
  function Lose(locks: map<Pubkey, nat>, k: Pubkey): map<Pubkey, nat>
    requires Positive(locks)
  {
    if k !in locks then locks else if locks[k] == 1 then locks - {k} else locks[k := locks[k] - 1]
  }

  predicate CanLock(writeLocks: map<Pubkey, nat>, readonlyLocks: map<Pubkey, nat>, key: Key) {
    CountOf(writeLocks, key.0) == 0 && (key.1 ==> CountOf(readonlyLocks, key.0) == 0)
  }

  predicate CanLockAll(writeLocks: map<Pubkey, nat>, readonlyLocks: map<Pubkey, nat>, keys: seq<Key>) {
    forall i: nat :: i < |keys| ==> CanLock(writeLocks, readonlyLocks, keys[i])
  }

  /** The locks let a transaction through exactly when it conflicts with no outstanding one. */
  lemma CanLockMeansNoConflict(writeLocks: map<Pubkey, nat>, readonlyLocks: map<Pubkey, nat>, held: map<nat, Holder>,
                               keys: seq<Key>)
    requires CountsHolders(writeLocks, held, true) && CountsHolders(readonlyLocks, held, false)
    ensures CanLockAll(writeLocks, readonlyLocks, keys) <==> forall t :: t in held ==> !Conflicts(keys, held[t].keys)
  {
    hide Sum;
    forall i: nat | i < |keys|
      ensures CanLock(writeLocks, readonlyLocks, keys[i]) <==>
        forall t, j: nat :: t in held && j < |held[t].keys| && held[t].keys[j].0 == keys[i].0 ==>
          !keys[i].1 && !held[t].keys[j].1
    {
      CanLockKey(writeLocks, readonlyLocks, held, keys[i]);
    }
  }

  lemma CanLockKey(writeLocks: map<Pubkey, nat>, readonlyLocks: map<Pubkey, nat>, held: map<nat, Holder>, key: Key)
    requires CountsHolders(writeLocks, held, true) && CountsHolders(readonlyLocks, held, false)
    ensures CanLock(writeLocks, readonlyLocks, key) <==>
      forall t, j: nat :: t in held && j < |held[t].keys| && held[t].keys[j].0 == key.0 ==> !key.1 && !held[t].keys[j].1
  {
    hide Sum;
    FreeMeansUnused(held, key.0, true);
    FreeMeansUnused(held, key.0, false);
    assert CountOf(writeLocks, key.0) == Sum(Uses(held, key.0, true));
    assert CountOf(readonlyLocks, key.0) == Sum(Uses(held, key.0, false));
    ByPosition(held, key.0, true);
    ByPosition(held, key.0, false);
  }

  lemma ByPosition(held: map<nat, Holder>, k: Pubkey, writable: bool)
    ensures (forall t :: t in held ==> (k, writable) !in held[t].keys)
      <==> forall t, j: nat ::
        t in held && j < |held[t].keys| && held[t].keys[j].0 == k ==> held[t].keys[j].1 != writable
  {
  }

  /** `locks` is `base` with the keys of one mode added. */
  ghost predicate Gained(base: map<Pubkey, nat>, locks: map<Pubkey, nat>, keys: seq<Key>, writable: bool) {
    Positive(locks) && forall k :: CountOf(locks, k) == CountOf(base, k) + Occurs(keys, k, writable)
  }

  /** `locks` is `base` with the keys of one mode taken away. */
  ghost predicate Lost(base: map<Pubkey, nat>, locks: map<Pubkey, nat>, keys: seq<Key>, writable: bool) {
    Positive(locks) && forall k :: CountOf(locks, k) == CountOf(base, k) - Occurs(keys, k, writable)
  }

  lemma NothingGained(locks: map<Pubkey, nat>, keys: seq<Key>, writable: bool)
    requires Positive(locks)
    ensures Gained(locks, locks, keys[..0], writable)
  {
  }

  lemma NothingLost(locks: map<Pubkey, nat>, keys: seq<Key>, writable: bool)
    requires Positive(locks)
    ensures Lost(locks, locks, keys[..0], writable)
  {
  }

  lemma OccursNext(keys: seq<Key>, i: nat, k: Pubkey, writable: bool)
    requires i < |keys|
    ensures Occurs(keys[..i + 1], k, writable) ==
      Occurs(keys[..i], k, writable) + (if keys[i] == (k, writable) then 1 else 0)
    ensures Occurs(keys[..i + 1], k, writable) <= Occurs(keys, k, writable)
  {
    assert keys[..i + 1] == keys[..i] + [keys[i]];
    assert keys == keys[..i + 1] + keys[i + 1..];
  }

  lemma GainNext(base: map<Pubkey, nat>, locks: map<Pubkey, nat>, keys: seq<Key>, i: nat, writable: bool)
    requires i < |keys| && Gained(base, locks, keys[..i], writable)
    ensures Gained(base, if keys[i].1 == writable then Gain(locks, keys[i].0) else locks, keys[..i + 1], writable)
  {
    hide Occurs;
    var locks' := if keys[i].1 == writable then Gain(locks, keys[i].0) else locks;
    var next := keys[..i + 1];
    assert Positive(locks');
    forall k ensures CountOf(locks', k) == CountOf(base, k) + Occurs(next, k, writable) {
      OccursNext(keys, i, k, writable);
    }
  }

  lemma LoseNext(base: map<Pubkey, nat>, locks: map<Pubkey, nat>, keys: seq<Key>, i: nat, writable: bool)
    requires i < |keys| && Lost(base, locks, keys[..i], writable)
    requires forall k :: Occurs(keys, k, writable) <= CountOf(base, k)
    ensures keys[i].1 == writable ==> keys[i].0 in locks
    ensures Lost(base, if keys[i].1 == writable then Lose(locks, keys[i].0) else locks, keys[..i + 1], writable)
  {
    hide Occurs;
    OccursNext(keys, i, keys[i].0, writable);
    var locks' := if keys[i].1 == writable then Lose(locks, keys[i].0) else locks;
    var next := keys[..i + 1];
    assert Positive(locks');
    forall k ensures CountOf(locks', k) == CountOf(base, k) - Occurs(next, k, writable) {
      OccursNext(keys, i, k, writable);
    }
  }

  class AccountLocks {
    var writeLocks: map<Pubkey, nat>
    var readonlyLocks: map<Pubkey, nat>
    ghost var held: map<nat, Holder>
    ghost var nextTransaction: nat
    ghost var nextBatch: nat

    ghost predicate Valid()
      reads this
    {
      && Positive(writeLocks) && Positive(readonlyLocks)
      && CountsHolders(writeLocks, held, true) && CountsHolders(readonlyLocks, held, false)
      && NoConflicts(held)
      && (forall t :: t in held ==> t < nextTransaction && held[t].batch < nextBatch)
    }

    constructor ()
      ensures Valid() && held == map[]
    {
      writeLocks, readonlyLocks, held, nextTransaction, nextBatch := map[], map[], map[], 0, 0;
    }

    method CanLockAccounts(keys: seq<Key>) returns (r: Result<()>)
      ensures r == if CanLockAll(writeLocks, readonlyLocks, keys) then Ok(()) else Err(AccountInUse)
    {
      for i := 0 to |keys|
        invariant forall j: nat :: j < i ==> CanLock(writeLocks, readonlyLocks, keys[j])
      {
        var (key, writable) := keys[i];
        if writable {
          if CountOf(readonlyLocks, key) > 0 || CountOf(writeLocks, key) > 0 {
            return Err(AccountInUse);
          }
        } else if CountOf(writeLocks, key) > 0 {
          return Err(AccountInUse);
        }
      }
      return Ok(());
    }

    method LockAccounts(keys: seq<Key>)
      requires Positive(writeLocks) && Positive(readonlyLocks)
      modifies `writeLocks, `readonlyLocks
      ensures Gained(old(writeLocks), writeLocks, keys, true) && Gained(old(readonlyLocks), readonlyLocks, keys, false)
    {
      hide Gained, Gain;
      NothingGained(writeLocks, keys, true);
      NothingGained(readonlyLocks, keys, false);
      for i := 0 to |keys|
        invariant Gained(old(writeLocks), writeLocks, keys[..i], true)
        invariant Gained(old(readonlyLocks), readonlyLocks, keys[..i], false)
      {
        GainNext(old(writeLocks), writeLocks, keys, i, true);
        GainNext(old(readonlyLocks), readonlyLocks, keys, i, false);
        if keys[i].1 {
          writeLocks := Gain(writeLocks, keys[i].0);
        } else {
          readonlyLocks := Gain(readonlyLocks, keys[i].0);
        }
      }
      assert keys[..|keys|] == keys;
    }

    /** Releases locks taken before: every key is still locked the way it is released. */
    method UnlockAccounts(keys: seq<Key>)
      requires Positive(writeLocks) && Positive(readonlyLocks)
      requires forall k :: Occurs(keys, k, true) <= CountOf(writeLocks, k)
      requires forall k :: Occurs(keys, k, false) <= CountOf(readonlyLocks, k)
      modifies `writeLocks, `readonlyLocks
      ensures Lost(old(writeLocks), writeLocks, keys, true) && Lost(old(readonlyLocks), readonlyLocks, keys, false)
    {
      hide Occurs, CountOf;
      NothingLost(writeLocks, keys, true);
      NothingLost(readonlyLocks, keys, false);
      for i := 0 to |keys|
        invariant Lost(old(writeLocks), writeLocks, keys[..i], true)
        invariant Lost(old(readonlyLocks), readonlyLocks, keys[..i], false)
      {
        LoseNext(old(writeLocks), writeLocks, keys, i, true);
        LoseNext(old(readonlyLocks), readonlyLocks, keys, i, false);
        if keys[i].1 {
          assert keys[i].0 in writeLocks;
          writeLocks := Lose(writeLocks, keys[i].0);
        } else {
          assert keys[i].0 in readonlyLocks;
          readonlyLocks := Lose(readonlyLocks, keys[i].0);
        }
      }
      assert keys[..|keys|] == keys;
    }

    /** Locks one transaction that conflicts with nothing outside its batch. */
    method Take(keys: seq<Key>, ghost batch: nat)
      requires Valid() && batch < nextBatch
      requires forall t :: t in held && held[t].batch != batch ==> !Conflicts(keys, held[t].keys)
      modifies this
      ensures Valid() && held == old(held)[old(nextTransaction) := Holder(batch, keys)]
      ensures nextTransaction == old(nextTransaction) + 1 && nextBatch == old(nextBatch)
    {
      hide CountsHolders, Gained, Conflicts;
      LockAccounts(keys);
      ghost var h := Holder(batch, keys);
      GainCounts(old(writeLocks), writeLocks, held, nextTransaction, h, true);
      GainCounts(old(readonlyLocks), readonlyLocks, held, nextTransaction, h, false);
      NoNewConflicts(held, nextTransaction, h);
      held := held[nextTransaction := h];
      nextTransaction := nextTransaction + 1;
    }

    /** Fails each transaction that conflicts with an outstanding one; nothing is locked yet. */
    method CheckBatch(requests: seq<Result<seq<Key>>>) returns (available: seq<Result<seq<Key>>>)
      requires Valid()
      ensures |available| == |requests|
      ensures forall j: nat :: j < |requests| ==> available[j] == Checked(held, requests[j])
    {
      hide Conflicts, CountsHolders;
      available := [];
      for i := 0 to |requests|
        invariant |available| == i
        invariant forall j: nat :: j < i ==> available[j] == Checked(held, requests[j])
      {
        var checked := requests[i];
        if requests[i].Ok? {
          CanLockMeansNoConflict(writeLocks, readonlyLocks, held, requests[i].value);
          var r := CanLockAccounts(requests[i].value);
          if r.Err? {
            checked := Err(r.error);
          }
        }
        available := available + [checked];
      }
    }

    /**
     Locks every transaction of a batch that conflicts with no outstanding one. All are checked
     before any is locked, so transactions of the same batch do not stand in each other's way.
     */
    method TryLockTransactionBatch(requests: seq<Result<seq<Key>>>) returns (results: seq<Result<()>>)
      requires Valid()
      modifies this
      ensures Valid() && |results| == |requests|
      ensures forall i: nat :: i < |requests| ==> results[i] == Outcome(old(held), requests[i])
      ensures held == Joined(old(held), requests, |requests|, old(nextTransaction), old(nextBatch))
    {
      hide Conflicts, CountsHolders;
      var available := CheckBatch(requests);
      ghost var before, base, batch := held, nextTransaction, nextBatch;
      nextBatch := nextBatch + 1;
      results := [];
      for i := 0 to |available|
        invariant Valid() && |results| == i && nextBatch == batch + 1 && nextTransaction == base + i
        invariant forall j: nat :: j < i ==> results[j] == Outcome(before, requests[j])
        invariant held == Joined(before, requests, i, base, batch)
      {
        if available[i].Ok? {
          OthersAreOld(before, requests, i, base, batch);
          Take(available[i].value, batch);
          results := results + [Ok(())];
        } else {
          nextTransaction := nextTransaction + 1;
          results := results + [Err(available[i].error)];
        }
      }
    }

    /** Ends an outstanding transaction: its locks, and only its locks, are given back. */
    method Release(ghost t: nat, keys: seq<Key>)
      requires Valid() && t in held && held[t].keys == keys
      modifies this
      ensures Valid() && held == old(held) - {t}
    {
      hide Lost, Occurs, Conflicts, Sum;
      forall k
        ensures Occurs(keys, k, true) <= CountOf(writeLocks, k) && Occurs(keys, k, false) <= CountOf(readonlyLocks, k) {
        UsesTake(held, t, k, true);
        UsesTake(held, t, k, false);
      }
      UnlockAccounts(keys);
      LoseCounts(old(writeLocks), writeLocks, held, t, true);
      LoseCounts(old(readonlyLocks), readonlyLocks, held, t, false);
      held := held - {t};
    }

    /** Ends the transactions of a batch that were locked, and skips the ones that failed. */
    method UnlockBatch(requests: seq<Result<seq<Key>>>, results: seq<Result<()>>, ghost base: nat)
      requires Valid() && |results| == |requests|
      requires forall i: nat :: i < |results| && results[i].Ok? ==>
        requests[i].Ok? && base + i in held && held[base + i].keys == requests[i].value
      modifies this
      ensures Valid() && held == old(held) - Ids(results, base, |results|)
    {
      hide Valid;
      for i := 0 to |results|
        invariant Valid() && held == old(held) - Ids(results, base, i)
      {
        if results[i].Ok? {
          Release(base + i, requests[i].value);
        }
      }
    }

    /** Locking a batch and then unlocking it gives back exactly the locks there were. */
    method LockAndUnlockBatch(requests: seq<Result<seq<Key>>>)
      requires Valid()
      modifies this
      ensures Valid() && held == old(held)
      ensures writeLocks == old(writeLocks) && readonlyLocks == old(readonlyLocks)
    {
      hide Conflicts, Sum, CountsHolders, Joined, Ids;
      ghost var base, batch := nextTransaction, nextBatch;
      var results := TryLockTransactionBatch(requests);
      JoinedThenEnded(old(held), requests, results, |requests|, base, batch);
      UnlockBatch(requests, results, base);
      HoldersDetermineLocks(writeLocks, old(writeLocks), held, true);
      HoldersDetermineLocks(readonlyLocks, old(readonlyLocks), held, false);
    }
  }

  /** The transactions among the first `n` of a batch that were locked. */
  ghost function Ids(results: seq<Result<()>>, base: nat, n: nat): (ids: set<nat>)
    requires n <= |results|
    ensures forall t :: t in ids ==> base <= t < base + n
  {
    if n == 0 then {} else Ids(results, base, n - 1) + (if results[n - 1].Ok? then {base + n - 1} else {})
  }

  lemma {:induction false} JoinedThenEnded(held: map<nat, Holder>, requests: seq<Result<seq<Key>>>,
                                           results: seq<Result<()>>, n: nat, base: nat, batch: nat)
    requires n <= |requests| == |results| && forall t :: t in held ==> t < base
    requires forall i: nat :: i < |requests| ==> results[i] == Outcome(held, requests[i])
    ensures Joined(held, requests, n, base, batch) - Ids(results, base, n) == held
    ensures forall t :: t in Joined(held, requests, n, base, batch) ==> t < base + n
    ensures forall i: nat :: i < n && results[i].Ok? ==>
      && requests[i].Ok? && base + i in Joined(held, requests, n, base, batch)
      && Joined(held, requests, n, base, batch)[base + i].keys == requests[i].value
  {
    hide Conflicts;
    if n > 0 {
      JoinedThenEnded(held, requests, results, n - 1, base, batch);
    }
  }

  /** The outstanding transactions determine the lock counts. */
  lemma HoldersDetermineLocks(a: map<Pubkey, nat>, b: map<Pubkey, nat>, held: map<nat, Holder>, writable: bool)
    requires Positive(a) && Positive(b) && CountsHolders(a, held, writable) && CountsHolders(b, held, writable)
    ensures a == b
  {
    hide Sum, CountOf;
    forall k ensures CountOf(a, k) == CountOf(b, k) {
      assert CountOf(a, k) == Sum(Uses(held, k, writable));
    }
    SameLocks(a, b);
  }

  /** Transactions that already failed stay failed; the others must pass validation before they ask for locks. */
  method ValidateBatch(txs: seq<seq<Key>>, results: seq<Result<()>>, limit: nat)
    returns (requests: seq<Result<seq<Key>>>)
    requires |txs| == |results|
    ensures |requests| == |txs|
    ensures forall i: nat :: i < |txs| ==>
      && (requests[i].Ok? <==> results[i].Ok? && |txs[i]| <= limit && !HasDuplicates(Pubkeys(txs[i])))
      && (requests[i].Ok? ==> requests[i].value == txs[i])
      && (results[i].Err? ==> requests[i] == Err(results[i].error))
      && (results[i].Ok? && |txs[i]| > limit ==> requests[i] == Err(TooManyAccountLocks))
      && (results[i].Ok? && |txs[i]| <= limit && HasDuplicates(Pubkeys(txs[i])) ==>
            requests[i] == Err(AccountLoadedTwice))
  {
    requests := [];
    for i := 0 to |txs|
      invariant |requests| == i
      invariant forall j: nat :: j < i ==>
        && (requests[j].Ok? <==> results[j].Ok? && |txs[j]| <= limit && !HasDuplicates(Pubkeys(txs[j])))
        && (requests[j].Ok? ==> requests[j].value == txs[j])
        && (results[j].Err? ==> requests[j] == Err(results[j].error))
        && (results[j].Ok? && |txs[j]| > limit ==> requests[j] == Err(TooManyAccountLocks))
        && (results[j].Ok? && |txs[j]| <= limit && HasDuplicates(Pubkeys(txs[j])) ==>
              requests[j] == Err(AccountLoadedTwice))
    {
      if results[i].Err? {
        requests := requests + [Err(results[i].error)];
      } else {
        var r := ValidateAccountLocks(Pubkeys(txs[i]), limit);
        requests := requests + [if r.Err? then Err(r.error) else Ok(txs[i])];
      }
    }
  }

  function Pubkeys(keys: seq<Key>): (r: seq<Pubkey>)
    ensures |r| == |keys|
  {
    seq(|keys|, i requires 0 <= i < |keys| => keys[i].0)
  }

  /** What the first pass makes of a request: it fails if it conflicts with an outstanding transaction. */
  ghost function Checked(held: map<nat, Holder>, request: Result<seq<Key>>): Result<seq<Key>> {
    if request.Ok? && exists t ::
      t in held && Conflicts(request.value, held[t].keys) then Err(AccountInUse) else request
  }

  ghost function Outcome(held: map<nat, Holder>, request: Result<seq<Key>>): Result<()> {
    var checked := Checked(held, request);
    if checked.Ok? then Ok(()) else Err(checked.error)
  }

  /** The outstanding transactions once the first `n` requests have been served. */
  ghost function Joined(held: map<nat, Holder>, requests: seq<Result<seq<Key>>>, n: nat, base: nat,
                        batch: nat): map<nat, Holder>
    requires n <= |requests|
  {
    if n == 0 then held
    else
      var before := Joined(held, requests, n - 1, base, batch);
      if Outcome(held, requests[n - 1]).Ok? then before[base + n - 1 := Holder(batch, requests[n - 1].value)]
        else before
  }

  lemma {:induction false} OthersAreOld(held: map<nat, Holder>, requests: seq<Result<seq<Key>>>, n: nat, base: nat,
                                        batch: nat)
    requires n <= |requests|
    ensures var joined := Joined(held, requests, n, base, batch);
      forall t :: t in joined && joined[t].batch != batch ==> t in held && joined[t] == held[t]
  {
    if n > 0 {
      OthersAreOld(held, requests, n - 1, base, batch);
    }
  }

  lemma GainCounts(base: map<Pubkey, nat>, locks: map<Pubkey, nat>, held: map<nat, Holder>, t: nat, h: Holder,
                   writable: bool)
    requires t !in held && CountsHolders(base, held, writable) && Gained(base, locks, h.keys, writable)
    ensures Positive(locks) && CountsHolders(locks, held[t := h], writable)
  {
    hide Sum, Occurs;
    var held' := held[t := h];
    forall k ensures CountOf(locks, k) == Sum(Uses(held', k, writable)) {
      UsesPut(held, t, h, k, writable);
    }
  }

  lemma LoseCounts(base: map<Pubkey, nat>, locks: map<Pubkey, nat>, held: map<nat, Holder>, t: nat, writable: bool)
    requires t in held && CountsHolders(base, held, writable) && Lost(base, locks, held[t].keys, writable)
    ensures Positive(locks) && CountsHolders(locks, held - {t}, writable)
  {
    hide Sum, Occurs;
    var held' := held - {t};
    forall k ensures CountOf(locks, k) == Sum(Uses(held', k, writable)) {
      UsesTake(held, t, k, writable);
    }
  }

  lemma NoNewConflicts(held: map<nat, Holder>, t: nat, h: Holder)
    requires NoConflicts(held) && t !in held
    requires forall u :: u in held && held[u].batch != h.batch ==> !Conflicts(h.keys, held[u].keys)
    ensures NoConflicts(held[t := h])
  {
    hide Conflicts;
    forall u | u in held && held[u].batch != h.batch ensures !Conflicts(held[u].keys, h.keys) {
      ConflictIsMutual(held[u].keys, h.keys);
    }
  }

  lemma ConflictIsMutual(a: seq<Key>, b: seq<Key>)
    ensures Conflicts(a, b) ==> Conflicts(b, a)
  {
  }
}
