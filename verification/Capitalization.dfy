/** The capitalization computed by walking the index and correcting for the write cache. */
module Capitalization {
  import opened Types
  import opened Sums
  import L = Ledger
  import P = LedgerProofs

  function Balance(account: Option<Account>): nat {
    if account.None? then 0 else account.value.lamports
  }

  /** What the index alone answers for a key. */
  ghost function StoredBalance(l: L.Ledger, ancestors: set<Slot>, k: Pubkey): nat {
    Balance(L.Newest(L.AncestorsFirst(L.Stored(l, k), ancestors, L.Stored(l, k))))
  }

  ghost function StoredBalances(l: L.Ledger, ancestors: set<Slot>, keys: set<Pubkey>): map<Pubkey, int> {
    map k | k in keys :: StoredBalance(l, ancestors, k)
  }

  /** What a load adds to, or takes from, the stored balance of a cached key. */
  ghost function CacheUpdates(l: L.Ledger, ancestors: set<Slot>, keys: set<Pubkey>): map<Pubkey, int> {
    map k | k in keys :: Balance(L.LookUp(l, ancestors, k)) - StoredBalance(l, ancestors, k)
  }

  /** The walk over the index, then the update for the keys in the cache. */
  ghost function FromIndex(l: L.Ledger, ancestors: set<Slot>, indexed: set<Pubkey>, cached: set<Pubkey>): int {
    Sum(StoredBalances(l, ancestors, indexed)) + Sum(CacheUpdates(l, ancestors, cached))
  }

  ghost function LoadedBalances(l: L.Ledger, ancestors: set<Slot>, keys: set<Pubkey>): map<Pubkey, int> {
    map k | k in keys :: match L.Load(l, ancestors, k) case None => 0 case Some(account) => account.lamports
  }

  lemma NothingFirst(m: map<Slot, Account>, unflushed: set<Slot>, ancestors: set<Slot>)
    ensures var roots := map s | s in m && s in unflushed :: m[s];
      m == map[] ==> L.AncestorsFirst(m, ancestors, roots) == map[]
  {
  }

  lemma NotCached(l: L.Ledger, ancestors: set<Slot>, k: Pubkey)
    requires L.Cached(l, k) == map[]
    ensures Balance(L.LookUp(l, ancestors, k)) == StoredBalance(l, ancestors, k)
  {
    NothingFirst(L.Cached(l, k), l.unflushed, ancestors);
  }

  lemma NotStored(l: L.Ledger, ancestors: set<Slot>, k: Pubkey)
    requires L.Stored(l, k) == map[]
    ensures StoredBalance(l, ancestors, k) == 0
  {
    var none: map<Slot, Account> := map[];
    assert L.AncestorsFirst(none, ancestors, none) == map[];
  }

  /** The result is the sum of what a load answers for every key there is. */
  lemma FromIndexIsSumOfLoads(l: L.Ledger, ancestors: set<Slot>, indexed: set<Pubkey>, cached: set<Pubkey>)
    requires L.Inv(l) && L.RootsComeFirst(l, ancestors)
    requires forall k :: L.Stored(l, k) != map[] ==> k in indexed
    requires forall k :: L.Cached(l, k) != map[] ==> k in cached
    ensures FromIndex(l, ancestors, indexed, cached) == Sum(LoadedBalances(l, ancestors, indexed + cached))
  {
    hide Sum, L.Inv, L.LookUp, L.Load, StoredBalance;
    var all := indexed + cached;
    var stored, updates := StoredBalances(l, ancestors, all), CacheUpdates(l, ancestors, all);
    forall k | k in all
      ensures k !in indexed ==> stored[k] == 0
      ensures k !in cached ==> updates[k] == 0
      ensures Balance(L.Load(l, ancestors, k)) == stored[k] + updates[k]
    {
      if k !in indexed { NotStored(l, ancestors, k); }
      if k !in cached { NotCached(l, ancestors, k); }
      P.LookUpIsLoad(l, ancestors, k);
    }
    SumDropsZeroes(stored, all - indexed);
    SumDropsZeroes(updates, all - cached);
    assert stored - (all - indexed) == StoredBalances(l, ancestors, indexed);
    assert updates - (all - cached) == CacheUpdates(l, ancestors, cached);
    SumOfPairs(stored, updates, LoadedBalances(l, ancestors, all));
  }
}
