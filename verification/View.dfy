/** The ledger a store stands for. */
module View {
  import opened Types
  import opened StorageEntry
  import opened AccountsIndex
  import L = Ledger

  ghost function ViewOf(index: Index, storages: Storages, rest: L.Ledger): (l: L.Ledger)
    ensures l == rest.(stored := l.stored, graves := l.graves)
  {
    rest.(stored := map k | k in index :: Versions(index, storages, k), graves := Buried(storages))
  }

  lemma ViewHolds(index: Index, storages: Storages, rest: L.Ledger, k: Pubkey)
    ensures L.Stored(ViewOf(index, storages, rest), k) == Versions(index, storages, k)
    ensures forall s :: s in L.Graves(ViewOf(index, storages, rest), k) <==> s in storages && k in storages[s].Buried()
  {
    if k !in index {
      assert Versions(index, storages, k) == map[];
    }
  }

  lemma ViewHasNoEmpty(index: Index, storages: Storages, pending: Locations, rest: L.Ledger)
    requires EntriesOk(index) && NoDangling(index, storages, pending)
    ensures forall k :: k in ViewOf(index, storages, rest).stored ==> ViewOf(index, storages, rest).stored[k] != map[]
  {
    var l := ViewOf(index, storages, rest);
    forall k | k in l.stored ensures l.stored[k] != map[] {
      VersionsAreSlots(index, storages, pending, k);
      assert l.stored[k].Keys == index[k].slotList.Keys;
    }
  }
}
