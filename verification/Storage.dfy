/**
 One slot's accounts file and what is remembered about it: which records are tombstones, which are
 obsolete, and how many records and bytes are alive.
 */
module StorageEntry {
  import opened Types

  datatype Record = Record(key: Pubkey, account: Account)

  function RecordSize(r: Record): (size: nat)
    ensures STORE_META_OVERHEAD + |r.account.data| <= size < STORE_META_OVERHEAD + |r.account.data| + 8 && size % 8 == 0
  {
    StoredSize(|r.account.data|)
  }

  datatype Storage = Storage(
    id: nat,
    records: seq<Record>,           // an offset is a position in this sequence
    tombstones: set<nat>,
    obsolete: map<nat, Slot>,       // offset to the slot at which it was marked
    aliveCount: nat,
    aliveBytes: nat)
  {
    /** A live record is one the index points at. */
    predicate Live(i: nat) {
      i < |records| && i !in tombstones && i !in obsolete
    }

    predicate HasOnlyTombstones() {
      |tombstones| > 0 && aliveCount == |tombstones|
    }

    /** The keys of the tombstones. */
    function Buried(): set<Pubkey> {
      set i | i in tombstones && i < |records| :: records[i].key
    }

    predicate Shaped() {
      && (forall i :: i in tombstones ==> i < |records| && i !in obsolete && records[i].account.IsZeroLamport())
      && (forall i :: i in obsolete ==> i < |records|)
      && (forall i, j :: 0 <= i < j < |records| ==> records[i].key != records[j].key)
    }

    /** The counters are exact: every record that is not obsolete is counted. */
    predicate Counted() {
      && aliveCount == CountOutside(|records|, obsolete.Keys)
      && aliveBytes == BytesOutside(records, obsolete.Keys)
    }

    predicate Valid() {
      Shaped() && Counted()
    }
  }

  // ---------- counting ----------

  function CountOutside(n: nat, dead: set<nat>): nat {
    if n == 0 then 0 else CountOutside(n - 1, dead) + if n - 1 in dead then 0 else 1
  }

  function BytesOutside(records: seq<Record>, dead: set<nat>): nat {
    if records == [] then 0
    else
      var n := |records| - 1;
      BytesOutside(records[..n], dead) + if n in dead then 0 else RecordSize(records[n])
  }

  function BytesAt(records: seq<Record>, offsets: set<nat>): nat {
    if records == [] then 0
    else
      var n := |records| - 1;
      BytesAt(records[..n], offsets) + if n in offsets then RecordSize(records[n]) else 0
  }

  ghost predicate Within(offsets: set<nat>, n: nat) {
    forall i :: i in offsets ==> i < n
  }

  lemma {:induction false} CountSplits(n: nat, dead: set<nat>, offsets: set<nat>)
    requires Within(offsets, n) && offsets !! dead
    ensures CountOutside(n, dead + offsets) + |offsets| == CountOutside(n, dead)
  {
    if n == 0 {
      assert offsets == {};
    } else if n - 1 in offsets {
      var rest := offsets - {n - 1};
      CountSplits(n - 1, dead, rest);
      SameBelow(n - 1, dead + offsets, dead + rest);
    } else {
      CountSplits(n - 1, dead, offsets);
    }
  }

  lemma {:induction false} SameBelow(n: nat, dead: set<nat>, dead': set<nat>)
    requires forall i: nat :: i < n ==> (i in dead <==> i in dead')
    ensures CountOutside(n, dead) == CountOutside(n, dead')
  {
    if n > 0 {
      SameBelow(n - 1, dead, dead');
    }
  }

  lemma {:induction false} NoneOutside(n: nat, dead: set<nat>)
    ensures CountOutside(n, dead) == 0 <==> forall i: nat :: i < n ==> i in dead
  {
    if n > 0 {
      NoneOutside(n - 1, dead);
    }
  }

  /** There are as many offsets as records alive exactly when those offsets are all of them. */
  lemma AllAlive(n: nat, dead: set<nat>, offsets: set<nat>)
    requires Within(offsets, n) && offsets !! dead
    ensures |offsets| == CountOutside(n, dead) <==> forall i: nat :: i < n && i !in dead ==> i in offsets
  {
    CountSplits(n, dead, offsets);
    NoneOutside(n, dead + offsets);
  }

  lemma {:induction false} BytesSplit(records: seq<Record>, dead: set<nat>, offsets: set<nat>)
    requires offsets !! dead
    ensures BytesOutside(records, dead + offsets) + BytesAt(records, offsets) == BytesOutside(records, dead)
  {
    if records != [] {
      BytesSplit(records[..|records| - 1], dead, offsets);
    }
  }

  // ---------- what the storage operations compute ----------

  /** A storage just written: everything in it is alive, some of it perhaps tombstones. */
  function Written(id: nat, records: seq<Record>, tombstones: set<nat>): Storage {
    Storage(id, records, tombstones, map[], CountOutside(|records|, {}), BytesOutside(records, {}))
  }

  lemma WrittenIsValid(id: nat, records: seq<Record>, tombstones: set<nat>)
    requires forall i, j :: 0 <= i < j < |records| ==> records[i].key != records[j].key
    requires forall i :: i in tombstones ==> i < |records| && records[i].account.IsZeroLamport()
    ensures Written(id, records, tombstones).Valid()
    ensures records != [] ==> Written(id, records, tombstones).aliveCount > 0
  {
    var none: map<nat, Slot> := map[];
    assert none.Keys == {};
    NoneOutside(|records|, {});
  }

  function Bury(st: Storage, offsets: set<nat>): Storage {
    st.(tombstones := st.tombstones + offsets)
  }

  function Retire(st: Storage, offsets: set<nat>, mark: Slot): Storage
    requires |offsets| <= st.aliveCount && BytesAt(st.records, offsets) <= st.aliveBytes
  {
    st.(aliveCount := st.aliveCount - |offsets|, aliveBytes := st.aliveBytes - BytesAt(st.records, offsets),
        obsolete := map i | i in st.obsolete.Keys + offsets :: if i in offsets then mark else st.obsolete[i])
  }

  /** Old marks stay as they are, and new ones are those of `offsets`, at `mark`. */
  predicate MarkedAt(before: map<nat, Slot>, after: map<nat, Slot>, offsets: set<nat>, mark: Slot) {
    && (forall i :: i in before ==> i in after && after[i] == before[i])
    && (forall i :: i in after && i !in before ==> i in offsets && after[i] == mark)
  }

  lemma RetireMarks(st: Storage, offsets: set<nat>, mark: Slot)
    requires |offsets| <= st.aliveCount && BytesAt(st.records, offsets) <= st.aliveBytes
    requires forall i :: i in offsets ==> i !in st.obsolete
    ensures MarkedAt(st.obsolete, Retire(st, offsets, mark).obsolete, offsets, mark)
  {
    hide BytesAt;
    var after := Retire(st, offsets, mark).obsolete;
    assert forall i :: i in after <==> i in st.obsolete || i in offsets;
  }

  ghost predicate Reclaimable(st: Storage, offsets: set<nat>) {
    forall i :: i in offsets ==> st.Live(i)
  }

  /** Live records can always be taken out of the counters, and the counters stay exact. */
  lemma RetireFits(st: Storage, offsets: set<nat>)
    requires st.Valid() && Reclaimable(st, offsets)
    ensures CountOutside(|st.records|, st.obsolete.Keys + offsets) == st.aliveCount - |offsets|
    ensures BytesOutside(st.records, st.obsolete.Keys + offsets) == st.aliveBytes - BytesAt(st.records, offsets)
  {
    CountSplits(|st.records|, st.obsolete.Keys, offsets);
    BytesSplit(st.records, st.obsolete.Keys, offsets);
  }

  lemma RetireKeepsValid(st: Storage, offsets: set<nat>, mark: Slot)
    requires st.Valid() && Reclaimable(st, offsets)
    ensures |offsets| <= st.aliveCount && BytesAt(st.records, offsets) <= st.aliveBytes
    ensures Retire(st, offsets, mark).Valid()
  {
    RetireFits(st, offsets);
    RetireKeepsShape(st, offsets, mark);
    assert Retire(st, offsets, mark).obsolete.Keys == st.obsolete.Keys + offsets;
  }

  lemma RetireKeepsShape(st: Storage, offsets: set<nat>, mark: Slot)
    requires st.Shaped() && Reclaimable(st, offsets)
    requires |offsets| <= st.aliveCount && BytesAt(st.records, offsets) <= st.aliveBytes
    ensures Retire(st, offsets, mark).Shaped()
  {
  }

  lemma BuryKeepsValid(st: Storage, offsets: set<nat>)
    requires st.Valid() && Reclaimable(st, offsets)
    requires forall i :: i in offsets ==> st.records[i].account.IsZeroLamport()
    ensures Bury(st, offsets).Valid()
  {
  }

  /** Alive records split into live ones and tombstones, so the counts meet exactly when no live one is left. */
  lemma OnlyTombstones(st: Storage)
    requires st.Valid()
    ensures st.aliveCount == |st.tombstones| <==> forall i: nat :: !st.Live(i)
  {
    AllAlive(|st.records|, st.obsolete.Keys, st.tombstones);
    assert (forall i: nat :: !st.Live(i)) <==> forall i: nat ::
      i < |st.records| && i !in st.obsolete.Keys ==> i in st.tombstones by {
      if i: nat :| i < |st.records| && i !in st.obsolete.Keys && i !in st.tombstones {
        assert st.Live(i);
      }
    }
  }

  /** The whole-storage path agrees with the general one: nothing is left alive either way. */
  lemma RetireAll(st: Storage, offsets: set<nat>, mark: Slot)
    requires st.Valid() && Reclaimable(st, offsets) && |offsets| == st.aliveCount
    ensures BytesAt(st.records, offsets) == st.aliveBytes
    ensures Retire(st, offsets, mark).aliveCount == Retire(st, offsets, mark).aliveBytes == 0
  {
    RetireKeepsValid(st, offsets, mark);
    var after := Retire(st, offsets, mark);
    NoneOutside(|st.records|, after.obsolete.Keys);
    NoBytesOutside(st.records, after.obsolete.Keys);
  }

  lemma {:induction false} NoBytesOutside(records: seq<Record>, dead: set<nat>)
    ensures BytesOutside(records, dead) == 0 <==> forall i: nat :: i < |records| ==> i in dead
  {
    if records != [] {
      NoBytesOutside(records[..|records| - 1], dead);
    }
  }

  // ---------- the entry itself ----------

  ghost function ElementsOf(offsets: seq<nat>): set<nat> {
    set i | i in offsets
  }

  lemma NoElements()
    ensures ElementsOf([]) == {}
  {
  }

  lemma OneMoreElement(offsets: seq<nat>, n: nat)
    requires n < |offsets|
    ensures ElementsOf(offsets[..n + 1]) == ElementsOf(offsets[..n]) + {offsets[n]}
  {
    assert offsets[..n + 1] == offsets[..n] + [offsets[n]];
  }

  /** Like `BuryKeepsValid`, where some of the offsets are tombstones already. */
  lemma BuryOffsets(st: Storage, offsets: seq<nat>)
    requires st.Valid()
    requires forall i :: i in offsets ==> i < |st.records| && i !in st.obsolete && st.records[i].account.IsZeroLamport()
    ensures Bury(st, ElementsOf(offsets)).Valid()
  {
  }

  class AccountStorageEntry {
    const id: nat
    var records: seq<Record>
    var tombstones: set<nat>
    var obsolete: map<nat, Slot>
    var count: nat
    var aliveBytes: nat

    ghost function Value(): Storage
      reads this
    {
      Storage(id, records, tombstones, obsolete, count, aliveBytes)
    }

    ghost predicate Valid()
      reads this
    {
      Value().Valid()
    }

    /** A new storage with the accounts written to it. */
    constructor (id: nat, records: seq<Record>)
      requires forall i, j :: 0 <= i < j < |records| ==> records[i].key != records[j].key
      ensures Valid() && Value() == Written(id, records, {})
    {
      WrittenIsValid(id, records, {});
      this.id, this.records, tombstones, obsolete := id, records, {}, map[];
      count, aliveBytes := CountOutside(|records|, {}), BytesOutside(records, {});
    }

    /** Live records become obsolete: the counters fall by exactly what they held, never below zero. */
    method RemoveAccounts(offsets: set<nat>, bytes: nat, mark: Slot) returns (remaining: nat)
      requires Valid() && Reclaimable(Value(), offsets) && bytes == BytesAt(records, offsets)
      modifies `obsolete, `count, `aliveBytes
      ensures Valid() && remaining == count
      ensures |offsets| <= old(count) && BytesAt(records, offsets) <= old(aliveBytes)
      ensures Value() == Retire(old(Value()), offsets, mark)
      ensures MarkedAt(old(obsolete), obsolete, offsets, mark) && offsets <= obsolete.Keys
    {
      RetireKeepsValid(Value(), offsets, mark);
      count, aliveBytes := count - |offsets|, aliveBytes - bytes;
      obsolete := map i | i in obsolete.Keys + offsets :: if i in offsets then mark else obsolete[i];
      remaining := count;
    }

    /** Zero-lamport records become tombstones and stay counted; returns how many were not yet. */
    method BatchInsertTombstoneOffsets(offsets: seq<nat>) returns (inserted: nat)
      requires Valid()
      requires forall i :: i in offsets ==> i < |records| && i !in obsolete && records[i].account.IsZeroLamport()
      modifies `tombstones
      ensures Valid() && Value() == Bury(old(Value()), ElementsOf(offsets))
      ensures inserted == |tombstones| - |old(tombstones)|
    {
      hide ElementsOf, Storage.Valid;
      inserted := 0;
      assert ElementsOf(offsets[..0]) == {} by { NoElements(); }
      for n := 0 to |offsets|
        invariant tombstones == old(tombstones) + ElementsOf(offsets[..n])
        invariant inserted == |tombstones| - |old(tombstones)|
      {
        OneMoreElement(offsets, n);
        if offsets[n] !in tombstones {
          inserted := inserted + 1;
        } else {
          assert tombstones + {offsets[n]} == tombstones;
        }
        tombstones := tombstones + {offsets[n]};
      }
      assert offsets[..|offsets|] == offsets;
      BuryOffsets(old(Value()), offsets);
    }

    /** Visits exactly the live records, in file order, and counts the others. */
    method ScanAccounts() returns (visited: seq<nat>, excluded: nat)
      requires Valid()
      ensures forall a: nat, b: nat :: a < b < |visited| ==> visited[a] < visited[b]
      ensures forall i: nat :: i in visited <==> Value().Live(i)
      ensures |visited| + excluded == |records| && |visited| + |tombstones| == count
    {
      visited, excluded := [], 0;
      for i := 0 to |records|
        invariant forall a: nat, b: nat :: a < b < |visited| ==> visited[a] < visited[b]
        invariant forall j: nat :: j in visited <==> j < i && Value().Live(j)
        invariant |visited| + excluded == i && |visited| == CountOutside(i, obsolete.Keys + tombstones)
      {
        if i in obsolete || i in tombstones {
          excluded := excluded + 1;
        } else {
          assert forall a: nat :: a < |visited| ==> visited[a] in visited;
          visited := visited + [i];
        }
      }
      CountSplits(|records|, obsolete.Keys, tombstones);
    }
  }
}
