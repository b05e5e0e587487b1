/** Names shared by every part of the account store model. */
module Types {
  type Slot = nat
  type Pubkey = nat

  datatype Option<+T> = None | Some(value: T)

  /** `data` stands for everything an account holds besides its balance. */
  datatype Account = Account(lamports: nat, data: seq<nat>) {
    predicate IsZeroLamport() {
      lamports == 0
    }
  }

  const STORE_META_OVERHEAD := 136

  /** Bytes a record takes in an accounts file: header and data, rounded up to a multiple of 8. */
  function StoredSize(dataLen: nat): (size: nat)
    ensures size % 8 == 0 && STORE_META_OVERHEAD + dataLen <= size < STORE_META_OVERHEAD + dataLen + 8
  {
    (STORE_META_OVERHEAD + dataLen + 7) / 8 * 8
  }

  /** Zero-lamport records at `slot` need not be kept for an incremental snapshot. */
  predicate CanPurge(full: Option<Slot>, slot: Slot) {
    full.Some? ==> slot <= full.value
  }

  /** The greatest element of a set of slots. */
  ghost function Max(slots: set<Slot>): (m: Slot)
    requires slots != {}
    ensures m in slots && forall s :: s in slots ==> s <= m
  {
    MaxExists(slots);
    var m :| m in slots && forall s :: s in slots ==> s <= m;
    m
  }

  lemma {:induction false} MaxExists(slots: set<Slot>)
    requires slots != {}
    ensures exists m :: m in slots && forall s :: s in slots ==> s <= m
  {
    var x :| x in slots;
    var above := set s | s in slots && x < s;
    if above == {} {
      assert forall s :: s in slots ==> s !in above;
    } else {
      assert x !in above;
      MaxExists(above);
      var m :| m in above && forall s :: s in above ==> s <= m;
      assert forall s :: s in slots ==> s <= x || s in above;
    }
  }

  lemma {:induction false} LeastOf(slots: set<Slot>) returns (m: Slot)
    requires slots != {}
    ensures m in slots && forall s :: s in slots ==> m <= s
  {
    var x :| x in slots;
    var rest := slots - {x};
    assert forall s :: s in slots ==> s == x || s in rest;
    m := x;
    if rest != {} {
      var least := LeastOf(rest);
      m := if least < x then least else x;
    }
  }

  lemma MinExists(slots: set<Slot>)
    requires slots != {}
    ensures exists m :: m in slots && forall s :: s in slots ==> m <= s
  {
    var m := LeastOf(slots);
  }

  /** The least and greatest of a set of slots. */
  method Bounds(slots: set<Slot>) returns (lo: Slot, hi: Slot)
    requires slots != {}
    ensures lo in slots && hi in slots && forall s :: s in slots ==> lo <= s <= hi
  {
    var first :| first in slots;
    lo, hi := first, first;
    var rest := slots - {first};
    while rest != {}
      invariant rest <= slots && lo in slots && hi in slots
      invariant forall s :: s in slots ==> s in rest || lo <= s <= hi
      decreases rest
    {
      var s :| s in rest;
      rest := rest - {s};
      if s < lo { lo := s; }
      if hi < s { hi := s; }
    }
  }

  lemma SameMap<V>(m: map<Slot, V>, n: map<Slot, V>)
    requires m.Keys == n.Keys && forall s :: s in m ==> m[s] == n[s]
    ensures m == n
  {
  }
}
