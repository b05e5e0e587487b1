/** The accounts with the largest balances, found in one scan with a bounded heap. */
module LargestAccounts {
  import opened Types

  /** Entries are compared by balance, then by key. */
  datatype Entry = Entry(lamports: nat, key: Pubkey)

  predicate Less(a: Entry, b: Entry) {
    a.lamports < b.lamports || (a.lamports == b.lamports && a.key < b.key)
  }

  datatype AddressFilter = Exclude | Include

  predicate Collected(e: Entry, addresses: set<Pubkey>, filter: AddressFilter) {
    0 < e.lamports && (filter.Include? <==> e.key in addresses)
  }

  /** The scanned accounts that pass the filter. */
  function Filtered(scan: seq<Entry>, addresses: set<Pubkey>, filter: AddressFilter): set<Entry> {
    set e | e in scan && Collected(e, addresses, filter)
  }

  /** The largest `num` elements of a set, or all of it when it has fewer. */
  predicate IsTop(top: set<Entry>, all: set<Entry>, num: nat) {
    && top <= all
    && |top| == (if |all| < num then |all| else num)
    && forall e, t :: e in all && e !in top && t in top ==> Less(e, t)
  }

  predicate Descending(r: seq<Entry>) {
    forall i: nat, j: nat :: i < j < |r| ==> Less(r[j], r[i])
  }

  function Elements(r: seq<Entry>): set<Entry> {
    set e | e in r
  }

  // ---------- the heap ----------

  method Smallest(heap: set<Entry>) returns (m: Entry)
    requires heap != {}
    ensures m in heap && forall e :: e in heap && e != m ==> Less(m, e)
  {
    m :| m in heap;
    var rest := heap - {m};
    while rest != {}
      invariant rest <= heap && m in heap && m !in rest
      invariant forall e :: e in heap && e != m ==> e in rest || Less(m, e)
      decreases rest
    {
      var e :| e in rest;
      rest := rest - {e};
      if Less(e, m) {
        m := e;
      }
    }
  }

  /** Empties the heap from the smallest entry up, so the largest ends up first. */
  method IntoDescending(heap: set<Entry>) returns (r: seq<Entry>)
    ensures Descending(r) && Elements(r) == heap && |r| == |heap|
  {
    r := [];
    var rest := heap;
    while rest != {}
      invariant rest <= heap && Descending(r) && Elements(r) == heap - rest && |r| == |heap| - |rest|
      invariant forall e, x :: e in rest && x in r ==> Less(x, e)
      decreases rest
    {
      var m := Smallest(rest);
      rest := rest - {m};
      assert Elements([m] + r) == Elements(r) + {m};
      r := [m] + r;
    }
  }

  // ---------- the scan ----------

  lemma KeepSmaller(top: set<Entry>, all: set<Entry>, num: nat, e: Entry, m: Entry)
    requires IsTop(top, all, num) && |top| == num && e !in all
    requires m in top && (forall t :: t in top && t != m ==> Less(m, t)) && Less(e, m)
    ensures IsTop(top, all + {e}, num)
  {
    assert |all + {e}| == |all| + 1;
  }

  lemma Replace(top: set<Entry>, all: set<Entry>, num: nat, e: Entry, m: Entry)
    requires IsTop(top, all, num) && |top| == num && e !in all
    requires m in top && (forall t :: t in top && t != m ==> Less(m, t)) && Less(m, e)
    ensures IsTop(top - {m} + {e}, all + {e}, num)
  {
    assert |all + {e}| == |all| + 1;
    assert |top - {m} + {e}| == |top|;
  }

  lemma Room(top: set<Entry>, all: set<Entry>, num: nat, e: Entry)
    requires IsTop(top, all, num) && |top| < num && e !in all
    ensures IsTop(top + {e}, all + {e}, num)
  {
    assert |all - top| == |all| - |top|;
    assert all == top;
  }

  lemma ScanNext(scan: seq<Entry>, i: nat, addresses: set<Pubkey>, filter: AddressFilter)
    requires i < |scan| && forall p: nat, q: nat :: p < q < |scan| ==> scan[p].key != scan[q].key
    ensures Filtered(scan[..i + 1], addresses, filter) ==
      Filtered(scan[..i], addresses, filter) + if Collected(scan[i], addresses, filter) then {scan[i]} else {}
    ensures scan[i] !in Filtered(scan[..i], addresses, filter)
  {
    assert scan[..i + 1] == scan[..i] + [scan[i]];
  }

  /** Puts an entry in the heap, pushing out the smallest when the heap is full, unless it is smaller itself. */
  method Offer(heap: set<Entry>, e: Entry, num: nat, ghost all: set<Entry>) returns (heap': set<Entry>)
    requires 0 < num && IsTop(heap, all, num) && |heap| <= num && e !in all
    ensures IsTop(heap', all + {e}, num) && |heap'| <= num
  {
    if |heap| == num {
      var m := Smallest(heap);
      if e == m || Less(e, m) {
        KeepSmaller(heap, all, num, e, m);
        return heap;
      }
      Replace(heap, all, num, e, m);
      heap' := heap - {m};
    } else {
      Room(heap, all, num, e);
      heap' := heap;
    }
    heap' := heap' + {e};
  }

  /** For any scan order, the result is the start of the full descending order, and the heap stays within `num`. */
  method LoadLargestAccounts(scan: seq<Entry>, num: nat, addresses: set<Pubkey>, filter: AddressFilter)
    returns (r: seq<Entry>)
    requires forall p: nat, q: nat :: p < q < |scan| ==> scan[p].key != scan[q].key
    ensures Descending(r) && IsTop(Elements(r), Filtered(scan, addresses, filter), num) && |r| <= num
    ensures forall i: nat, j: nat :: i < j < |r| ==>
      r[i].lamports > r[j].lamports || (r[i].lamports == r[j].lamports && r[i].key > r[j].key)
    ensures forall e :: e in r ==> e in scan && e.lamports > 0 && (e.key in addresses <==> filter == Include)
    ensures forall e :: e in scan && e.lamports > 0 && (e.key in addresses <==> filter == Include) && e !in r ==>
      |r| == num && forall t :: t in r ==> t.lamports > e.lamports || (t.lamports == e.lamports && t.key > e.key)
  {
    if num == 0 {
      return [];
    }
    hide IsTop, Filtered;
    var heap: set<Entry> := {};
    NothingYet(scan, num, addresses, filter);
    for i := 0 to |scan|
      invariant IsTop(heap, Filtered(scan[..i], addresses, filter), num) && |heap| <= num
    {
      var e := scan[i];
      ghost var all := Filtered(scan[..i], addresses, filter);
      ScanNext(scan, i, addresses, filter);
      if !Collected(e, addresses, filter) {
        assert all + {} == all;
        continue;
      }
      heap := Offer(heap, e, num, all);
    }
    assert scan[..|scan|] == scan;
    r := IntoDescending(heap);
    TopIs(r, scan, num, addresses, filter);
  }

  /** What is left out has passed the filter and is below a full result. */
  lemma TopIs(r: seq<Entry>, scan: seq<Entry>, num: nat, addresses: set<Pubkey>, filter: AddressFilter)
    requires IsTop(Elements(r), Filtered(scan, addresses, filter), num) && |r| == |Elements(r)|
    ensures forall e :: e in r ==> e in scan && Collected(e, addresses, filter)
    ensures forall e :: e in scan && Collected(e, addresses, filter) && e !in r ==>
      |r| == num && forall t :: t in r ==> Less(e, t)
  {
    var all := Filtered(scan, addresses, filter);
    assert forall e :: e in r ==> e in Elements(r);
    if e :| e in all && e !in r {
      assert |all - Elements(r)| == |all| - |Elements(r)| && e in all - Elements(r);
    }
  }

  lemma NothingYet(scan: seq<Entry>, num: nat, addresses: set<Pubkey>, filter: AddressFilter)
    ensures IsTop({}, Filtered(scan[..0], addresses, filter), num)
  {
  }
}
