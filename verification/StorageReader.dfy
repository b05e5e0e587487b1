/** Reading an accounts file for an archive while skipping the records that are excluded from it. */
module StorageReader {
  import opened Types

  type Byte = b: int | 0 <= b < 256

  /** A record's place in the file: where it starts and how many bytes it takes. */
  datatype Range = Range(start: nat, size: nat)

  predicate Covers(ranges: seq<Range>, i: nat) {
    exists j: nat :: j < |ranges| && ranges[j].start <= i < ranges[j].start + ranges[j].size
  }

  /** The bytes from `i` up to the end of the file that no excluded range covers. */
  function Kept(file: seq<Byte>, ranges: seq<Range>, i: nat): seq<Byte>
    decreases |file| - i
  {
    if |file| <= i then []
    else if Covers(ranges, i) then Kept(file, ranges, i + 1)
    else [file[i]] + Kept(file, ranges, i + 1)
  }

  predicate Disjoint(r: Range, q: Range) {
    r.start + r.size <= q.start || q.start + q.size <= r.start
  }

  predicate AllDisjoint(ranges: seq<Range>) {
    forall i: nat, j: nat :: i < j < |ranges| ==> Disjoint(ranges[i], ranges[j])
  }

  /** Every range is a record of the file: it starts inside it and takes some room. */
  predicate InFile(ranges: seq<Range>, end: nat) {
    forall i: nat :: i < |ranges| ==> ranges[i].start < end && 0 < ranges[i].size
  }

  /** Sorted with the lowest range last, as a stack to pop from. */
  predicate Stacked(ranges: seq<Range>) {
    forall i: nat, j: nat :: i < j < |ranges| ==> ranges[j].start + ranges[j].size <= ranges[i].start
  }

  /** The part of a range that lies within the file. */
  function Clipped(r: Range, end: nat): nat {
    if end <= r.start then 0 else if r.start + r.size <= end then r.size else end - r.start
  }

  function TotalClipped(ranges: seq<Range>, end: nat): nat {
    if ranges == [] then 0 else TotalClipped(ranges[..|ranges| - 1], end) + Clipped(ranges[|ranges| - 1], end)
  }

  // ---------- skipping and taking ----------

  lemma {:induction false} SkipCovered(file: seq<Byte>, ranges: seq<Range>, i: nat, j: nat)
    requires i <= j <= |file| && forall p: nat :: i <= p < j ==> Covers(ranges, p)
    ensures Kept(file, ranges, i) == Kept(file, ranges, j)
    decreases j - i
  {
    if i < j {
      SkipCovered(file, ranges, i + 1, j);
    }
  }

  lemma {:induction false} TakeUncovered(file: seq<Byte>, ranges: seq<Range>, i: nat, j: nat)
    requires i <= j <= |file| && forall p: nat :: i <= p < j ==> !Covers(ranges, p)
    ensures Kept(file, ranges, i) == file[i..j] + Kept(file, ranges, j)
    decreases j - i
  {
    if i < j {
      hide Covers;
      assert !Covers(ranges, i);
      TakeUncovered(file, ranges, i + 1, j);
      PrependByte(file, i, j, Kept(file, ranges, j));
    }
  }

  lemma NothingLeft(file: seq<Byte>, ranges: seq<Range>)
    ensures Kept(file, ranges, |file|) == []
  {
  }

  lemma PrependByte(file: seq<Byte>, i: nat, j: nat, rest: seq<Byte>)
    requires i < j <= |file|
    ensures file[i..j] + rest == [file[i]] + (file[i + 1..j] + rest)
  {
  }

  lemma {:induction false} SameKept(file: seq<Byte>, ranges: seq<Range>, other: seq<Range>, i: nat)
    requires forall p: nat :: i <= p < |file| ==> (Covers(ranges, p) <==> Covers(other, p))
    ensures Kept(file, ranges, i) == Kept(file, other, i)
    decreases |file| - i
  {
    if i < |file| {
      SameKept(file, ranges, other, i + 1);
    }
  }

  // ---------- sorting the exclusions ----------

  function Insert(r: Range, stack: seq<Range>): seq<Range> {
    if stack == [] then [r]
    else
      var n := |stack| - 1;
      if r.start < stack[n].start then stack + [r] else Insert(r, stack[..n]) + [stack[n]]
  }

  function SortDescending(ranges: seq<Range>): seq<Range> {
    if ranges == [] then [] else Insert(ranges[|ranges| - 1], SortDescending(ranges[..|ranges| - 1]))
  }

  lemma {:induction false} InsertSame(r: Range, stack: seq<Range>, end: nat)
    ensures multiset(Insert(r, stack)) == multiset(stack) + multiset{r}
    ensures TotalClipped(Insert(r, stack), end) == TotalClipped(stack, end) + Clipped(r, end)
  {
    if stack == [] {
      assert [r][..0] == [];
    } else {
      var n := |stack| - 1;
      assert stack == stack[..n] + [stack[n]];
      if r.start < stack[n].start {
        assert (stack + [r])[..n + 1] == stack;
      } else {
        InsertSame(r, stack[..n], end);
        var rest := Insert(r, stack[..n]);
        assert (rest + [stack[n]])[..|rest|] == rest;
      }
    }
  }

  lemma {:induction false} InsertStacks(r: Range, stack: seq<Range>)
    requires Stacked(stack) && forall i: nat :: i < |stack| ==> Disjoint(r, stack[i]) && 0 < stack[i].size
    requires 0 < r.size
    ensures Stacked(Insert(r, stack))
  {
    if stack != [] {
      var n := |stack| - 1;
      if r.start < stack[n].start {
        StackedLow(stack, r);
      } else {
        InsertStacks(r, stack[..n]);
        var rest := Insert(r, stack[..n]);
        forall i: nat | i < |rest| ensures stack[n].start + stack[n].size <= rest[i].start {
          InsertSame(r, stack[..n], 0);
          assert rest[i] in multiset(rest);
          assert rest[i] == r || rest[i] in stack[..n];
        }
      }
    }
  }

  lemma StackedLow(stack: seq<Range>, r: Range)
    requires Stacked(stack) && stack != [] && Disjoint(r, stack[|stack| - 1]) && r.start < stack[|stack| - 1].start
    ensures Stacked(stack + [r])
  {
    forall i: nat | i < |stack| ensures r.start + r.size <= stack[i].start {
      var n := |stack| - 1;
      assert i < n ==> stack[n].start + stack[n].size <= stack[i].start;
    }
  }

  lemma {:induction false} SortIs(ranges: seq<Range>, end: nat)
    requires AllDisjoint(ranges) && InFile(ranges, end)
    ensures multiset(SortDescending(ranges)) == multiset(ranges)
    ensures Stacked(SortDescending(ranges)) && InFile(SortDescending(ranges), end)
    ensures TotalClipped(SortDescending(ranges), end) == TotalClipped(ranges, end)
  {
    if ranges != [] {
      var n := |ranges| - 1;
      var front := ranges[..n];
      assert ranges == front + [ranges[n]];
      SortIs(front, end);
      var sorted := SortDescending(front);
      InsertSame(ranges[n], sorted, end);
      forall i: nat | i < |sorted| ensures Disjoint(ranges[n], sorted[i]) && 0 < sorted[i].size {
        SameElement(sorted, front, i);
        var j: nat :| j < n && front[j] == sorted[i];
        assert Disjoint(ranges[j], ranges[n]);
      }
      InsertStacks(ranges[n], sorted);
      SameInFile(SortDescending(ranges), ranges, end);
    }
  }

  lemma SameElement(a: seq<Range>, b: seq<Range>, i: nat)
    requires multiset(a) == multiset(b) && i < |a|
    ensures exists j: nat :: j < |b| && b[j] == a[i]
  {
    assert a[i] in multiset(b);
  }

  lemma SameInFile(a: seq<Range>, b: seq<Range>, end: nat)
    requires multiset(a) == multiset(b) && InFile(b, end)
    ensures InFile(a, end)
  {
    forall i: nat | i < |a| ensures a[i].start < end && 0 < a[i].size {
      SameElement(a, b, i);
    }
  }

  lemma SameCovers(ranges: seq<Range>, other: seq<Range>, i: nat)
    requires multiset(ranges) == multiset(other)
    ensures Covers(ranges, i) ==> Covers(other, i)
  {
    if Covers(ranges, i) {
      var j: nat :| j < |ranges| && ranges[j].start <= i < ranges[j].start + ranges[j].size;
      assert ranges[j] in multiset(other);
      var k: nat :| k < |other| && other[k] == ranges[j];
    }
  }

  // ---------- how much is kept ----------

  /** Below the lowest range of a stack nothing is covered, inside it everything is. */
  lemma StackTop(stack: seq<Range>, i: nat)
    requires Stacked(stack) && stack != []
    ensures i < stack[|stack| - 1].start ==> !Covers(stack, i)
    ensures stack[|stack| - 1].start <= i < stack[|stack| - 1].start + stack[|stack| - 1].size ==> Covers(stack, i)
    ensures stack[|stack| - 1].start + stack[|stack| - 1].size <= i ==>
      (Covers(stack, i) <==> Covers(stack[..|stack| - 1], i))
  {
    var n := |stack| - 1;
    if Covers(stack[..n], i) {
      var j: nat :| j < n && stack[..n][j].start <= i < stack[..n][j].start + stack[..n][j].size;
      assert stack[j].start <= i < stack[j].start + stack[j].size;
    }
    if Covers(stack, i) {
      var j: nat :| j < |stack| && stack[j].start <= i < stack[j].start + stack[j].size;
      if j < n {
        assert stack[..n][j] == stack[j];
      }
    }
  }

  /** The kept bytes number the whole file less every excluded range, each cut at the end of the file. */
  lemma {:induction false} KeptLength(file: seq<Byte>, stack: seq<Range>, i: nat)
    requires Stacked(stack) && InFile(stack, |file|) && i <= |file|
    requires stack != [] ==> i <= stack[|stack| - 1].start
    ensures |Kept(file, stack, i)| + TotalClipped(stack, |file|) == |file| - i
    decreases |stack|
  {
    if stack == [] {
      TakeUncovered(file, stack, i, |file|);
    } else {
      var n := |stack| - 1;
      var top := stack[n];
      var next := top.start + Clipped(top, |file|);
      forall p: nat | i <= p < next ensures Covers(stack, p) <==> top.start <= p {
        StackTop(stack, p);
      }
      TakeUncovered(file, stack, i, top.start);
      SkipCovered(file, stack, top.start, next);
      forall p: nat | next <= p < |file| ensures Covers(stack, p) <==> Covers(stack[..n], p) {
        StackTop(stack, p);
      }
      SameKept(file, stack, stack[..n], next);
      KeptLength(file, stack[..n], next);
    }
  }

  // ---------- the reader ----------

  /** What a new reader excludes: obsolete records, and tombstones too when they are filtered out. */
  function Exclusions(obsolete: seq<(nat, nat)>, tombstones: seq<nat>, excludeTombstones: bool): seq<Range> {
    Sized(obsolete) + if excludeTombstones then Tombs(tombstones) else []
  }

  /** Obsolete records come as offsets and data lengths. */
  function Sized(obsolete: seq<(nat, nat)>): (r: seq<Range>)
    ensures |r| == |obsolete|
  {
    seq(|obsolete|, i requires 0 <= i < |obsolete| => Range(obsolete[i].0, StoredSize(obsolete[i].1)))
  }

  function Tombs(tombstones: seq<nat>): (r: seq<Range>)
    ensures |r| == |tombstones|
  {
    seq(|tombstones|, i requires 0 <= i < |tombstones| => Range(tombstones[i], StoredSize(0)))
  }

  /** The bytes excluded are those of the obsolete records and, when they are filtered out, of the tombstones. */
  lemma ExcludesRecords(obsolete: seq<(nat, nat)>, tombstones: seq<nat>, excludeTombstones: bool, p: nat)
    ensures Covers(Exclusions(obsolete, tombstones, excludeTombstones), p) <==>
      || (exists i: nat :: i < |obsolete| && obsolete[i].0 <= p < obsolete[i].0 + StoredSize(obsolete[i].1))
      || (excludeTombstones && exists i: nat ::
            i < |tombstones| && tombstones[i] <= p < tombstones[i] + STORE_META_OVERHEAD)
  {
    var ranges, n := Exclusions(obsolete, tombstones, excludeTombstones), |obsolete|;
    forall i: nat | i < n ensures ranges[i] == Range(obsolete[i].0, StoredSize(obsolete[i].1)) {
    }
    if excludeTombstones {
      assert StoredSize(0) == STORE_META_OVERHEAD;
      forall i: nat | i < |tombstones| ensures ranges[n + i] == Range(tombstones[i], STORE_META_OVERHEAD) {
      }
      if j: nat :| n <= j < |ranges| && ranges[j].start <= p < ranges[j].start + ranges[j].size {
        assert ranges[n + (j - n)] == Range(tombstones[j - n], STORE_META_OVERHEAD);
      }
    }
  }

  lemma {:induction false} TotalAppend(a: seq<Range>, b: seq<Range>, end: nat)
    ensures TotalClipped(a + b, end) == TotalClipped(a, end) + TotalClipped(b, end)
    decreases |b|
  {
    if b == [] {
      assert a + b == a;
    } else {
      var n := |b| - 1;
      TotalAppend(a, b[..n], end);
      assert (a + b)[..|a + b| - 1] == a + b[..n];
    }
  }

  /** A tombstone has no data, so it never runs past the end of the file. */
  lemma {:induction false} TombsTotal(tombstones: seq<nat>, end: nat)
    requires forall i: nat :: i < |tombstones| ==> tombstones[i] + StoredSize(0) <= end
    ensures TotalClipped(Tombs(tombstones), end) == |tombstones| * StoredSize(0)
  {
    if tombstones != [] {
      var n := |tombstones| - 1;
      TombsTotal(tombstones[..n], end);
      assert Tombs(tombstones)[..n] == Tombs(tombstones[..n]);
    }
  }

  class AccountStorageReader {
    const file: seq<Byte>
    ghost const ranges: seq<Range>
    const numAliveBytes: nat
    var excluded: seq<Range>
    var position: nat

    ghost predicate Valid()
      reads this
    {
      && Stacked(excluded) && InFile(excluded, |file|)
      && position <= |file|
      && (excluded != [] ==> position <= excluded[|excluded| - 1].start)
      && (forall p: nat :: position <= p < |file| ==> (Covers(ranges, p) <==> Covers(excluded, p)))
    }

    /** The bytes still to come. */
    ghost function Remaining(): seq<Byte>
      reads this
    {
      Kept(file, ranges, position)
    }

    /** Opens a file whose excluded records do not overlap. */
    constructor (file: seq<Byte>, obsolete: seq<(nat, nat)>, tombstones: seq<nat>, excludeTombstones: bool)
      requires AllDisjoint(Exclusions(obsolete, tombstones, excludeTombstones))
      requires InFile(Exclusions(obsolete, tombstones, excludeTombstones), |file|)
      requires forall i: nat :: i < |tombstones| ==> tombstones[i] + StoredSize(0) <= |file|
      ensures Valid() && this.file == file && ranges == Exclusions(obsolete, tombstones, excludeTombstones)
      ensures Remaining() == Kept(file, ranges, 0) && numAliveBytes == |Remaining()|
    {
      var sized := Sized(obsolete);
      var alive: int := |file|;
      var n := 0;
      while n < |sized|
        invariant n <= |sized| && alive == |file| - TotalClipped(sized[..n], |file|)
      {
        alive := alive - Clipped(sized[n], |file|);
        n := n + 1;
        assert sized[..n][..n - 1] == sized[..n - 1];
      }
      assert sized[..n] == sized;
      var list := sized;
      if excludeTombstones {
        alive := alive - |tombstones| * StoredSize(0);
        list := list + Tombs(tombstones);
        TombsTotal(tombstones, |file|);
        TotalAppend(sized, Tombs(tombstones), |file|);
      }
      assert list == Exclusions(obsolete, tombstones, excludeTombstones);
      var sorted := SortDescending(list);
      NewReader(file, list, sorted);
      this.file := file;
      ranges := list;
      numAliveBytes := alive;
      excluded := sorted;
      position := 0;
    }

    /** Steps over an excluded record that starts here. */
    method SkipExcluded()
      requires Valid() && excluded != [] && position == excluded[|excluded| - 1].start
      modifies this
      ensures Valid() && Remaining() == old(Remaining()) && |excluded| < |old(excluded)|
    {
      var n := |excluded| - 1;
      var next := position + Clipped(excluded[n], |file|);
      forall p: nat | position <= p < |file|
        ensures if p < next then Covers(ranges, p) else Covers(ranges, p) <==> Covers(excluded[..n], p)
      {
        StackTop(excluded, p);
      }
      SkipCovered(file, ranges, position, next);
      position := next;
      excluded := excluded[..n];
    }

    /** The file may hand over fewer bytes than asked for, but none only at its end or when none were asked for. */
    method ReadFile(buf: array<Byte>, from: nat, len: nat) returns (n: nat)
      requires Valid() && from + len <= buf.Length
      requires position + len <= if excluded == [] then |file| else excluded[|excluded| - 1].start
      modifies this`position, buf
      ensures Valid() && n <= len && (n == 0 ==> len == 0)
      ensures buf[..from] == old(buf[..from]) && buf[from + n..] == old(buf[from + n..])
      ensures buf[from..from + n] + Remaining() == old(Remaining())
    {
      if len == 0 {
        return 0;
      }
      n :| 1 <= n <= len;
      forall i | 0 <= i < n {
        buf[from + i] := file[position + i];
      }
      assert buf[from..from + n] == file[position..position + n];
      forall p: nat | position <= p < position + n ensures !Covers(ranges, p) {
        if excluded != [] {
          StackTop(excluded, p);
        }
      }
      TakeUncovered(file, ranges, position, position + n);
      position := position + n;
    }

    /** Fills the buffer with the next kept bytes; fewer than asked for only at the end of them. */
    method Read(buf: array<Byte>) returns (total: nat)
      requires Valid()
      modifies this, buf
      ensures Valid() && total <= buf.Length
      ensures buf[..total] + Remaining() == old(Remaining())
      ensures total < buf.Length ==> Remaining() == []
      ensures buf[total..] == old(buf[total..])
    {
      hide Stacked, InFile, Covers, Kept;
      total := 0;
      while total < buf.Length
        invariant Valid() && total <= buf.Length
        invariant buf[..total] + Remaining() == old(Remaining())
        invariant buf[total..] == old(buf[total..])
        decreases |excluded|, buf.Length - total
      {
        if excluded != [] && position == excluded[|excluded| - 1].start {
          SkipExcluded();
          continue;
        }
        var inBuffer := buf.Length - total;
        var inFile := (if excluded != [] then excluded[|excluded| - 1].start else |file|) - position;
        var n := ReadFile(buf, total, if inBuffer < inFile then inBuffer else inFile);
        if n == 0 {
          NothingLeft(file, ranges);
          break;
        }
        total := total + n;
      }
    }
  }

  lemma NewReader(file: seq<Byte>, list: seq<Range>, sorted: seq<Range>)
    requires AllDisjoint(list) && InFile(list, |file|) && sorted == SortDescending(list)
    ensures Stacked(sorted) && InFile(sorted, |file|)
    ensures forall p: nat :: p < |file| ==> (Covers(list, p) <==> Covers(sorted, p))
    ensures |Kept(file, list, 0)| == |file| - TotalClipped(list, |file|)
  {
    SortIs(list, |file|);
    forall p: nat ensures Covers(list, p) <==> Covers(sorted, p) {
      SameCovers(list, sorted, p);
      SameCovers(sorted, list, p);
    }
    SameKept(file, list, sorted, 0);
    KeptLength(file, sorted, 0);
  }

  lemma Regroup(a: seq<Byte>, b: seq<Byte>, c: seq<Byte>)
    ensures a + (b + c) == (a + b) + c
  {
  }

  /** Reading with buffers of any sizes, until the reader returns nothing for a buffer with room. */
  method ReadInto(reader: AccountStorageReader, sizes: seq<nat>) returns (out: seq<Byte>, ended: bool)
    requires reader.Valid() && reader.position == 0 && |Kept(reader.file, reader.ranges, 0)| == reader.numAliveBytes
    modifies reader
    ensures reader.Valid() && out <= Kept(reader.file, reader.ranges, 0)
    ensures ended ==> out == Kept(reader.file, reader.ranges, 0) && |out| == reader.numAliveBytes
  {
    hide Kept, Covers, Stacked, InFile;
    out, ended := [], false;
    var n := 0;
    while n < |sizes| && !ended
      invariant n <= |sizes| && reader.Valid()
      invariant out + reader.Remaining() == Kept(reader.file, reader.ranges, 0)
      invariant ended ==> reader.Remaining() == []
    {
      var buf := new Byte[sizes[n]](_ => 0);
      var got := reader.Read(buf);
      Regroup(out, buf[..got], reader.Remaining());
      out := out + buf[..got];
      ended := got == 0 && 0 < buf.Length;
      n := n + 1;
    }
  }
}
