// Comparison of a re-read partition table with the one saved before a resize.
module DiskShrink {
  import opened Bytes
  import opened GptTable

  /** Entry t is the only one, free or occupied, that carries id, and it has the given extent. */
  predicate SoleEntry(b: seq<byte>, t: nat, id: Guid, offset: int64, size: int64)
    requires HEADER <= |b| && |b| == At(Count(b))
  {
    && t < Count(b)
    && Id(b, t) == id && Start(b, t) == offset && Size(b, t) == size
    && forall j | 0 <= j < Count(b) && j != t :: Id(b, j) != id
  }

  /** Two tables of n entries differ only in RewritePartition bytes and in the length of entry t. */
  predicate OnlyLengthChanged(before: seq<byte>, after: seq<byte>, n: nat, t: nat, newSize: int64) {
    && |before| == |after| == At(n) && t < n
    && before[..HEADER] == after[..HEADER]
    && Entry(after, t) == Patch(Entry(before, t), 16, LE64(newSize))
    && forall j | 0 <= j < n && j != t :: Entry(after, j) == Entry(before, j)
  }

  ghost predicate OnlyShrunk(before: seq<byte>, after: seq<byte>, id: Guid, offset: int64, oldSize: int64, newSize: int64) {
    && HEADER <= |before| && |before| == At(Count(before))
    && 0 < newSize < oldSize
    && exists t :: SoleEntry(before, t, id, offset, oldSize)
                   && OnlyLengthChanged(before, after, Count(before), t, newSize)
  }

  lemma ShrunkKeepsShape(before: seq<byte>, after: seq<byte>, id: Guid, offset: int64, oldSize: int64, newSize: int64)
    ensures OnlyShrunk(before, after, id, offset, oldSize, newSize) ==> |after| == |before|
  {
    hide SoleEntry, Entry;
  }

  /**
   * After an accepted resize the partition has the new length, and nothing else of its entry or of any
   * other changed, rewrite bytes aside.
   */
  lemma ShrunkFields(before: seq<byte>, after: seq<byte>, n: nat, t: nat, newSize: int64, j: nat)
    requires OnlyLengthChanged(before, after, n, t, newSize) && j < n
    ensures Size(after, j) == if j == t then newSize else Size(before, j)
    ensures Entry(after, j)[..16] == Entry(before, j)[..16] && Entry(after, j)[24..] == Entry(before, j)[24..]
    ensures Start(after, j) == Start(before, j) && Number(after, j) == Number(before, j)
    ensures Type(after, j) == Type(before, j) && Id(after, j) == Id(before, j)
  {
    EntryFields(before, j);
    EntryFields(after, j);
    var e, p := Entry(before, j), Entry(after, j);
    hide Entry, Start, Size, Number, Type, Id;
    if j == t {
      PatchedLength(e, newSize);
    }
    SameBesideLength(e, p);
  }

  lemma PatchedLength(e: EntryBytes, size: int64)
    ensures var p := Patch(e, 16, LE64(size)); I64(p, 16) == size && p[..16] == e[..16] && p[24..] == e[24..]
  {
    PatchSlices(e, 16, LE64(size));
    var p := Patch(e, 16, LE64(size));
    hide Patch;
    assert p[16..24] == LE64(size) == LE64(size)[0..8];
    SameRead64(p, 16, LE64(size), 0);
    assert p[0..16] == p[..16] && e[0..16] == e[..16] && p[24..ENTRY] == p[24..] && e[24..ENTRY] == e[24..];
  }

  lemma SameBesideLength(e: EntryBytes, p: EntryBytes)
    requires p[..16] == e[..16] && p[24..] == e[24..]
    ensures I64(p, 8) == I64(e, 8) && I32(p, 24) == I32(e, 24) && p[32..48] == e[32..48] && EntryId(p) == EntryId(e)
  {
    SliceOfSlice(p, 0, 16, 8, 16);
    SliceOfSlice(e, 0, 16, 8, 16);
    SliceOfSlice(p, 24, ENTRY, 0, 4);
    SliceOfSlice(e, 24, ENTRY, 0, 4);
    SliceOfSlice(p, 24, ENTRY, 8, 24);
    SliceOfSlice(e, 24, ENTRY, 8, 24);
    SliceOfSlice(p, 24, ENTRY, 24, 40);
    SliceOfSlice(e, 24, ENTRY, 24, 40);
    assert p[0..16] == p[..16] && e[0..16] == e[..16] && p[24..ENTRY] == p[24..] && e[24..ENTRY] == e[24..];
  }

  /** 32-bit signed wrap-around of an address computation. */
  function Wrap32(v: nat): int32 {
    AsInt32(v % 0x1_0000_0000)
  }

  /** What the loop knows about the entry that carries id once it has gone through n entries. */
  ghost predicate Tracked(b: seq<byte>, n: nat, id: Guid, offset: int64, size: int64, found: Option<nat>) {
    && (found.Some? ==> && found.value < n && HasEntry(b, found.value) && Id(b, found.value) == id
                        && Start(b, found.value) == offset && Size(b, found.value) == size)
    && (forall j: nat | j < n && HasEntry(b, j) && Id(b, j) == id :: found == Some(j))
  }

  /** Entry j of the table that VerifyOnlyShrink expects once it has gone through n entries and met id at found. */
  function ExpectedEntry(b: seq<byte>, a: seq<byte>, n: nat, found: Option<nat>, newSize: int64, j: nat): EntryBytes
    requires |a| == |b| && HasEntry(b, j)
  {
    var e := if j < n then Block(b, j)[28 := a[At(j) + 28]] else Block(b, j);
    if found == Some(j) then Patch(e, 16, LE64(newSize)) else e
  }

  ghost predicate Expects(x: seq<byte>, b: seq<byte>, a: seq<byte>, n: nat, found: Option<nat>, newSize: int64) {
    && |x| == |b| == |a| && HEADER <= |x| && x[..HEADER] == b[..HEADER]
    && forall j: nat | HasEntry(x, j) :: Block(x, j) == ExpectedEntry(b, a, n, found, newSize, j)
  }

  lemma ExpectedEntryMatches(b: seq<byte>, a: seq<byte>, n: nat, found: Option<nat>, newSize: int64, j: nat)
    requires |a| == |b| && HasEntry(b, j) && j < n
    ensures Block(a, j) == ExpectedEntry(b, a, n, found, newSize, j)
       <==> Entry(a, j) == if found == Some(j) then Patch(Entry(b, j), 16, LE64(newSize)) else Entry(b, j)
  {
    var x, y := Block(a, j), ExpectedEntry(b, a, n, found, newSize, j);
    var z := if found == Some(j) then Patch(Entry(b, j), 16, LE64(newSize)) else Entry(b, j);
    assert y[28 := 0] == z;
    assert x[28] == y[28];
    if x[28 := 0] == z {
      assert forall k | 0 <= k < ENTRY && k != 28 :: x[k] == x[28 := 0][k] == y[28 := 0][k] == y[k];
    }
  }

  lemma Verdict(x: seq<byte>, b: seq<byte>, a: seq<byte>, t: nat, newSize: int64)
    requires HEADER <= |b| && |b| == At(Count(b)) && t < Count(b)
    requires Expects(x, b, a, Count(b), Some(t), newSize)
    ensures x == a <==> OnlyLengthChanged(b, a, Count(b), t, newSize)
  {
    forall j | 0 <= j < Count(b)
      ensures Block(a, j) == Block(x, j)
         <==> Entry(a, j) == if t == j then Patch(Entry(b, j), 16, LE64(newSize)) else Entry(b, j)
    {
      ExpectedEntryMatches(b, a, Count(b), Some(t), newSize, j);
    }
    if OnlyLengthChanged(b, a, Count(b), t, newSize) {
      TableExtensional(x, a, Count(b));
    }
  }

  lemma Judge(x: seq<byte>, b: seq<byte>, a: seq<byte>, id: Guid, offset: int64, oldSize: int64, newSize: int64, found: Option<nat>)
    requires HEADER <= |b| && |b| == At(Count(b)) && 0 < newSize < oldSize && found.Some?
    requires Tracked(b, Count(b), id, offset, oldSize, found)
    requires Expects(x, b, a, Count(b), found, newSize)
    ensures x == a <==> OnlyShrunk(b, a, id, offset, oldSize, newSize)
  {
    var t := found.value;
    assert SoleEntry(b, t, id, offset, oldSize);
    Verdict(x, b, a, t, newSize);
    assert forall u | SoleEntry(b, u, id, offset, oldSize) :: u == t;
  }

  lemma RelaxStep(x: seq<byte>, y: seq<byte>, b: seq<byte>, a: seq<byte>, i: nat, found: Option<nat>, newSize: int64)
    requires Expects(x, b, a, i, found, newSize) && |y| == |x| && HasEntry(x, i)
    requires found.Some? ==> found.value < i
    requires y[..HEADER] == x[..HEADER] && Block(y, i) == Patch(Block(x, i), 28, [a[At(i) + 28]])
    requires forall j: nat | j != i && HasEntry(x, j) :: Block(y, j) == Block(x, j)
    ensures Expects(y, b, a, i + 1, found, newSize)
  {
    assert Block(y, i) == Block(b, i)[28 := a[At(i) + 28]];
  }

  lemma LengthStep(y: seq<byte>, z: seq<byte>, b: seq<byte>, a: seq<byte>, i: nat, newSize: int64)
    requires Expects(y, b, a, i + 1, None, newSize) && |z| == |y| && HasEntry(y, i)
    requires z[..HEADER] == y[..HEADER] && Block(z, i) == Patch(Block(y, i), 16, LE64(newSize))
    requires forall j: nat | j != i && HasEntry(y, j) :: Block(z, j) == Block(y, j)
    ensures Expects(z, b, a, i + 1, Some(i), newSize)
  {
  }

  /** One round of the loop: relax the RewritePartition byte, and shorten the entry that carries id. */
  method ExpectEntry(before: array<byte>, after: array<byte>, expected: array<byte>, i: nat, id: Guid,
                     offset: int64, oldSize: int64, newSize: int64, found: Option<nat>)
    returns (r: Result<Option<nat>>)
    requires before.Length == after.Length == expected.Length && HasEntry(before[..], i)
    requires HEADER <= before.Length && expected != before && expected != after
    requires Tracked(before[..], i, id, offset, oldSize, found)
    requires Expects(expected[..], before[..], after[..], i, found, newSize)
    modifies expected
    ensures r.Ok? ==> && Tracked(before[..], i + 1, id, offset, oldSize, r.value)
                      && Expects(expected[..], before[..], after[..], i + 1, r.value, newSize)
    ensures r.Err? && before.Length == At(Count(before[..])) && i < Count(before[..]) ==>
              forall t :: !SoleEntry(before[..], t, id, offset, oldSize)
  {
    ghost var b, a := before[..], after[..];
    ghost var x := expected[..];
    PutEntry(expected, i, 28, [after[At(i) + 28]]);
    ghost var y := expected[..];
    RelaxStep(x, y, b, a, i, found, newSize);
    if Id(before[..], i) != id {
      return Ok(found);
    }
    if found.Some? || Start(before[..], i) != offset || Size(before[..], i) != oldSize {
      return Err("Shrink source identity or extent changed");
    }
    PutEntry(expected, i, 16, LE64(newSize));
    LengthStep(y, expected[..], b, a, i, newSize);
    return Ok(Some(i));
  }

  /** A count whose table size only matches by wrapping around announces more entries than the buffer holds. */
  lemma WrappedCount(length: nat, count: nat)
    requires length < INT32_LIMIT && count < INT32_LIMIT && length == Wrap32(At(count))
    ensures length == At(count) || (count > 0 && At(count - 1) + ENTRY > length)
  {
  }

  lemma NothingExpected(b: seq<byte>, a: seq<byte>, id: Guid, offset: int64, oldSize: int64, newSize: int64)
    requires HEADER <= |b| == |a|
    ensures Tracked(b, 0, id, offset, oldSize, None) && Expects(b, b, a, 0, None, newSize)
  {
  }

  /** The loop of VerifyOnlyShrink over the entries that the saved header announces. */
  method ExpectEntries(before: array<byte>, after: array<byte>, expected: array<byte>, count: nat, id: Guid,
                       offset: int64, oldSize: int64, newSize: int64)
    returns (r: Result<Option<nat>>)
    requires HEADER <= before.Length == after.Length == expected.Length < INT32_LIMIT
    requires expected != before && expected != after && expected[..] == before[..]
    requires count == Count(before[..]) < INT32_LIMIT && before.Length == Wrap32(At(count))
    modifies expected
    ensures r.Ok? ==> && before.Length == At(count)
                      && Tracked(before[..], count, id, offset, oldSize, r.value)
                      && Expects(expected[..], before[..], after[..], count, r.value, newSize)
    ensures r.Err? ==> before.Length == At(count) ==> forall t :: !SoleEntry(before[..], t, id, offset, oldSize)
  {
    hide Expects, Tracked, SoleEntry, Wrap32;
    WrappedCount(before.Length, count);
    ghost var b, a := before[..], after[..];
    NothingExpected(b, a, id, offset, oldSize, newSize);
    var found: Option<nat> := None;
    var i := 0;
    while i < count
      invariant 0 <= i <= count && forall j: nat | j < i :: HasEntry(b, j)
      invariant Tracked(b, i, id, offset, oldSize, found)
      invariant Expects(expected[..], b, a, i, found, newSize)
    {
      // Only a wrapped count gets here without a whole entry left; it always ends out of bounds.
      if At(i) + ENTRY > before.Length {
        return Err("Index was outside the bounds of the array");
      }
      var step := ExpectEntry(before, after, expected, i, id, offset, oldSize, newSize, found);
      if step.Err? {
        return Err(step.message);
      }
      found := step.value;
      i := i + 1;
    }
    assert count > 0 ==> HasEntry(b, count - 1);
    return Ok(found);
  }

  /** The comparison itself, once the buffers have the right shape. */
  method CompareExpected(before: array<byte>, after: array<byte>, count: nat, id: Guid, offset: int64, oldSize: int64, newSize: int64)
    returns (same: bool)
    requires HEADER <= before.Length == after.Length < INT32_LIMIT && 0 < newSize < oldSize
    requires count == Count(before[..]) < INT32_LIMIT && before.Length == Wrap32(At(count))
    ensures same <==> OnlyShrunk(before[..], after[..], id, offset, oldSize, newSize)
  {
    ghost var b, a := before[..], after[..];
    var expected := new byte[before.Length](k requires 0 <= k < before.Length reads before => before[k]);
    assert expected[..] == b;
    var scan := ExpectEntries(before, after, expected, count, id, offset, oldSize, newSize);
    assert before[..] == b && after[..] == a;
    if scan.Err? || scan.value.None? {
      return false;
    }
    Judge(expected[..], b, a, id, offset, oldSize, newSize, scan.value);
    return expected[..] == after[..];
  }

  /** Accepts exactly the shortening of the one authorized partition. Array lengths are 32-bit signed. */
  method VerifyOnlyShrink(before: array<byte>, after: array<byte>, id: Guid, offset: int64, oldSize: int64, newSize: int64)
    returns (r: Result<seq<byte>>)
    requires before.Length < INT32_LIMIT
    ensures r.Ok? <==> OnlyShrunk(before[..], after[..], id, offset, oldSize, newSize)
    ensures r.Ok? ==> r.value == after[..]
  {
    hide OnlyLengthChanged, SoleEntry;
    if before.Length != after.Length {
      ShrunkKeepsShape(before[..], after[..], id, offset, oldSize, newSize);
    }
    if before.Length != after.Length || before.Length < HEADER || newSize <= 0 || newSize >= oldSize {
      return Err("Unexpected layout shape or shrink size");
    }
    var count := AsInt32(U32(before[..], 4));
    if count < 0 || before.Length != Wrap32(At(count)) {
      return Err("Invalid saved GPT layout");
    }
    var same := CompareExpected(before, after, count, id, offset, oldSize, newSize);
    if !same {
      return Err("Windows resize changed more than the authorized NTFS partition length");
    }
    return Ok(after[..]);
  }
}
