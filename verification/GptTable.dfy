// The drive-layout buffer of IOCTL_DISK_GET_DRIVE_LAYOUT_EX: a 48-byte header
// followed by 144-byte GPT entries.
module GptTable {
  import opened Bytes

  const HEADER := 48
  const ENTRY := 144
  const MAX_ENTRIES := 4096

  const MIB := 1048576
  /** The size of the temporary EFI partition. */
  const ESP_SIZE: int64 := 536870912

  type Guid = g: seq<byte> | |g| == 16 witness Zeros(16)

  type EntryBytes = e: seq<byte> | |e| == ENTRY witness Zeros(ENTRY)

  const EMPTY_GUID: Guid := Zeros(16)

  // c12a7328-f81f-11d2-ba4b-00a0c93ec93b and de94bba4-06d1-4d40-a16a-bfd50179d6ac,
  // in the mixed-endian order of Guid.ToByteArray.
  const ESP_TYPE: Guid :=
    [0x28, 0x73, 0x2a, 0xc1, 0x1f, 0xf8, 0xd2, 0x11, 0xba, 0x4b, 0x00, 0xa0, 0xc9, 0x3e, 0xc9, 0x3b]
  const STAGE_TYPE: Guid :=
    [0xa4, 0xbb, 0x94, 0xde, 0xd1, 0x06, 0x40, 0x4d, 0xa1, 0x6a, 0xbf, 0xd5, 0x01, 0x79, 0xd6, 0xac]

  /** The range has MiB alignment and does not leave the 64-bit address space. */
  predicate Aligned(start: int64, length: int) {
    && MIB <= start && start % MIB == 0
    && 0 < length && length % MIB == 0
    && start + length < INT64_LIMIT
  }

  /** The offset of entry i. */
  function At(i: nat): nat {
    HEADER + ENTRY * i
  }

  function GuidAt(b: seq<byte>, p: nat): Guid
    requires p + 16 <= |b|
  {
    b[p..p + 16]
  }

  /** The buffer holds exactly the number of entries that its header announces. */
  predicate ValidTable(b: seq<byte>) {
    && HEADER <= |b|
    && U32(b, 4) <= MAX_ENTRIES
    && |b| == At(U32(b, 4))
  }

  function Count(b: seq<byte>): nat
    requires HEADER <= |b|
  {
    U32(b, 4)
  }

  /** Everything in the header but the entry count is the same. */
  predicate SameHeader(a: seq<byte>, b: seq<byte>) {
    HEADER <= |a| && HEADER <= |b| && a[0..4] == b[0..4] && a[8..HEADER] == b[8..HEADER]
  }

  predicate HasEntry(b: seq<byte>, i: nat) {
    At(i) + ENTRY <= |b|
  }

  // The fields of entry i.

  function Start(b: seq<byte>, i: nat): int64
    requires HasEntry(b, i)
  {
    I64(b, At(i) + 8)
  }

  function Size(b: seq<byte>, i: nat): int64
    requires HasEntry(b, i)
  {
    I64(b, At(i) + 16)
  }

  function Number(b: seq<byte>, i: nat): int32
    requires HasEntry(b, i)
  {
    I32(b, At(i) + 24)
  }

  function Type(b: seq<byte>, i: nat): Guid
    requires HasEntry(b, i)
  {
    GuidAt(b, At(i) + 32)
  }

  function Id(b: seq<byte>, i: nat): Guid
    requires HasEntry(b, i)
  {
    GuidAt(b, At(i) + 48)
  }

  /** An entry is in use when its length field is not zero. */
  predicate Occupied(b: seq<byte>, i: nat)
    requires HasEntry(b, i)
  {
    Size(b, i) != 0
  }

  /** The bytes of entry i. */
  function Block(b: seq<byte>, i: nat): EntryBytes
    requires HasEntry(b, i)
  {
    b[At(i)..At(i) + ENTRY]
  }

  lemma BlockSlice(b: seq<byte>, i: nat, x: nat, y: nat)
    requires HasEntry(b, i) && x <= y <= ENTRY
    ensures Block(b, i)[x..y] == b[At(i) + x..At(i) + y]
  {
    SliceOfSlice(b, At(i), At(i) + ENTRY, x, y);
  }

  /** Entry i with its RewritePartition byte, which is an instruction and not GPT data, cleared. */
  function Entry(b: seq<byte>, i: nat): EntryBytes
    requires HasEntry(b, i)
  {
    Block(b, i)[28 := 0]
  }

  /** The occupied entries among the first n, in table order. */
  function OccupiedEntries(b: seq<byte>, n: nat): seq<EntryBytes>
    requires At(n) <= |b|
  {
    if n == 0 then []
    else
      var es := OccupiedEntries(b, n - 1);
      if Occupied(b, n - 1) then es + [Entry(b, n - 1)] else es
  }

  /** The occupied entries among the first n, without their order. */
  ghost function OccupiedBag(b: seq<byte>, n: nat): multiset<EntryBytes>
    requires At(n) <= |b|
  {
    multiset(OccupiedEntries(b, n))
  }

  lemma OccupiedBagStep(b: seq<byte>, n: nat)
    requires At(n + 1) <= |b|
    ensures OccupiedBag(b, n + 1) == OccupiedBag(b, n) + if Occupied(b, n) then multiset{Entry(b, n)} else multiset{}
  {
  }

  function EntryId(e: EntryBytes): Guid {
    e[48..64]
  }

  lemma EntrySlice(b: seq<byte>, i: nat, x: nat, y: nat)
    requires HasEntry(b, i) && x <= y <= ENTRY && (28 < x || y <= 28)
    ensures Entry(b, i)[x..y] == b[At(i) + x..At(i) + y]
  {
    BlockSlice(b, i, x, y);
    SliceOfUpdate(Block(b, i), 28, 0, x, y);
  }

  lemma SameRead64(a: seq<byte>, p: nat, b: seq<byte>, q: nat)
    requires p + 8 <= |a| && q + 8 <= |b| && a[p..p + 8] == b[q..q + 8]
    ensures I64(a, p) == I64(b, q)
  {
  }

  lemma EntryFields(b: seq<byte>, i: nat)
    requires HasEntry(b, i)
    ensures I64(Entry(b, i), 8) == Start(b, i)
    ensures I64(Entry(b, i), 16) == Size(b, i)
    ensures I32(Entry(b, i), 24) == Number(b, i)
    ensures Entry(b, i)[32..48] == Type(b, i)
    ensures EntryId(Entry(b, i)) == Id(b, i)
  {
    EntrySlice(b, i, 8, 16);
    EntrySlice(b, i, 16, 24);
    EntrySlice(b, i, 24, 28);
    EntrySlice(b, i, 32, 48);
    EntrySlice(b, i, 48, 64);
    SameRead64(Entry(b, i), 8, b, At(i) + 8);
    SameRead64(Entry(b, i), 16, b, At(i) + 16);
  }

  /** Equal entries, the instruction byte aside, agree in every field. */
  lemma SameEntrySameFields(a: seq<byte>, i: nat, b: seq<byte>, j: nat)
    requires HasEntry(a, i) && HasEntry(b, j) && Entry(a, i) == Entry(b, j)
    ensures Start(a, i) == Start(b, j) && Size(a, i) == Size(b, j) && Number(a, i) == Number(b, j)
    ensures Type(a, i) == Type(b, j) && Id(a, i) == Id(b, j)
  {
    EntryFields(a, i);
    EntryFields(b, j);
  }

  lemma {:induction false} OccupiedEntriesHas(b: seq<byte>, n: nat, i: nat)
    requires At(n) <= |b| && i < n && Occupied(b, i)
    ensures Entry(b, i) in OccupiedEntries(b, n)
  {
    if i < n - 1 {
      OccupiedEntriesHas(b, n - 1, i);
    }
  }

  /** Tables that agree entry by entry on what is occupied have the same occupied entries. */
  lemma {:induction false} SameOccupiedEntries(a: seq<byte>, b: seq<byte>, n: nat)
    requires At(n) <= |a| && At(n) <= |b|
    requires forall i | 0 <= i < n ::
               Occupied(a, i) == Occupied(b, i) && (Occupied(a, i) ==> Entry(a, i) == Entry(b, i))
    ensures OccupiedEntries(a, n) == OccupiedEntries(b, n)
  {
    if n > 0 {
      SameOccupiedEntries(a, b, n - 1);
    }
  }

  /** Free entries at the end of a table contribute nothing. */
  lemma {:induction false} FreeTailEntries(b: seq<byte>, n: nat, m: nat)
    requires n <= m && At(m) <= |b|
    requires forall i | n <= i < m :: !Occupied(b, i)
    ensures OccupiedEntries(b, m) == OccupiedEntries(b, n)
  {
    if n < m {
      FreeTailEntries(b, n, m - 1);
    }
  }

  /** A table is its header and its entries. */
  lemma TableExtensional(a: seq<byte>, b: seq<byte>, n: nat)
    requires |a| == |b| == At(n)
    requires a[..HEADER] == b[..HEADER] && forall j | 0 <= j < n :: Block(a, j) == Block(b, j)
    ensures a == b
  {
    forall k: nat | k < |a|
      ensures a[k] == b[k]
    {
      if k < HEADER {
        assert a[k] == a[..HEADER][k] && b[k] == b[..HEADER][k];
      } else {
        var j := (k - HEADER) / ENTRY;
        assert At(j) <= k < At(j + 1) && j < n;
        assert Block(a, j) == Block(b, j);
        InBlock(a, j, k - At(j));
        InBlock(b, j, k - At(j));
      }
    }
  }

  lemma InBlock(b: seq<byte>, i: nat, d: nat)
    requires HasEntry(b, i) && d < ENTRY
    ensures Block(b, i)[d] == b[At(i) + d]
  {
  }

  /** e with the bytes from d on replaced by v. */
  function Patch(e: EntryBytes, d: nat, v: seq<byte>): EntryBytes
    requires d + |v| <= ENTRY
  {
    e[..d] + v + e[d + |v|..]
  }

  lemma PatchSlice(e: EntryBytes, d: nat, v: seq<byte>, x: nat, y: nat)
    requires d + |v| <= ENTRY && x <= y <= ENTRY && (y <= d || d + |v| <= x)
    ensures Patch(e, d, v)[x..y] == e[x..y]
  {
    var p, q := Patch(e, d, v)[x..y], e[x..y];
    forall k | 0 <= k < |p|
      ensures p[k] == q[k]
    {
      assert p[k] == Patch(e, d, v)[x + k] == e[x + k];
    }
  }

  lemma ClearsRewrite(e: EntryBytes)
    ensures Patch(e, 28, [0]) == e[28 := 0]
  {
  }

  lemma PatchWhole(e: EntryBytes, v: EntryBytes)
    ensures Patch(e, 0, v) == v
  {
  }

  /** A patch is where it was put, and every slice beside it is as before. */
  lemma PatchSlices(e: EntryBytes, d: nat, v: seq<byte>)
    requires d + |v| <= ENTRY
    ensures Patch(e, d, v)[d..d + |v|] == v
    ensures forall x, y {:trigger Patch(e, d, v)[x..y]} |
              0 <= x <= y <= ENTRY && (y <= d || d + |v| <= x) :: Patch(e, d, v)[x..y] == e[x..y]
  {
    forall x, y | 0 <= x <= y <= ENTRY && (y <= d || d + |v| <= x)
      ensures Patch(e, d, v)[x..y] == e[x..y]
    {
      PatchSlice(e, d, v, x, y);
    }
  }

  /** Copies v into entry i, d bytes from its beginning. */
  method PutEntry(b: array<byte>, i: nat, d: nat, v: seq<byte>)
    requires HasEntry(b[..], i) && d + |v| <= ENTRY
    modifies b
    ensures b[..HEADER] == old(b[..HEADER])
    ensures Block(b[..], i) == Patch(old(Block(b[..], i)), d, v)
    ensures forall j: nat | j != i && HasEntry(b[..], j) :: Block(b[..], j) == old(Block(b[..], j))
  {
    ghost var was := b[..];
    Put(b, At(i) + d, v);
    ghost var now := b[..];
    forall k | 0 <= k < ENTRY
      ensures Block(now, i)[k] == Patch(Block(was, i), d, v)[k]
    {
    }
    forall j: nat | j != i && HasEntry(was, j)
      ensures Block(now, j) == Block(was, j)
    {
    }
  }

  /** Entry i is the first one that carries id, whether or not it is occupied. */
  predicate FirstWithId(b: seq<byte>, id: Guid, i: nat)
    requires HEADER <= |b|
  {
    && i < Count(b) < INT32_LIMIT
    && At(i) + 64 <= |b|
    && GuidAt(b, At(i) + 48) == id
    && forall j: nat | j < i :: GuidAt(b, At(j) + 48) != id
  }

  lemma FirstWithIdUnique(b: seq<byte>, id: Guid, i: nat, j: nat)
    requires HEADER <= |b| && FirstWithId(b, id, i) && FirstWithId(b, id, j)
    ensures i == j
  {
  }

  /** The index of the first entry that carries id. */
  method FindId(layout: array<byte>, id: Guid) returns (r: Result<int>)
    ensures r.Ok? <==> HEADER <= layout.Length && exists i :: FirstWithId(layout[..], id, i)
    ensures r.Ok? ==> 0 <= r.value && FirstWithId(layout[..], id, r.value)
  {
    if layout.Length < HEADER {
      return Err("Destination array is not long enough");
    }
    var count := AsInt32(U32(layout[..], 4));
    var i := 0;
    while i < count
      invariant 0 <= i && (i <= count || i == 0)
      invariant forall j: nat | j < i :: At(j) + 64 <= layout.Length && GuidAt(layout[..], At(j) + 48) != id
    {
      if At(i) + 64 > layout.Length {
        return Err("Offset and length were out of bounds");
      }
      if GuidAt(layout[..], At(i) + 48) == id {
        assert FirstWithId(layout[..], id, i);
        return Ok(i);
      }
      i := i + 1;
    }
    return Err("Partition missing");
  }

  lemma NotFound(b: seq<byte>, id: Guid, start: int64, length: int64, kind: Guid, i: nat)
    requires HEADER <= |b| && FirstWithId(b, id, i) && !FoundAt(b, id, start, length, kind, i)
    ensures forall j :: !FoundAt(b, id, start, length, kind, j)
  {
    hide I64, Count, GuidAt;
  }

  /** The number of partition id, provided that the first entry with that identifier has the given extent and type. */
  method FindPartition(layout: array<byte>, id: Guid, start: int64, length: int64, kind: Guid) returns (r: Result<int32>)
    ensures r.Ok? <==> HEADER <= layout.Length && exists i :: FoundAt(layout[..], id, start, length, kind, i)
    ensures r.Ok? ==> exists i :: FoundAt(layout[..], id, start, length, kind, i) && r.value == I32(layout[..], At(i) + 24)
  {
    hide I64, FirstWithId, U32;
    var found := FindId(layout, id);
    if found.Err? {
      return Err("Created partition missing from refreshed GPT");
    }
    var p := At(found.value);
    if I64(layout[..], p + 8) != start || I64(layout[..], p + 16) != length || GuidAt(layout[..], p + 32) != kind {
      NotFound(layout[..], id, start, length, kind, found.value);
      return Err("Partition identity was reused for a different extent");
    }
    assert FoundAt(layout[..], id, start, length, kind, found.value);
    return Ok(AsInt32(U32(layout[..], p + 24)));
  }

  predicate FoundAt(b: seq<byte>, id: Guid, start: int64, length: int64, kind: Guid, i: nat)
    requires HEADER <= |b|
  {
    && FirstWithId(b, id, i)
    && I64(b, At(i) + 8) == start && I64(b, At(i) + 16) == length && GuidAt(b, At(i) + 32) == kind
  }
}
