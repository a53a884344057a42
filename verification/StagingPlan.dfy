// Planning of the two temporary installer partitions inside the raw layout buffer.
module StagingPlan {
  import opened Bytes
  import opened GptTable

  const MIN_DATA: int64 := 1073741824
  const MAX_DATA: int64 := 68719476736

  // What the plan demands of the table.

  predicate InventoryOk(b: seq<byte>) {
    && HEADER <= |b| && I32(b, 0) == 1
    && 0 <= I32(b, 4) <= I32(b, 40) <= MAX_ENTRIES
    && |b| == At(I32(b, 4))
  }

  /** The range lies between the first usable byte and the end of the usable length. */
  predicate InUsable(b: seq<byte>, start: int, end: int)
    requires HEADER <= |b|
  {
    var first, usable := I64(b, 24), I64(b, 32);
    && first <= start
    && -INT64_LIMIT <= first + usable < INT64_LIMIT
    && end <= first + usable
  }

  /** Entry i is free, or well-formed, disjoint from the range and not already one of ours. */
  predicate Compatible(b: seq<byte>, i: nat, start: int, end: int, esp: Guid, data: Guid)
    requires HasEntry(b, i)
  {
    Occupied(b, i) ==>
      && 0 < Size(b, i) && Start(b, i) + Size(b, i) < INT64_LIMIT
      && (Start(b, i) + Size(b, i) <= start || end <= Start(b, i))
      && Id(b, i) != esp && Id(b, i) != data
  }

  /** The free entries among the first n, in table order. */
  function FreeSlots(b: seq<byte>, n: nat): seq<nat>
    requires At(n) <= |b|
  {
    if n == 0 then []
    else if Occupied(b, n - 1) then FreeSlots(b, n - 1) else FreeSlots(b, n - 1) + [n - 1]
  }

  /** The partition numbers of the occupied entries among the first n. */
  function Numbers(b: seq<byte>, n: nat): set<int32>
    requires At(n) <= |b|
  {
    if n == 0 then {}
    else if Occupied(b, n - 1) then Numbers(b, n - 1) + {Number(b, n - 1)} else Numbers(b, n - 1)
  }

  lemma {:induction false} FreeSlotsExact(b: seq<byte>, n: nat)
    requires At(n) <= |b|
    ensures forall i | 0 <= i < |FreeSlots(b, n)| :: FreeSlots(b, n)[i] < n && !Occupied(b, FreeSlots(b, n)[i])
    ensures forall i, j | 0 <= i < j < |FreeSlots(b, n)| :: FreeSlots(b, n)[i] < FreeSlots(b, n)[j]
    ensures forall k: nat | k < n && !Occupied(b, k) :: k in FreeSlots(b, n)
  {
    if n > 0 {
      FreeSlotsExact(b, n - 1);
    }
  }

  lemma {:induction false} NumbersExact(b: seq<byte>, n: nat, i: nat)
    requires At(n) <= |b|
    ensures |Numbers(b, n)| <= n
    ensures i < n && Occupied(b, i) ==> Number(b, i) in Numbers(b, n)
  {
    if n > 0 {
      NumbersExact(b, n - 1, i);
    }
  }

  /** The checks on the arguments and the header. */
  predicate RequestOk(b: seq<byte>, start: int64, dataSize: int64, esp: Guid, data: Guid) {
    && InventoryOk(b)
    && esp != EMPTY_GUID && data != EMPTY_GUID && esp != data && MIN_DATA <= dataSize <= MAX_DATA
    && Aligned(start, ESP_SIZE + dataSize)
    && InUsable(b, start, start + ESP_SIZE + dataSize)
  }

  predicate AllCompatible(b: seq<byte>, n: nat, start: int, end: int, esp: Guid, data: Guid)
    requires At(n) <= |b|
  {
    forall i | 0 <= i < n :: Compatible(b, i, start, end, esp, data)
  }

  /** Two entries are free or can still be added. */
  predicate RoomForTwo(b: seq<byte>)
    requires ValidTable(b)
  {
    |FreeSlots(b, Count(b))| + I32(b, 40) - Count(b) >= 2
  }

  predicate Plannable(b: seq<byte>, start: int64, dataSize: int64, esp: Guid, data: Guid) {
    && RequestOk(b, start, dataSize, esp, data) && ValidTable(b)
    && AllCompatible(b, Count(b), start, start + ESP_SIZE + dataSize, esp, data)
    && RoomForTwo(b)
  }

  // What the plan produces.

  /** The entries that receive the two partitions: the first free ones, else new ones at the end. */
  function Slots(b: seq<byte>): (nat, nat)
    requires ValidTable(b)
  {
    var free, n := FreeSlots(b, Count(b)), Count(b);
    if |free| >= 2 then (free[0], free[1])
    else if |free| == 1 then (free[0], n)
    else (n, n + 1)
  }

  /** The slots s fit a table that grows from n to m entries, and every new entry is one of them. */
  predicate Covers(s: (nat, nat), n: nat, m: nat) {
    && s.0 < s.1 && s.0 <= n && s.1 <= n + 1 && (s.1 == n + 1 ==> s.0 == n)
    && m == if s.1 < n then n else s.1 + 1
  }

  predicate LeastUnused(numbers: set<int32>, k: int32) {
    1 <= k && k !in numbers && forall j: int32 | 1 <= j < k :: j in numbers
  }

  /** k and l are the two lowest unused numbers. */
  predicate LowestTwo(numbers: set<int32>, k: int32, l: int32) {
    LeastUnused(numbers, k) && LeastUnused(numbers + {k}, l)
  }

  predicate AsciiName(name: string) {
    |name| <= 36 && forall i | 0 <= i < |name| :: name[i] < 128 as char
  }

  datatype Extent = Extent(kind: Guid, id: Guid, start: int64, size: int64, name: string)

  /** e is a fresh entry for x: every byte is given. */
  predicate NewEntry(e: EntryBytes, x: Extent, number: int32) {
    && e[0..4] == LE32(1) && e[4..8] == Zeros(4)
    && e[8..16] == LE64(x.start) && e[16..24] == LE64(x.size)
    && e[24..28] == LE32(number) && e[28..29] == [1] && e[29..32] == Zeros(3)
    && NewIdentity(e, x)
  }

  predicate NewIdentity(e: EntryBytes, x: Extent) {
    && AsciiName(x.name)
    && e[32..48] == x.kind && e[48..64] == x.id
    && e[64..72] == LE64(-INT64_LIMIT)
    && e[72..72 + 2 * |x.name|] == Utf16(x.name) && e[72 + 2 * |x.name|..ENTRY] == Zeros(72 - 2 * |x.name|)
  }

  lemma NewEntryFields(a: seq<byte>, i: nat, x: Extent, number: int32)
    requires HasEntry(a, i) && NewEntry(Block(a, i), x, number)
    ensures Start(a, i) == x.start && Size(a, i) == x.size && Number(a, i) == number
    ensures Type(a, i) == x.kind && Id(a, i) == x.id
  {
    hide I64, I32, Block, LE32, LE64, Utf16, AsciiName;
    BlockSlice(a, i, 8, 16);
    BlockSlice(a, i, 16, 24);
    BlockSlice(a, i, 24, 28);
    BlockSlice(a, i, 32, 48);
    BlockSlice(a, i, 48, 64);
    Read64(a, At(i) + 8, x.start);
    Read64(a, At(i) + 16, x.size);
    Read32(a, At(i) + 24, number);
  }

  function EspExtent(start: int64, esp: Guid): Extent {
    Extent(ESP_TYPE, esp, start, ESP_SIZE, "Omarchy installer EFI")
  }

  function DataExtent(start: int64, dataSize: int64, data: Guid): Extent
    requires start + ESP_SIZE < INT64_LIMIT
  {
    Extent(STAGE_TYPE, data, start + ESP_SIZE, dataSize, "Omarchy installer source")
  }

  /** a is b with x and y added in slots s: old entries and new entries, byte by byte. */
  predicate AddedIn(b: seq<byte>, a: seq<byte>, s: (nat, nat), x: Extent, y: Extent)
    requires ValidTable(b) && ValidTable(a)
  {
    && Covers(s, Count(b), Count(a)) && s.0 < s.1 < Count(a)
    && (forall i: nat | i < Count(b) && i != s.0 && i != s.1 :: Block(a, i) == Entry(b, i))
    && NewEntry(Block(a, s.0), x, Number(a, s.0))
    && NewEntry(Block(a, s.1), y, Number(a, s.1))
  }

  predicate Planned(b: seq<byte>, a: seq<byte>, start: int64, dataSize: int64, esp: Guid, data: Guid)
    requires ValidTable(b)
  {
    var s, numbers := Slots(b), Numbers(b, Count(b));
    && start + ESP_SIZE < INT64_LIMIT
    && ValidTable(a) && SameHeader(b, a)
    && AddedIn(b, a, s, EspExtent(start, esp), DataExtent(start, dataSize, data))
    && LowestTwo(numbers, Number(a, s.0), Number(a, s.1))
  }

  // The planner.

  predicate Overlaps(b: seq<byte>, i: nat, start: int, end: int)
    requires HasEntry(b, i)
  {
    var a, size := Start(b, i), Size(b, i);
    size < 0 || a + size >= INT64_LIMIT || (start < a + size && a < end)
  }

  lemma CompatibleMeans(b: seq<byte>, i: nat, start: int, end: int, esp: Guid, data: Guid)
    requires HasEntry(b, i)
    ensures Compatible(b, i, start, end, esp, data)
       <==> (Size(b, i) == 0 || (!Overlaps(b, i, start, end) && Id(b, i) != esp && Id(b, i) != data))
  {
  }

  method ScanEntries(before: array<byte>, count: nat, start: int, end: int, esp: Guid, data: Guid)
    returns (r: Result<(seq<nat>, set<int32>)>)
    requires At(count) <= before.Length
    ensures r.Ok? <==> AllCompatible(before[..], count, start, end, esp, data)
    ensures r.Ok? ==> r.value == (FreeSlots(before[..], count), Numbers(before[..], count))
  {
    var slots: seq<nat>, numbers: set<int32> := [], {};
    hide I64, I32, Compatible;
    ghost var b := before[..];
    var i := 0;
    while i < count
      invariant 0 <= i <= count
      invariant AllCompatible(b, i, start, end, esp, data)
      invariant slots == FreeSlots(b, i) && numbers == Numbers(b, i)
    {
      CompatibleMeans(b, i, start, end, esp, data);
      if Size(before[..], i) == 0 {
        slots := slots + [i];
      } else {
        if Overlaps(before[..], i, start, end) {
          return Err("Staging overlaps existing data");
        }
        if Id(before[..], i) == esp || Id(before[..], i) == data {
          return Err("Staging GUID already exists");
        }
        numbers := numbers + {Number(before[..], i)};
      }
      i := i + 1;
    }
    return Ok((slots, numbers));
  }

  method NextNumber(numbers: set<int32>) returns (number: int32)
    requires |numbers| < INT32_LIMIT - 1
    ensures LeastUnused(numbers, number)
  {
    var k := 1;
    ghost var passed: set<int32> := {};
    while k in numbers
      invariant 1 <= k && k == |passed| + 1 && k < INT32_LIMIT
      invariant passed <= numbers && forall j: int32 :: j in passed <==> 1 <= j < k
      decreases |numbers| - |passed|
    {
      passed := passed + {k};
      Subsets(passed, numbers);
      k := k + 1;
    }
    return k;
  }

  /** A cleared entry with a style and an extent. */
  function HeadBytes(x: Extent): EntryBytes {
    Patch(Patch(Patch(Zeros(ENTRY), 0, LE32(1)), 8, LE64(x.start)), 16, LE64(x.size))
  }

  function ExtentBytes(x: Extent, number: int32): EntryBytes {
    Patch(Patch(HeadBytes(x), 24, LE32(number)), 28, [1])
  }

  function IdentityBytes(e: EntryBytes, x: Extent): EntryBytes
    requires AsciiName(x.name)
  {
    Patch(Patch(Patch(Patch(e, 32, x.kind), 48, x.id), 64, LE64(-INT64_LIMIT)), 72, Utf16(x.name))
  }

  lemma HeadSlices(x: Extent)
    ensures var e := HeadBytes(x);
            && e[0..4] == LE32(1) && e[4..8] == Zeros(4) && e[8..16] == LE64(x.start) && e[16..24] == LE64(x.size)
            && e[24..ENTRY] == Zeros(120)
  {
    var e0: EntryBytes := Zeros(ENTRY);
    assert e0[4..8] == Zeros(4) && e0[24..ENTRY] == Zeros(120);
    PatchSlices(e0, 0, LE32(1));
    var e1 := Patch(e0, 0, LE32(1));
    PatchSlices(e1, 8, LE64(x.start));
    var e2 := Patch(e1, 8, LE64(x.start));
    PatchSlices(e2, 16, LE64(x.size));
  }

  lemma ExtentSlices(x: Extent, number: int32)
    ensures var e := ExtentBytes(x, number);
            && e[0..4] == LE32(1) && e[4..8] == Zeros(4) && e[8..16] == LE64(x.start) && e[16..24] == LE64(x.size)
            && e[24..28] == LE32(number) && e[28..29] == [1] && e[29..ENTRY] == Zeros(115)
  {
    HeadSlices(x);
    var e := HeadBytes(x);
    SliceOfSlice(e, 24, ENTRY, 5, 120);
    assert e[29..ENTRY] == Zeros(115);
    PatchSlices(e, 24, LE32(number));
    PatchSlices(Patch(e, 24, LE32(number)), 28, [1]);
  }

  lemma IdentitySlices(e: EntryBytes, x: Extent)
    requires AsciiName(x.name) && e[29..ENTRY] == Zeros(115)
    ensures NewIdentity(IdentityBytes(e, x), x)
  {
    var n := |x.name|;
    SliceOfSlice(e, 29, ENTRY, 43 + 2 * n, 115);
    assert e[72 + 2 * n..ENTRY] == Zeros(72 - 2 * n);
    PatchSlices(e, 32, x.kind);
    var e1 := Patch(e, 32, x.kind);
    PatchSlices(e1, 48, x.id);
    var e2 := Patch(e1, 48, x.id);
    PatchSlices(e2, 64, LE64(-INT64_LIMIT));
    var e3 := Patch(e2, 64, LE64(-INT64_LIMIT));
    PatchSlices(e3, 72, Utf16(x.name));
    hide Patch;
  }

  lemma IdentityKeepsExtent(e: EntryBytes, x: Extent, p: nat, q: nat)
    requires AsciiName(x.name) && p <= q <= 32
    ensures IdentityBytes(e, x)[p..q] == e[p..q]
  {
    var e1 := Patch(e, 32, x.kind);
    var e2 := Patch(e1, 48, x.id);
    var e3 := Patch(e2, 64, LE64(-INT64_LIMIT));
    PatchSlice(e, 32, x.kind, p, q);
    PatchSlice(e1, 48, x.id, p, q);
    PatchSlice(e2, 64, LE64(-INT64_LIMIT), p, q);
    PatchSlice(e3, 72, Utf16(x.name), p, q);
  }

  lemma ZerosIn(e: EntryBytes, p: nat, n: nat, m: nat)
    requires p + n <= ENTRY && m <= n && e[p..p + n] == Zeros(n)
    ensures e[p..p + m] == Zeros(m)
  {
    SliceOfSlice(e, p, p + n, 0, m);
    assert Zeros(n)[0..m] == Zeros(m);
  }

  lemma FilledIsNew(x: Extent, number: int32)
    requires AsciiName(x.name)
    ensures NewEntry(IdentityBytes(ExtentBytes(x, number), x), x, number)
  {
    hide ExtentBytes, IdentityBytes, NewIdentity, LE32, LE64;
    ExtentSlices(x, number);
    var e := ExtentBytes(x, number);
    ZerosIn(e, 29, 115, 3);
    IdentitySlices(e, x);
    IdentityKeepsExtent(e, x, 0, 4);
    IdentityKeepsExtent(e, x, 4, 8);
    IdentityKeepsExtent(e, x, 8, 16);
    IdentityKeepsExtent(e, x, 16, 24);
    IdentityKeepsExtent(e, x, 24, 28);
    IdentityKeepsExtent(e, x, 28, 29);
    IdentityKeepsExtent(e, x, 29, 32);
  }

  /** Clears entry i and writes its style, extent and number. */
  method FillExtent(b: array<byte>, i: nat, x: Extent, number: int32)
    requires HasEntry(b[..], i)
    modifies b
    ensures b[..HEADER] == old(b[..HEADER])
    ensures Block(b[..], i) == ExtentBytes(x, number)
    ensures forall j: nat | j != i && HasEntry(b[..], j) :: Block(b[..], j) == old(Block(b[..], j))
  {
    PutEntry(b, i, 0, Zeros(ENTRY));
    assert Block(b[..], i) == Zeros(ENTRY);
    PutEntry(b, i, 0, LE32(1));
    PutEntry(b, i, 8, LE64(x.start));
    PutEntry(b, i, 16, LE64(x.size));
    PutEntry(b, i, 24, LE32(number));
    PutEntry(b, i, 28, [1]);
  }

  /** Writes the type, identifier, attributes and name of entry i. */
  method FillIdentity(b: array<byte>, i: nat, x: Extent)
    requires HasEntry(b[..], i) && AsciiName(x.name)
    modifies b
    ensures b[..HEADER] == old(b[..HEADER])
    ensures Block(b[..], i) == IdentityBytes(old(Block(b[..], i)), x)
    ensures forall j: nat | j != i && HasEntry(b[..], j) :: Block(b[..], j) == old(Block(b[..], j))
  {
    PutEntry(b, i, 32, x.kind);
    PutEntry(b, i, 48, x.id);
    PutEntry(b, i, 64, LE64(-INT64_LIMIT));
    PutEntry(b, i, 72, Utf16(x.name));
  }

  method FillEntry(b: array<byte>, i: nat, x: Extent, number: int32)
    requires HasEntry(b[..], i) && AsciiName(x.name)
    modifies b
    ensures b[..HEADER] == old(b[..HEADER])
    ensures NewEntry(Block(b[..], i), x, number)
    ensures forall j: nat | j != i && HasEntry(b[..], j) :: Block(b[..], j) == old(Block(b[..], j))
  {
    FillExtent(b, i, x, number);
    FillIdentity(b, i, x);
    FilledIsNew(x, number);
  }
}
