// The staging planner and what its plans keep.
module StagingLayout {
  import opened Bytes
  import opened GptTable
  import opened StagingPlan

  /** The wider table that the planner starts from: the old entries, cleared of instructions, and blank ones. */
  ghost predicate Widened(b: seq<byte>, a: seq<byte>, m: nat)
    requires ValidTable(b)
  {
    && m <= MAX_ENTRIES && |a| == At(m) && Count(b) <= m && Count(a) == m && SameHeader(b, a)
    && forall i | 0 <= i < Count(b) :: Block(a, i) == Entry(b, i)
  }

  /** h is a table that continues b, with m for its count. */
  lemma NewHeader(b: seq<byte>, c: seq<byte>, h: seq<byte>, m: nat)
    requires ValidTable(b) && Count(b) <= m <= MAX_ENTRIES && |h| == |c| == At(m)
    requires forall k | 0 <= k < |b| :: c[k] == b[k]
    requires forall k | 0 <= k < |h| :: h[k] == if 4 <= k < 8 then LE32(m)[k - 4] else c[k]
    ensures Count(h) == m && SameHeader(b, h)
    ensures forall i: nat | i < Count(b) :: Block(h, i) == Block(b, i)
  {
    hide LE32;
    assert h[4..8] == LE32(m);
    Read32(h, 4, m);
    assert forall k | 0 <= k < |b| && !(4 <= k < 8) :: h[k] == b[k];
    forall i: nat | i < Count(b)
      ensures Block(h, i) == Block(b, i)
    {
    }
  }

  method Widen(before: array<byte>, m: nat) returns (result: array<byte>)
    requires ValidTable(before[..]) && Count(before[..]) <= m <= MAX_ENTRIES
    ensures fresh(result) && Widened(before[..], result[..], m)
  {
    ghost var b, n := before[..], Count(before[..]);
    hide U32, I32, LE32, Patch;
    result := new byte[At(m)](k reads before => if 0 <= k < before.Length then before[k] else 0);
    ghost var c := result[..];
    assert forall k | 0 <= k < |b| :: c[k] == b[k];
    Put(result, 4, LE32(m));
    ghost var h := result[..];
    NewHeader(b, c, h, m);
    ghost var head := h[..HEADER];
    var i := 0;
    while i < m
      invariant 0 <= i <= m
      invariant result[..HEADER] == head
      invariant forall j: nat | i <= j < n :: Block(result[..], j) == Block(b, j)
      invariant forall j: nat | j < i && j < n :: Block(result[..], j) == Entry(b, j)
    {
      if i < n {
        ClearsRewrite(Block(b, i));
      }
      PutEntry(result, i, 28, [0]);
      i := i + 1;
    }
    HeaderKept(h, result[..], head);
  }

  lemma HeaderKept(h: seq<byte>, a: seq<byte>, head: seq<byte>)
    requires HEADER <= |h| && HEADER <= |a| && h[..HEADER] == head == a[..HEADER]
    ensures a[0..4] == h[0..4] && a[4..8] == h[4..8] && a[8..HEADER] == h[8..HEADER]
  {
    SliceOfSlice(a, 0, HEADER, 0, 4);
    SliceOfSlice(a, 0, HEADER, 4, 8);
    SliceOfSlice(a, 0, HEADER, 8, HEADER);
    SliceOfSlice(h, 0, HEADER, 0, 4);
    SliceOfSlice(h, 0, HEADER, 4, 8);
    SliceOfSlice(h, 0, HEADER, 8, HEADER);
  }

  lemma FilledIsPlanned(b: seq<byte>, w: seq<byte>, a: seq<byte>, s: (nat, nat), m: nat, x: Extent, y: Extent, k: int32, l: int32)
    requires ValidTable(b) && Widened(b, w, m) && |a| == |w| && a[..HEADER] == w[..HEADER]
    requires Covers(s, Count(b), m)
    requires forall i: nat | i < m && i != s.0 && i != s.1 :: Block(a, i) == Block(w, i)
    requires NewEntry(Block(a, s.0), x, k) && NewEntry(Block(a, s.1), y, l)
    ensures ValidTable(a) && SameHeader(b, a) && AddedIn(b, a, s, x, y)
    ensures Number(a, s.0) == k && Number(a, s.1) == l
  {
    hide NewEntry, Number;
    HeaderKept(w, a, w[..HEADER]);
    NewEntryFields(a, s.0, x, k);
    NewEntryFields(a, s.1, y, l);
  }

  /** Fills the two slots of a widened table with the lowest unused numbers. */
  method FillSlots(ghost b: seq<byte>, result: array<byte>, s: (nat, nat), x: Extent, y: Extent, used: set<int32>)
    requires HEADER <= result.Length
    requires ValidTable(b) && Widened(b, result[..], Count(result[..])) && AsciiName(x.name) && AsciiName(y.name)
    requires Covers(s, Count(b), Count(result[..])) && |used| <= MAX_ENTRIES
    modifies result
    ensures ValidTable(result[..]) && SameHeader(b, result[..]) && AddedIn(b, result[..], s, x, y)
    ensures LowestTwo(used, Number(result[..], s.0), Number(result[..], s.1))
  {
    ghost var w := result[..];
    var k := NextNumber(used);
    hide NewEntry, Number, AddedIn, SameHeader, LeastUnused;
    FillEntry(result, s.0, x, k);
    var l := NextNumber(used + {k});
    FillEntry(result, s.1, y, l);
    FilledIsPlanned(b, w, result[..], s, Count(w), x, y, k, l);
  }

  lemma SlotsAreFree(b: seq<byte>)
    requires ValidTable(b)
    ensures var s, n := Slots(b), Count(b);
            && Covers(s, n, if s.1 < n then n else s.1 + 1)
            && (s.0 < n ==> !Occupied(b, s.0)) && (s.1 < n ==> !Occupied(b, s.1))
            && (forall k: nat | k < s.1 && k < n && k != s.0 :: Occupied(b, k))
  {
    FreeSlotsExact(b, Count(b));
    var free := FreeSlots(b, Count(b));
    forall k: nat | k < Slots(b).1 && k < Count(b) && k != Slots(b).0
      ensures Occupied(b, k)
    {
      assert !Occupied(b, k) ==> k in free;
    }
  }

  lemma InventoryIsTable(b: seq<byte>)
    requires InventoryOk(b)
    ensures ValidTable(b) && Count(b) == I32(b, 4)
  {
  }

  /** The loop that widens the table until there are two slots. */
  method ChooseSlots(b: seq<byte>, free: seq<nat>, maximum: nat) returns (r: Result<((nat, nat), nat)>)
    requires ValidTable(b) && Count(b) <= maximum && free == FreeSlots(b, Count(b))
    ensures r.Ok? <==> |free| + maximum - Count(b) >= 2
    ensures r.Ok? ==> r.value.0 == Slots(b) && r.value.1 <= maximum && Covers(r.value.0, Count(b), r.value.1)
  {
    var slots, count := free, Count(b);
    FreeSlotsExact(b, count);
    while |slots| < 2
      invariant || (count == Count(b) && slots == free)
                || (count == Count(b) + 1 <= maximum && |free| <= 1 && slots == free + [Count(b)])
                || (count == Count(b) + 2 <= maximum && free == [] && slots == [Count(b), Count(b) + 1])
      decreases 2 - |slots|
    {
      if count >= maximum {
        return Err("Two free GPT entries required");
      }
      slots, count := slots + [count], count + 1;
    }
    return Ok(((slots[0], slots[1]), count));
  }

  lemma NamesAreAscii(start: int64, dataSize: int64, esp: Guid, data: Guid)
    requires start + ESP_SIZE < INT64_LIMIT
    ensures AsciiName(EspExtent(start, esp).name) && AsciiName(DataExtent(start, dataSize, data).name)
  {
  }

  lemma WidenedCount(b: seq<byte>, a: seq<byte>, m: nat)
    requires ValidTable(b) && Widened(b, a, m)
    ensures HEADER <= |a| && Count(a) == m
  {
  }

  /** The plan itself, once the request and the entries have been checked. */
  method Build(before: array<byte>, ghost b: seq<byte>, s: (nat, nat), count: nat, numbers: set<int32>,
               start: int64, dataSize: int64, esp: Guid, data: Guid)
    returns (result: array<byte>)
    requires b == before[..] && ValidTable(b) && s == Slots(b) && numbers == Numbers(b, Count(b))
    requires Covers(s, Count(b), count) && count <= MAX_ENTRIES && start + ESP_SIZE < INT64_LIMIT
    ensures fresh(result) && Planned(b, result[..], start, dataSize, esp, data)
  {
    hide I64, I32, Slots, Numbers, Block, Entry, Widened, Number, NewEntry, AddedIn, LowestTwo, LeastUnused,
         SameHeader, AsciiName, EspExtent, DataExtent;
    NumbersExact(b, Count(b), 0);
    NamesAreAscii(start, dataSize, esp, data);
    result := Widen(before, count);
    WidenedCount(b, result[..], count);
    FillSlots(b, result, s, EspExtent(start, esp), DataExtent(start, dataSize, data), numbers);
  }

  /** Plans the EFI and the data partition, or refuses. */
  method PlanStagingLayout(before: array<byte>, start: int64, dataSize: int64, esp: Guid, data: Guid)
    returns (r: Result<array<byte>>)
    ensures r.Ok? <==> Plannable(before[..], start, dataSize, esp, data)
    ensures r.Ok? ==> fresh(r.value) && Planned(before[..], r.value[..], start, dataSize, esp, data)
  {
    hide AllCompatible, Slots, FreeSlots, Numbers, Planned, I64, Covers, InUsable, EMPTY_GUID, U32;
    if !RequestOk(before[..], start, dataSize, esp, data) {
      return Err("Invalid GPT inventory, staging identity, size, alignment or bounds");
    }
    ghost var b := before[..];
    InventoryIsTable(b);
    var scan := ScanEntries(before, I32(before[..], 4), start, start + ESP_SIZE + dataSize, esp, data);
    if scan.Err? {
      return Err(scan.message);
    }
    var (free, numbers) := scan.value;
    var choice := ChooseSlots(before[..], free, I32(before[..], 40));
    if choice.Err? {
      return Err(choice.message);
    }
    var result := Build(before, b, choice.value.0, choice.value.1, numbers, start, dataSize, esp, data);
    assert before[..] == b;
    return Ok(result);
  }
}
