// What staging plans keep, and how deletion undoes them.
module StagingTheorems {
  import opened Bytes
  import opened GptTable
  import opened Keyed
  import opened DiskDiff
  import opened StagingPlan
  import opened StagingLayout
  import opened StagingDeletion

  // The layout invariant.

  predicate Disjoint(b: seq<byte>, i: nat, j: nat)
    requires HasEntry(b, i) && HasEntry(b, j)
  {
    Start(b, i) + Size(b, i) <= Start(b, j) || Start(b, j) + Size(b, j) <= Start(b, i)
  }

  predicate WithinBounds(b: seq<byte>, i: nat)
    requires HasEntry(b, i)
  {
    0 < Size(b, i) && I64(b, 24) <= Start(b, i) && Start(b, i) + Size(b, i) <= I64(b, 24) + I64(b, 32)
  }

  predicate Apart(b: seq<byte>, i: nat, j: nat)
    requires HasEntry(b, i) && HasEntry(b, j)
  {
    Disjoint(b, i, j) && Id(b, i) != Id(b, j) && Number(b, i) != Number(b, j)
  }

  /** Occupied entries lie in the usable bounds, do not overlap, and differ in identifier and number. */
  predicate LayoutInvariant(b: seq<byte>) {
    && ValidTable(b)
    && (forall i: nat | i < Count(b) && Occupied(b, i) :: WithinBounds(b, i))
    && (forall i: nat, j: nat | i < Count(b) && j < Count(b) && i != j && Occupied(b, i) && Occupied(b, j) :: Apart(b, i, j))
  }

  // Facts about a planned table.

  lemma OldEntry(b: seq<byte>, a: seq<byte>, s: (nat, nat), x: Extent, y: Extent, i: nat)
    requires ValidTable(b) && ValidTable(a) && AddedIn(b, a, s, x, y)
    requires i < Count(a) && i != s.0 && i != s.1
    ensures i < Count(b) && Entry(a, i) == Entry(b, i) && Occupied(a, i) == Occupied(b, i)
    ensures Start(a, i) == Start(b, i) && Size(a, i) == Size(b, i) && Number(a, i) == Number(b, i)
    ensures Type(a, i) == Type(b, i) && Id(a, i) == Id(b, i)
  {
    hide NewEntry, I64, I32;
    assert i < Count(b) && HasEntry(b, i);
    assert Entry(a, i) == Entry(b, i)[28 := 0] == Entry(b, i);
    SameEntrySameFields(a, i, b, i);
  }

  lemma SlotFields(b: seq<byte>, a: seq<byte>, start: int64, dataSize: int64, esp: Guid, data: Guid)
    requires ValidTable(b) && Planned(b, a, start, dataSize, esp, data)
    ensures ValidTable(a)
    ensures var s := Slots(b);
            && s.0 < s.1 < Count(a)
            && Start(a, s.0) == start && Size(a, s.0) == ESP_SIZE && Type(a, s.0) == ESP_TYPE && Id(a, s.0) == esp
            && Start(a, s.1) == start + ESP_SIZE && Size(a, s.1) == dataSize
            && Type(a, s.1) == STAGE_TYPE && Id(a, s.1) == data
  {
    var s := Slots(b);
    NewEntryFields(a, s.0, EspExtent(start, esp), Number(a, s.0));
    NewEntryFields(a, s.1, DataExtent(start, dataSize, data), Number(a, s.1));
  }

  lemma HeaderBounds(b: seq<byte>, a: seq<byte>)
    requires SameHeader(b, a)
    ensures I64(a, 24) == I64(b, 24) && I64(a, 32) == I64(b, 32)
  {
    SliceOfSlice(a, 8, HEADER, 16, 24);
    SliceOfSlice(b, 8, HEADER, 16, 24);
    SliceOfSlice(a, 8, HEADER, 24, 32);
    SliceOfSlice(b, 8, HEADER, 24, 32);
  }

  /** An old occupied entry is apart from each of the two new ones. */
  lemma OldIsApartFromNew(b: seq<byte>, a: seq<byte>, start: int64, dataSize: int64, esp: Guid, data: Guid, i: nat)
    requires Plannable(b, start, dataSize, esp, data) && Planned(b, a, start, dataSize, esp, data)
    requires i < Count(a) && i != Slots(b).0 && i != Slots(b).1 && Occupied(a, i)
    ensures Apart(a, i, Slots(b).0) && Apart(a, i, Slots(b).1)
  {
    var s := Slots(b);
    SlotFields(b, a, start, dataSize, esp, data);
    OldEntry(b, a, s, EspExtent(start, esp), DataExtent(start, dataSize, data), i);
    assert Compatible(b, i, start, start + ESP_SIZE + dataSize, esp, data);
    NumbersExact(b, Count(b), i);
  }

  /** Planning keeps the layout invariant. */
  lemma PlanKeepsInvariant(b: seq<byte>, a: seq<byte>, start: int64, dataSize: int64, esp: Guid, data: Guid)
    requires Plannable(b, start, dataSize, esp, data) && Planned(b, a, start, dataSize, esp, data)
    requires LayoutInvariant(b)
    ensures LayoutInvariant(a)
  {
    hide I64, I32, NewEntry, Numbers;
    var s := Slots(b);
    var x, y := EspExtent(start, esp), DataExtent(start, dataSize, data);
    SlotFields(b, a, start, dataSize, esp, data);
    HeaderBounds(b, a);
    forall i: nat | i < Count(a) && Occupied(a, i)
      ensures WithinBounds(a, i)
    {
      if i != s.0 && i != s.1 {
        OldEntry(b, a, s, x, y, i);
        assert WithinBounds(b, i);
      }
    }
    forall i: nat, j: nat | i < Count(a) && j < Count(a) && i != j && Occupied(a, i) && Occupied(a, j)
      ensures Apart(a, i, j)
    {
      if i != s.0 && i != s.1 {
        OldEntry(b, a, s, x, y, i);
        if j != s.0 && j != s.1 {
          OldEntry(b, a, s, x, y, j);
          assert Apart(b, i, j);
        } else {
          OldIsApartFromNew(b, a, start, dataSize, esp, data, i);
        }
      } else if j != s.0 && j != s.1 {
        OldIsApartFromNew(b, a, start, dataSize, esp, data, j);
      }
    }
  }

  // What a plan adds, and what it leaves.

  /** Seen through their occupied entries, a is b with s.0 and s.1 newly taken. */
  predicate TakesSlots(b: seq<byte>, a: seq<byte>, n: nat, m: nat, s: (nat, nat))
    requires At(n) <= |b| && At(m) <= |a|
  {
    && Covers(s, n, m) && s.0 < s.1 < m && Occupied(a, s.0) && Occupied(a, s.1)
    && (s.0 < n ==> !Occupied(b, s.0)) && (s.1 < n ==> !Occupied(b, s.1))
    && (forall i: nat | i < n && i != s.0 && i != s.1 :: Occupied(a, i) == Occupied(b, i) && Entry(a, i) == Entry(b, i))
  }

  /** The occupied entries among the first n, the slots s left out, in table order. */
  function OccupiedOutside(b: seq<byte>, n: nat, s: (nat, nat)): seq<EntryBytes>
    requires At(n) <= |b|
  {
    if n == 0 then []
    else
      var es := OccupiedOutside(b, n - 1, s);
      if n - 1 != s.0 && n - 1 != s.1 && Occupied(b, n - 1) then es + [Entry(b, n - 1)] else es
  }

  lemma {:induction false} OutsideTaken(b: seq<byte>, a: seq<byte>, n: nat, m: nat, s: (nat, nat), k: nat)
    requires At(n) <= |b| && At(m) <= |a| && TakesSlots(b, a, n, m, s) && k <= m
    ensures OccupiedOutside(a, k, s) == OccupiedEntries(b, if k <= n then k else n)
  {
    hide I64, Entry, Occupied;
    if k > 0 {
      OutsideTaken(b, a, n, m, s, k - 1);
    }
  }

  lemma AddedTakesSlots(b: seq<byte>, a: seq<byte>, s: (nat, nat), x: Extent, y: Extent)
    requires ValidTable(b) && ValidTable(a) && AddedIn(b, a, s, x, y) && x.size != 0 && y.size != 0
    requires (s.0 < Count(b) ==> !Occupied(b, s.0)) && (s.1 < Count(b) ==> !Occupied(b, s.1))
    ensures TakesSlots(b, a, Count(b), Count(a), s)
  {
    hide NewEntry, I64, I32, Entry, Block;
    NewEntryFields(a, s.0, x, Number(a, s.0));
    NewEntryFields(a, s.1, y, Number(a, s.1));
    OldEntries(b, a, s, x, y);
  }

  lemma PlanTakesSlots(b: seq<byte>, a: seq<byte>, start: int64, dataSize: int64, esp: Guid, data: Guid)
    requires Plannable(b, start, dataSize, esp, data) && Planned(b, a, start, dataSize, esp, data)
    ensures ValidTable(a) && TakesSlots(b, a, Count(b), Count(a), Slots(b))
  {
    SlotsAreFree(b);
    hide TakesSlots, AddedIn, Numbers, LowestTwo, AllCompatible, RoomForTwo, Slots;
    AddedTakesSlots(b, a, Slots(b), EspExtent(start, esp), DataExtent(start, dataSize, data));
  }

  lemma OldEntries(b: seq<byte>, a: seq<byte>, s: (nat, nat), x: Extent, y: Extent)
    requires ValidTable(b) && ValidTable(a) && AddedIn(b, a, s, x, y)
    ensures forall i: nat | i < Count(b) && i != s.0 && i != s.1 ::
              Occupied(a, i) == Occupied(b, i) && Entry(a, i) == Entry(b, i)
  {
    hide NewEntry, I64, I32, Number, Entry;
    forall i: nat | i < Count(b) && i != s.0 && i != s.1
      ensures Occupied(a, i) == Occupied(b, i) && Entry(a, i) == Entry(b, i)
    {
      OldEntry(b, a, s, x, y, i);
    }
  }

  /** The plan adds exactly the two adjacent extents, under the lowest unused numbers. */
  lemma PlanAddsTwo(b: seq<byte>, a: seq<byte>, start: int64, dataSize: int64, esp: Guid, data: Guid)
    requires Plannable(b, start, dataSize, esp, data) && Planned(b, a, start, dataSize, esp, data)
    ensures var s := Slots(b);
            && OccupiedOutside(a, Count(a), s) == OccupiedEntries(b, Count(b))
            && Occupied(a, s.0) && Occupied(a, s.1)
            && Start(a, s.0) == start && Start(a, s.0) + Size(a, s.0) == Start(a, s.1)
            && Start(a, s.1) + Size(a, s.1) == start + ESP_SIZE + dataSize
            && Id(a, s.0) == esp && Id(a, s.1) == data
            && LowestTwo(Numbers(b, Count(b)), Number(a, s.0), Number(a, s.1))
  {
    SlotFields(b, a, start, dataSize, esp, data);
    PlanTakesSlots(b, a, start, dataSize, esp, data);
    hide I64, Slots, Numbers, NewEntry;
    OutsideTaken(b, a, Count(b), Count(a), Slots(b), Count(a));
  }

  lemma SameByte(a: seq<byte>, b: seq<byte>, i: nat, d: nat)
    requires HasEntry(a, i) && HasEntry(b, i) && Block(a, i) == Entry(b, i) && d < ENTRY && d != 28
    ensures a[At(i) + d] == b[At(i) + d]
  {
    assert Block(a, i)[d] == a[At(i) + d] && Block(b, i)[d] == b[At(i) + d];
  }

  lemma FrameIn(b: seq<byte>, a: seq<byte>, s: (nat, nat), x: Extent, y: Extent, i: nat, d: nat)
    requires ValidTable(b) && ValidTable(a) && AddedIn(b, a, s, x, y)
    requires i < Count(b) && InOldEntry(s, i, d) && d < ENTRY
    ensures At(i) + d < |a| && a[At(i) + d] == b[At(i) + d]
  {
    hide NewEntry, I64, I32;
    SameByte(a, b, i, d);
  }

  /** Outside the count, the instruction bytes and the two free slots, no byte of the table changes. */
  lemma PlanFrame(b: seq<byte>, a: seq<byte>, start: int64, dataSize: int64, esp: Guid, data: Guid, i: nat, d: nat)
    requires ValidTable(b) && Planned(b, a, start, dataSize, esp, data)
    requires i < Count(b) && d < ENTRY && InOldEntry(Slots(b), i, d)
    ensures At(i) + d < |a| && a[At(i) + d] == b[At(i) + d]
    ensures forall k | 0 <= k < 4 || 8 <= k < HEADER :: a[k] == b[k]
  {
    FrameIn(b, a, Slots(b), EspExtent(start, esp), DataExtent(start, dataSize, data), i, d);
    HeaderFrame(b, a);
  }

  predicate InOldEntry(s: (nat, nat), i: nat, d: nat) {
    i != s.0 && i != s.1 && d != 28
  }

  lemma HeaderFrame(b: seq<byte>, a: seq<byte>)
    requires SameHeader(b, a)
    ensures forall k | 0 <= k < 4 || 8 <= k < HEADER :: a[k] == b[k]
  {
    forall k | 0 <= k < 4 || 8 <= k < HEADER
      ensures a[k] == b[k]
    {
      if k < 4 {
        assert a[k] == a[0..4][k] && b[k] == b[0..4][k];
      } else {
        assert a[k] == a[8..HEADER][k - 8] && b[k] == b[8..HEADER][k - 8];
      }
    }
  }

  // Deletion undoes planning.

  /** Occupied entries other than skip carry non-empty identifiers, no two the same. */
  predicate IdsApart(b: seq<byte>, n: nat, skip: Guid)
    requires At(n) <= |b|
  {
    && (forall i: nat | i < n && Occupied(b, i) && Id(b, i) != skip :: Id(b, i) != EMPTY_GUID)
    && (forall i: nat, j: nat | i < n && j < n && i != j && Occupied(b, i) && Occupied(b, j) && Id(b, i) != skip ::
          Id(b, i) != Id(b, j))
  }

  /** Some occupied entry among the first n, skip aside, carries g. */
  predicate Carries(b: seq<byte>, n: nat, skip: Guid, g: Guid)
    requires At(n) <= |b|
  {
    exists i | 0 <= i < n :: Occupied(b, i) && Id(b, i) != skip && Id(b, i) == g
  }

  /** Some item of es carries g. */
  ghost predicate Listed(es: seq<EntryBytes>, g: Guid) {
    exists k | 0 <= k < |es| :: EntryId(es[k]) == g
  }

  lemma ListedCons(es: seq<EntryBytes>, e: EntryBytes, g: Guid)
    ensures Listed(es + [e], g) <==> Listed(es, g) || EntryId(e) == g
  {
    hide EntryId;
    var all := es + [e];
    assert all[|es|] == e;
    if k :| 0 <= k < |es| && EntryId(es[k]) == g {
      assert EntryId(all[k]) == g;
    }
  }

  lemma {:induction false} OthersCarry(b: seq<byte>, n: nat, skip: Guid, g: Guid)
    requires At(n) <= |b|
    ensures Carries(b, n, skip, g) <==> Listed(Others(b, n, skip), g)
  {
    hide I64, Entry, EntryId, Id, Occupied;
    if n > 0 {
      hide Listed;
      OthersCarry(b, n - 1, skip, g);
      EntryFields(b, n - 1);
      ListedCons(Others(b, n - 1, skip), Entry(b, n - 1), g);
    }
  }

  lemma ApartStep(b: seq<byte>, i: nat, skip: Guid)
    requires At(i + 1) <= |b|
    ensures IdsApart(b, i + 1, skip)
       <==> && IdsApart(b, i, skip)
            && (Occupied(b, i) && Id(b, i) != skip ==> Id(b, i) != EMPTY_GUID && !Carries(b, i, skip, Id(b, i)))
  {
    hide I64, Id;
  }

  lemma IdentifiedCons(es: seq<EntryBytes>, e: EntryBytes)
    ensures Identified(es + [e])
       <==> Identified(es) && EntryId(e) != EMPTY_GUID && !Listed(es, EntryId(e))
  {
    hide EntryId, DistinctKeys;
    DistinctCons(es, EntryId, e);
    var all := es + [e];
    assert forall x <- all :: x in es || x == e;
    assert e in all && forall x <- es :: x in all;
  }

  lemma {:induction false} IdentifiedMeansApart(b: seq<byte>, n: nat, skip: Guid)
    requires At(n) <= |b|
    ensures Identified(Others(b, n, skip)) <==> IdsApart(b, n, skip)
  {
    hide I64, Entry, EntryId, Id, Occupied;
    if n > 0 {
      hide IdsApart, Identified, Carries, Listed;
      var es, i := Others(b, n - 1, skip), n - 1;
      IdentifiedMeansApart(b, i, skip);
      ApartStep(b, i, skip);
      EntryFields(b, i);
      IdentifiedCons(es, Entry(b, i));
      OthersCarry(b, i, skip, Id(b, i));
    }
  }

  lemma PlannedIds(b: seq<byte>, a: seq<byte>, start: int64, dataSize: int64, esp: Guid, data: Guid)
    requires Plannable(b, start, dataSize, esp, data) && Planned(b, a, start, dataSize, esp, data)
    ensures ValidTable(a)
    ensures forall i: nat | i < Count(a) && i != Slots(b).0 && i != Slots(b).1 && Occupied(a, i) ::
              i < Count(b) && Id(a, i) == Id(b, i) && Id(a, i) != esp && Id(a, i) != data
  {
    var s := Slots(b);
    SlotFields(b, a, start, dataSize, esp, data);
    hide NewEntry, Numbers, LowestTwo, Slots, I64, I32;
    forall i: nat | i < Count(a) && i != s.0 && i != s.1 && Occupied(a, i)
      ensures i < Count(b) && Id(a, i) == Id(b, i) && Id(a, i) != esp && Id(a, i) != data
    {
      OldEntry(b, a, s, EspExtent(start, esp), DataExtent(start, dataSize, data), i);
      assert Compatible(b, i, start, start + ESP_SIZE + dataSize, esp, data);
    }
  }
}
