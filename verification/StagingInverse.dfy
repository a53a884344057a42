// Deleting the two staging partitions undoes their planning.
module StagingInverse {
  import opened Bytes
  import opened GptTable
  import opened DiskDiff
  import opened StagingPlan
  import opened StagingLayout
  import opened StagingDeletion
  import opened StagingTheorems

  const TYPES: set<Guid> := {ESP_TYPE, STAGE_TYPE}

  /** Every occupied entry carries a non-empty identifier of its own. */
  predicate IdsDistinct(b: seq<byte>)
    requires ValidTable(b)
  {
    && (forall i: nat | i < Count(b) && Occupied(b, i) :: Id(b, i) != EMPTY_GUID)
    && (forall i: nat, j: nat | i < Count(b) && j < Count(b) && i != j && Occupied(b, i) && Occupied(b, j) ::
          Id(b, i) != Id(b, j))
  }

  /** What the proofs below need to know of a planned table, entry by entry. */
  predicate Sketch(b: seq<byte>, a: seq<byte>, s: (nat, nat), esp: Guid, data: Guid)
    requires ValidTable(b)
  {
    && ValidTable(a) && TakesSlots(b, a, Count(b), Count(a), s)
    && esp != EMPTY_GUID && data != EMPTY_GUID && esp != data
    && Id(a, s.0) == esp && Id(a, s.1) == data
    && (forall i: nat | i < Count(b) && i != s.0 && i != s.1 :: Id(a, i) == Id(b, i))
    && (forall i: nat | i < Count(b) && Occupied(b, i) :: Id(b, i) != esp && Id(b, i) != data)
    && (forall i: nat | i < s.1 && i < Count(b) && i != s.0 :: Occupied(b, i))
  }

  predicate SlotExtents(a: seq<byte>, s: (nat, nat), start: int64, dataSize: int64)
    requires ValidTable(a) && s.0 < s.1 < Count(a)
  {
    && start + ESP_SIZE < INT64_LIMIT && 0 < dataSize
    && Start(a, s.0) == start && Size(a, s.0) == ESP_SIZE && Type(a, s.0) == ESP_TYPE
    && Start(a, s.1) == start + ESP_SIZE && Size(a, s.1) == dataSize && Type(a, s.1) == STAGE_TYPE
  }

  lemma OldIds(b: seq<byte>, a: seq<byte>, s: (nat, nat), x: Extent, y: Extent)
    requires ValidTable(b) && ValidTable(a) && AddedIn(b, a, s, x, y)
    ensures forall i: nat | i < Count(b) && i != s.0 && i != s.1 :: Id(a, i) == Id(b, i)
  {
    hide NewEntry, I64, I32;
    forall i: nat | i < Count(b) && i != s.0 && i != s.1
      ensures Id(a, i) == Id(b, i)
    {
      OldEntry(b, a, s, x, y, i);
    }
  }

  lemma ForeignIds(b: seq<byte>, start: int, end: int, esp: Guid, data: Guid)
    requires ValidTable(b) && AllCompatible(b, Count(b), start, end, esp, data)
    ensures forall i: nat | i < Count(b) && Occupied(b, i) :: Id(b, i) != esp && Id(b, i) != data
  {
    hide I64;
    forall i: nat | i < Count(b) && Occupied(b, i)
      ensures Id(b, i) != esp && Id(b, i) != data
    {
      assert Compatible(b, i, start, end, esp, data);
    }
  }

  lemma PlanSketch(b: seq<byte>, a: seq<byte>, start: int64, dataSize: int64, esp: Guid, data: Guid)
    requires Plannable(b, start, dataSize, esp, data) && Planned(b, a, start, dataSize, esp, data)
    ensures Sketch(b, a, Slots(b), esp, data) && SlotExtents(a, Slots(b), start, dataSize)
  {
    hide Slots, Numbers, LowestTwo, I64, I32, AddedIn, AllCompatible, TakesSlots, Covers;
    var s := Slots(b);
    PlanTakesSlots(b, a, start, dataSize, esp, data);
    SlotFields(b, a, start, dataSize, esp, data);
    SlotsAreFree(b);
    OldIds(b, a, s, EspExtent(start, esp), DataExtent(start, dataSize, data));
    ForeignIds(b, start, start + ESP_SIZE + dataSize, esp, data);
  }

  lemma DataComesFirst(b: seq<byte>, a: seq<byte>, s: (nat, nat), esp: Guid, data: Guid)
    requires ValidTable(b) && Sketch(b, a, s, esp, data)
    ensures FirstWithId(a, data, s.1)
    ensures forall j: nat | j < Count(a) && j != s.1 && Occupied(a, j) :: Id(a, j) != data
  {
    hide I64, Entry;
    forall j: nat | j < s.1
      ensures GuidAt(a, At(j) + 48) != data
    {
      if j != s.0 {
        assert j < Count(b) && Occupied(b, j) && Id(a, j) != data;
      }
    }
    forall j: nat | j < Count(a) && j != s.1 && Occupied(a, j)
      ensures Id(a, j) != data
    {
      if j != s.0 {
        assert j < Count(b) && Occupied(b, j);
      }
    }
  }

  lemma DataApart(b: seq<byte>, a: seq<byte>, s: (nat, nat), esp: Guid, data: Guid)
    requires ValidTable(b) && Sketch(b, a, s, esp, data)
    ensures IdsApart(a, Count(a), data) <==> IdsDistinct(b)
  {
    hide I64, Entry;
    if IdsDistinct(b) {
      forall i: nat | i < Count(a) && Occupied(a, i) && Id(a, i) != data
        ensures Id(a, i) != EMPTY_GUID
      {
        assert i == s.0 || (i < Count(b) && Occupied(b, i));
      }
      forall i: nat, j: nat | i < Count(a) && j < Count(a) && i != j && Occupied(a, i) && Occupied(a, j) && Id(a, i) != data
        ensures Id(a, i) != Id(a, j)
      {
        assert i == s.0 || (i < Count(b) && Occupied(b, i));
        assert j == s.0 || j == s.1 || (j < Count(b) && Occupied(b, j));
      }
    }
    if IdsApart(a, Count(a), data) {
      forall i: nat | i < Count(b) && Occupied(b, i)
        ensures Occupied(a, i) && Id(a, i) == Id(b, i) && Id(a, i) != data
      {
        assert i != s.0 && i != s.1;
      }
    }
  }

  /** The data partition of a fresh plan can be deleted exactly when the old identifiers can be told apart. */
  lemma DataIsDeletable(b: seq<byte>, a: seq<byte>, s: (nat, nat), start: int64, dataSize: int64, esp: Guid, data: Guid)
    requires ValidTable(b) && Sketch(b, a, s, esp, data) && SlotExtents(a, s, start, dataSize)
    ensures Deletable(a, s.1, Number(a, s.1), data, start + ESP_SIZE, dataSize, STAGE_TYPE, TYPES) <==> IdsDistinct(b)
  {
    DataComesFirst(b, a, s, esp, data);
    DataApart(b, a, s, esp, data);
    IdentifiedMeansApart(a, Count(a), data);
    assert Occupied(a, s.1);
    hide I64, I32, FirstWithId, Identified, IdsApart, IdsDistinct;
  }

  lemma EspComesFirst(b: seq<byte>, a: seq<byte>, m: seq<byte>, s: (nat, nat), esp: Guid, data: Guid)
    requires ValidTable(b) && Sketch(b, a, s, esp, data) && Cleared(a, m, s.1)
    ensures ValidTable(m) && FirstWithId(m, esp, s.0) && Id(m, s.0) == esp
    ensures forall j: nat | j < Count(m) && j != s.0 && Occupied(m, j) ::
              j < Count(b) && j != s.1 && Occupied(b, j) && Id(m, j) == Id(b, j) && Id(m, j) != esp
  {
    ClearedIsTable(a, m, s.1);
    ClearedIsFree(m, s.1);
    hide I64, Entry;
    forall j: nat | j < s.0
      ensures GuidAt(m, At(j) + 48) != esp
    {
      assert j < Count(b) && Occupied(b, j);
      ClearedKeeps(a, m, s.1, j);
      assert Id(m, j) != esp;
    }
    ClearedKeeps(a, m, s.1, s.0);
    forall j: nat | j < Count(m) && j != s.0 && Occupied(m, j)
      ensures j < Count(b) && j != s.1 && Occupied(b, j) && Id(m, j) == Id(b, j) && Id(m, j) != esp
    {
      assert j != s.1;
      ClearedKeeps(a, m, s.1, j);
      assert j < Count(b);
    }
  }

  lemma EspApart(b: seq<byte>, a: seq<byte>, m: seq<byte>, s: (nat, nat), esp: Guid, data: Guid)
    requires ValidTable(b) && Sketch(b, a, s, esp, data) && IdsDistinct(b) && Cleared(a, m, s.1)
    ensures ValidTable(m) && IdsApart(m, Count(m), esp)
  {
    hide I64, Id, Occupied, FirstWithId, Cleared, Sketch;
    EspComesFirst(b, a, m, s, esp, data);
  }

  /** Once the data partition is gone, the EFI partition can be deleted too. */
  lemma EspIsDeletable(b: seq<byte>, a: seq<byte>, m: seq<byte>, s: (nat, nat), start: int64, dataSize: int64, esp: Guid, data: Guid)
    requires ValidTable(b) && Sketch(b, a, s, esp, data) && SlotExtents(a, s, start, dataSize)
    requires IdsDistinct(b) && Cleared(a, m, s.1)
    ensures Deletable(m, s.0, Number(a, s.0), esp, start, ESP_SIZE, ESP_TYPE, TYPES)
  {
    hide I64, I32, FirstWithId, Identified, IdsDistinct, IdsApart, Cleared;
    EspComesFirst(b, a, m, s, esp, data);
    EspApart(b, a, m, s, esp, data);
    ClearedIsTable(a, m, s.1);
    ClearedKeeps(a, m, s.1, s.0);
    IdentifiedMeansApart(m, Count(m), esp);
    assert Occupied(m, s.0);
  }

  lemma UndoneEntries(b: seq<byte>, a: seq<byte>, m: seq<byte>, f: seq<byte>, s: (nat, nat), esp: Guid, data: Guid)
    requires ValidTable(b) && Sketch(b, a, s, esp, data)
    requires Cleared(a, m, s.1) && ValidTable(m) && Count(m) == Count(a) && Cleared(m, f, s.0)
    ensures ValidTable(f) && Count(f) == Count(a)
    ensures OccupiedEntries(f, Count(f)) == OccupiedEntries(b, Count(b))
  {
    hide I64, Block, Entry;
    ClearedIsTable(m, f, s.0);
    ClearedIsFree(m, s.1);
    ClearedIsFree(f, s.0);
    ClearedKeeps(m, f, s.0, s.1);
    forall i | 0 <= i < Count(b)
      ensures Occupied(f, i) == Occupied(b, i) && (Occupied(f, i) ==> Entry(f, i) == Entry(b, i))
    {
      if i != s.0 && i != s.1 {
        ClearedKeeps(a, m, s.1, i);
        ClearedKeeps(m, f, s.0, i);
      }
    }
    SameOccupiedEntries(f, b, Count(b));
    forall i | Count(b) <= i < Count(f)
      ensures !Occupied(f, i)
    {
      assert i == s.0 || i == s.1;
    }
    FreeTailEntries(f, Count(b), Count(f));
  }

  /**
   * Planning and then deleting first the data and then the EFI partition never fails exactly when the old
   * identifiers are distinct and not empty, and leaves exactly the occupied entries there were before.
   * Stale identifiers in free entries do no harm: the planner reuses the lowest free entries.
   */
  lemma PlanThenDelete(b: seq<byte>, a: seq<byte>, start: int64, dataSize: int64, esp: Guid, data: Guid)
    requires Plannable(b, start, dataSize, esp, data) && Planned(b, a, start, dataSize, esp, data)
    ensures DeletionUndoes(b, a, Slots(b), start, dataSize, esp, data)
  {
    PlanSketch(b, a, start, dataSize, esp, data);
    hide Slots, Sketch, Plannable, Planned, DeletionUndoes, SlotExtents;
    SketchIsUndone(b, a, Slots(b), start, dataSize, esp, data);
  }

  /** Deleting the partitions in slots s.1 and s.0 of a succeeds as said above, and restores the entries of b. */
  ghost predicate DeletionUndoes(b: seq<byte>, a: seq<byte>, s: (nat, nat), start: int64, dataSize: int64, esp: Guid, data: Guid)
    requires ValidTable(b)
  {
    && start + ESP_SIZE < INT64_LIMIT && ValidTable(a) && s.0 < s.1 < Count(a)
    && (CanDelete(a, Number(a, s.1), data, start + ESP_SIZE, dataSize, STAGE_TYPE) <==> IdsDistinct(b))
    && (forall m: seq<byte> | IdsDistinct(b) && Cleared(a, m, s.1) ::
          && CanDelete(m, Number(a, s.0), esp, start, ESP_SIZE, ESP_TYPE) && ValidTable(m)
          && forall f: seq<byte> | Cleared(m, f, s.0) :: SameOccupied(b, f))
  }

  predicate SameOccupied(b: seq<byte>, f: seq<byte>)
    requires ValidTable(b)
  {
    ValidTable(f) && OccupiedEntries(f, Count(f)) == OccupiedEntries(b, Count(b))
  }

  lemma SketchIsUndone(b: seq<byte>, a: seq<byte>, s: (nat, nat), start: int64, dataSize: int64, esp: Guid, data: Guid)
    requires ValidTable(b) && Sketch(b, a, s, esp, data) && SlotExtents(a, s, start, dataSize)
    ensures DeletionUndoes(b, a, s, start, dataSize, esp, data)
  {
    DataIsDeletable(b, a, s, start, dataSize, esp, data);
    DataComesFirst(b, a, s, esp, data);
    OnlyFirstCanBeDeleted(a, s.1, Number(a, s.1), data, start + ESP_SIZE, dataSize, STAGE_TYPE);
    hide Deletable, OccupiedEntries, Number;
    forall m: seq<byte> | IdsDistinct(b) && Cleared(a, m, s.1)
      ensures CanDelete(m, Number(a, s.0), esp, start, ESP_SIZE, ESP_TYPE) && ValidTable(m)
      ensures forall f: seq<byte> | Cleared(m, f, s.0) :: SameOccupied(b, f)
    {
      ClearedIsTable(a, m, s.1);
      EspIsDeletable(b, a, m, s, start, dataSize, esp, data);
      forall f: seq<byte> | Cleared(m, f, s.0)
        ensures SameOccupied(b, f)
      {
        UndoneEntries(b, a, m, f, s, esp, data);
      }
    }
  }
}
