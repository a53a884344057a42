// Planning of the removal of one of the temporary installer partitions.
module StagingDeletion {
  import opened Bytes
  import opened GptTable
  import opened Keyed
  import opened DiskDiff

  /** What the planner leaves of a deleted entry: a GPT style and the rewrite instruction. */
  const CLEARED: EntryBytes := Patch(Patch(Zeros(ENTRY), 0, LE32(1)), 28, [1])

  /** a is b with entry t cleared and no other instruction left. */
  predicate Cleared(b: seq<byte>, a: seq<byte>, t: nat)
    requires ValidTable(b)
  {
    && t < Count(b) && |a| == |b| && a[..HEADER] == b[..HEADER]
    && Block(a, t) == CLEARED
    && forall j | 0 <= j < Count(b) && j != t :: Block(a, j) == Entry(b, j)
  }

  lemma ClearedIsTable(b: seq<byte>, a: seq<byte>, t: nat)
    requires ValidTable(b) && Cleared(b, a, t)
    ensures ValidTable(a) && Count(a) == Count(b) && SameHeader(b, a)
  {
    SliceOfSlice(a, 0, HEADER, 4, 8);
    SliceOfSlice(b, 0, HEADER, 4, 8);
    SliceOfSlice(a, 0, HEADER, 0, 4);
    SliceOfSlice(b, 0, HEADER, 0, 4);
    SliceOfSlice(a, 0, HEADER, 8, HEADER);
    SliceOfSlice(b, 0, HEADER, 8, HEADER);
  }

  lemma ClearedSlices()
    ensures CLEARED[16..24] == Zeros(8) && CLEARED[48..64] == Zeros(16)
  {
    var z: EntryBytes := Zeros(ENTRY);
    assert z[16..24] == Zeros(8) && z[48..64] == Zeros(16);
    PatchSlices(z, 0, LE32(1));
    PatchSlices(Patch(z, 0, LE32(1)), 28, [1]);
  }

  lemma ClearedIsFree(a: seq<byte>, t: nat)
    requires HasEntry(a, t) && (Block(a, t) == CLEARED || Block(a, t) == CLEARED[28 := 0])
    ensures !Occupied(a, t) && Id(a, t) == EMPTY_GUID
  {
    var e := Block(a, t);
    ClearedSlices();
    assert e[16..24] == CLEARED[16..24] && e[48..64] == CLEARED[48..64];
    BlockSlice(a, t, 16, 24);
    UIntZero(a[At(t) + 16..At(t) + 24]);
    BlockSlice(a, t, 48, 64);
  }

  /** The other entries keep their fields. */
  lemma ClearedKeeps(b: seq<byte>, a: seq<byte>, t: nat, j: nat)
    requires ValidTable(b) && Cleared(b, a, t) && j < Count(b) && j != t
    ensures Entry(a, j) == Entry(b, j) && Occupied(a, j) == Occupied(b, j)
    ensures Start(a, j) == Start(b, j) && Size(a, j) == Size(b, j) && Number(a, j) == Number(b, j)
    ensures Type(a, j) == Type(b, j) && Id(a, j) == Id(b, j)
  {
    assert Entry(a, j) == Entry(b, j)[28 := 0] == Entry(b, j);
    SameEntrySameFields(a, j, b, j);
  }

  lemma {:induction false} ClearedLeavesOthers(b: seq<byte>, a: seq<byte>, t: nat, id: Guid, n: nat)
    requires ValidTable(b) && Cleared(b, a, t) && n <= Count(b) && |a| == |b|
    requires Id(b, t) == id
    requires forall j | 0 <= j < Count(b) && j != t && Occupied(b, j) :: Id(b, j) != id
    ensures OccupiedEntries(a, n) == Others(b, n, id)
  {
    hide I64, Block, Entry, Occupied, Id;
    if n > 0 {
      ClearedLeavesOthers(b, a, t, id, n - 1);
      if n - 1 == t {
        ClearedIsFree(a, t);
      } else {
        ClearedKeeps(b, a, t, n - 1);
      }
    }
  }

  /** The first entry with this identifier is the partition that the caller means. */
  predicate Meant(b: seq<byte>, t: nat, number: int32, id: Guid, offset: int64, size: int64, kind: Guid)
    requires ValidTable(b)
  {
    && FirstWithId(b, id, t)
    && Start(b, t) == offset && Size(b, t) == size && Type(b, t) == kind && Number(b, t) == number
  }

  /** The deletion planner accepts: the partition is unique and the others can be told apart. */
  ghost predicate Deletable(b: seq<byte>, t: nat, number: int32, id: Guid, offset: int64, size: int64, kind: Guid,
                            stagingTypes: set<Guid>)
  {
    && kind in stagingTypes && ValidTable(b)
    && Meant(b, t, number, id, offset, size, kind)
    && SoleTarget(b, t, id, offset, size)
    && Identified(Others(b, Count(b), id))
  }

  lemma DeletionVerdict(b: seq<byte>, a: seq<byte>, t: nat, number: int32, id: Guid, offset: int64, size: int64, kind: Guid,
                        types: set<Guid>)
    requires ValidTable(b) && kind in types && Meant(b, t, number, id, offset, size, kind)
    requires Cleared(b, a, t)
    ensures OnlyDeleted(b, a, id, offset, size) <==> Deletable(b, t, number, id, offset, size, kind, types)
  {
    ClearedIsTable(b, a, t);
    forall u | SoleTarget(b, u, id, offset, size)
      ensures u == t
    {
      assert Occupied(b, t) && Id(b, t) == id;
    }
    if SoleTarget(b, t, id, offset, size) {
      ClearedLeavesOthers(b, a, t, id, Count(b));
    }
  }

  /** Drops every instruction and clears entry t. */
  method ClearEntry(before: array<byte>, t: nat) returns (next: array<byte>)
    requires ValidTable(before[..]) && t < Count(before[..])
    ensures fresh(next) && Cleared(before[..], next[..], t)
  {
    hide U32, LE32, Patch;
    ghost var b, n := before[..], Count(before[..]);
    next := new byte[before.Length](k requires 0 <= k < before.Length reads before => before[k]);
    assert next[..] == b;
    var i, count := 0, U32(before[..], 4);
    while i < count
      invariant 0 <= i <= count == n
      invariant next[..HEADER] == b[..HEADER]
      invariant forall j | 0 <= j < n :: Block(next[..], j) == if j < i then Entry(b, j) else Block(b, j)
    {
      PutEntry(next, i, 28, [0]);
      ClearsRewrite(Block(b, i));
      i := i + 1;
    }
    PatchWhole(Block(next[..], t), Zeros(ENTRY));
    PutEntry(next, t, 0, Zeros(ENTRY));
    PutEntry(next, t, 0, LE32(1));
    PutEntry(next, t, 28, [1]);
    assert before[..] == b;
  }

  /** Some entry is the one that the planner may delete. */
  ghost predicate CanDelete(b: seq<byte>, number: int32, id: Guid, offset: int64, size: int64, kind: Guid) {
    exists t :: Deletable(b, t, number, id, offset, size, kind, {ESP_TYPE, STAGE_TYPE})
  }

  lemma OnlyFirstCanBeDeleted(b: seq<byte>, u: nat, number: int32, id: Guid, offset: int64, size: int64, kind: Guid)
    requires ValidTable(b) && FirstWithId(b, id, u)
    ensures CanDelete(b, number, id, offset, size, kind)
       <==> Deletable(b, u, number, id, offset, size, kind, {ESP_TYPE, STAGE_TYPE})
    ensures forall t | Deletable(b, t, number, id, offset, size, kind, {ESP_TYPE, STAGE_TYPE}) :: t == u
  {
    forall t | Deletable(b, t, number, id, offset, size, kind, {ESP_TYPE, STAGE_TYPE})
      ensures t == u
    {
      FirstWithIdUnique(b, id, t, u);
    }
  }

  /**
   * Plans the removal. A buffer whose size contradicts its header is refused at the end by
   * VerifyOnlyDelete in the source; it is refused before the edits here.
   */
  method PlanStagingDeletion(before: array<byte>, number: int32, id: Guid, offset: int64, size: int64, kind: Guid)
    returns (r: Result<array<byte>>)
    ensures r.Ok? <==> CanDelete(before[..], number, id, offset, size, kind)
    ensures r.Ok? ==> fresh(r.value) && forall t ::
              Deletable(before[..], t, number, id, offset, size, kind, {ESP_TYPE, STAGE_TYPE})
              ==> Cleared(before[..], r.value[..], t)
  {
    hide FirstWithId, SoleTarget, Identified, Others, OnlyDeleted, Cleared, ESP_TYPE, STAGE_TYPE, Occupied, U32;
    if kind != ESP_TYPE && kind != STAGE_TYPE {
      return Err("Not a staging partition type");
    }
    if !ValidTable(before[..]) {
      return Err("Invalid deletion layout readback");
    }
    var found := FindId(before, id);
    if found.Err? {
      return Err("Created partition missing from refreshed GPT");
    }
    var t := found.value;
    OnlyFirstCanBeDeleted(before[..], t, number, id, offset, size, kind);
    if !Meant(before[..], t, number, id, offset, size, kind) {
      return Err("Owned deletion target changed");
    }
    ghost var b := before[..];
    var next := ClearEntry(before, t);
    assert before[..] == b;
    var verdict := VerifyOnlyDelete(before, next, id, offset, size);
    DeletionVerdict(b, next[..], t, number, id, offset, size, kind, {ESP_TYPE, STAGE_TYPE});
    if verdict.Err? {
      return Err(verdict.message);
    }
    return Ok(next);
  }
}
