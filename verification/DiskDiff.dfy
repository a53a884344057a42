// Comparison of a re-read partition table with the one saved before a change.
module DiskDiff {
  import opened Bytes
  import opened GptTable
  import opened Keyed

  /** Entry t is the only occupied one that carries id, and it has the given extent. */
  predicate SoleTarget(b: seq<byte>, t: nat, id: Guid, offset: int64, size: int64)
    requires ValidTable(b)
  {
    && t < Count(b)
    && Occupied(b, t) && Id(b, t) == id && Start(b, t) == offset && Size(b, t) == size
    && forall j | 0 <= j < Count(b) && j != t && Occupied(b, j) :: Id(b, j) != id
  }

  /** The occupied entries among the first n that do not carry id, in table order. */
  function Others(b: seq<byte>, n: nat, id: Guid): seq<EntryBytes>
    requires At(n) <= |b|
  {
    if n == 0 then []
    else
      var es := Others(b, n - 1, id);
      if Occupied(b, n - 1) && Id(b, n - 1) != id then es + [Entry(b, n - 1)] else es
  }

  /** The entries are told apart by non-empty identifiers. */
  ghost predicate Identified(es: seq<EntryBytes>) {
    DistinctKeys(es, EntryId) && forall e <- es :: EntryId(e) != EMPTY_GUID
  }

  /** The change from before to after is exactly the removal of the one partition id. */
  ghost predicate OnlyDeleted(before: seq<byte>, after: seq<byte>, id: Guid, offset: int64, size: int64) {
    && SameHeader(before, after) && ValidTable(before) && ValidTable(after)
    && (exists t :: SoleTarget(before, t, id, offset, size))
    && Identified(Others(before, Count(before), id))
    && OccupiedBag(after, Count(after)) == multiset(Others(before, Count(before), id))
  }

  lemma {:induction false} OthersHaveOtherIds(b: seq<byte>, n: nat, id: Guid)
    requires At(n) <= |b|
    ensures forall e <- Others(b, n, id) :: EntryId(e) != id
  {
    if n > 0 {
      OthersHaveOtherIds(b, n - 1, id);
      EntryFields(b, n - 1);
    }
  }

  lemma {:induction false} OthersPrefix(b: seq<byte>, m: nat, n: nat, id: Guid)
    requires m <= n && At(n) <= |b|
    ensures Others(b, m, id) <= Others(b, n, id)
  {
    if m < n {
      OthersPrefix(b, m, n - 1, id);
    }
  }

  lemma {:induction false} OccupiedEntriesPrefix(b: seq<byte>, m: nat, n: nat)
    requires m <= n && At(n) <= |b|
    ensures OccupiedEntries(b, m) <= OccupiedEntries(b, n)
    ensures OccupiedBag(b, m) <= OccupiedBag(b, n)
  {
    if m < n {
      OccupiedEntriesPrefix(b, m, n - 1);
    }
  }

  lemma OthersStep(b: seq<byte>, n: nat, id: Guid)
    requires At(n + 1) <= |b|
    ensures multiset(Others(b, n + 1, id))
         == multiset(Others(b, n, id)) + if Occupied(b, n) && Id(b, n) != id then multiset{Entry(b, n)} else multiset{}
  {
  }

  lemma {:induction false} AllOthers(b: seq<byte>, n: nat, id: Guid)
    requires At(n) <= |b|
    requires forall j | 0 <= j < n && Occupied(b, j) :: Id(b, j) != id
    ensures OccupiedEntries(b, n) == Others(b, n, id)
  {
    hide Entry, Id, I64;
    if n > 0 {
      AllOthers(b, n - 1, id);
    }
  }

  lemma AllOthersBag(b: seq<byte>, n: nat, id: Guid)
    requires At(n) <= |b|
    requires forall j | 0 <= j < n && Occupied(b, j) :: Id(b, j) != id
    ensures OccupiedBag(b, n) == multiset(Others(b, n, id))
  {
    hide OccupiedEntries, Others;
    AllOthers(b, n, id);
  }

  lemma {:induction false} AllButTarget(b: seq<byte>, n: nat, t: nat, id: Guid)
    requires At(n) <= |b| && t < n
    requires Occupied(b, t) && Id(b, t) == id
    requires forall j | 0 <= j < n && j != t && Occupied(b, j) :: Id(b, j) != id
    ensures OccupiedBag(b, n) == multiset(Others(b, n, id)) + multiset{Entry(b, t)}
  {
    hide OccupiedEntries, OccupiedBag, Others, Entry, Occupied, Id;
    OccupiedBagStep(b, n - 1);
    OthersStep(b, n - 1, id);
    if t == n - 1 {
      AllOthersBag(b, t, id);
    } else {
      AllButTarget(b, n - 1, t, id);
      if Occupied(b, n - 1) {
        BagSwap(multiset(Others(b, n - 1, id)), Entry(b, t), Entry(b, n - 1));
      }
    }
  }

  /** An accepted deletion takes one entry, the target, from the occupied ones and adds none. */
  lemma DeletionRemovesOneEntry(before: seq<byte>, after: seq<byte>, id: Guid, offset: int64, size: int64)
    requires OnlyDeleted(before, after, id, offset, size)
    ensures exists t ::
      && SoleTarget(before, t, id, offset, size)
      && OccupiedBag(before, Count(before)) == OccupiedBag(after, Count(after)) + multiset{Entry(before, t)}
  {
    var t :| SoleTarget(before, t, id, offset, size);
    AllButTarget(before, Count(before), t, id);
  }

  /** What the pass over the saved table has seen among its first n entries. */
  ghost predicate Recorded(b: seq<byte>, n: nat, id: Guid, offset: int64, size: int64, found: bool, target: nat)
    requires At(n) <= |b|
  {
    && (found ==> target < n && Occupied(b, target) && Id(b, target) == id
                  && Start(b, target) == offset && Size(b, target) == size)
    && (forall j | 0 <= j < n && Occupied(b, j) && Id(b, j) == id :: found && j == target)
  }

  lemma NotIdentified(b: seq<byte>, m: nat, n: nat, id: Guid, es: seq<EntryBytes>, expected: map<Guid, EntryBytes>)
    requires m < n && At(n) <= |b|
    requires es == Others(b, m, id) && Indexed(expected, es, EntryId)
    requires Occupied(b, m) && Id(b, m) != id && (Id(b, m) == EMPTY_GUID || Id(b, m) in expected)
    ensures !Identified(Others(b, n, id))
  {
    hide Occupied, Entry, Id, I64;
    OthersPrefix(b, m + 1, n, id);
    EntryFields(b, m);
    var all, e := Others(b, n, id), Entry(b, m);
    assert all[|es|] == e;
    if EntryId(e) in expected {
      var j :| 0 <= j < |es| && es[j] == expected[EntryId(e)];
      assert all[j] == es[j] && EntryId(all[j]) == EntryId(all[|es|]);
    } else {
      assert e in all;
    }
  }

  lemma RecordedStep(b: seq<byte>, i: nat, id: Guid, offset: int64, size: int64, found: bool, target: nat)
    requires At(i + 1) <= |b|
    requires Recorded(b, i, id, offset, size, found, target)
    ensures !Occupied(b, i) || Id(b, i) != id ==> Recorded(b, i + 1, id, offset, size, found, target)
    ensures Occupied(b, i) && Id(b, i) == id && !found && Start(b, i) == offset && Size(b, i) == size
            ==> Recorded(b, i + 1, id, offset, size, true, i)
  {
  }

  /** A second or a different entry with the identifier leaves no sole target. */
  lemma WrongSource(b: seq<byte>, i: nat, id: Guid, offset: int64, size: int64, found: bool, target: nat)
    requires ValidTable(b) && i < Count(b) && Occupied(b, i) && Id(b, i) == id
    requires Recorded(b, i, id, offset, size, found, target)
    requires found || Start(b, i) != offset || Size(b, i) != size
    ensures forall t :: !SoleTarget(b, t, id, offset, size)
  {
    hide I64, Id, Occupied;
  }

  lemma AnotherOriginal(es: seq<EntryBytes>, e: EntryBytes, expected: map<Guid, EntryBytes>)
    requires Indexed(expected, es, EntryId) && Identified(es)
    requires EntryId(e) != EMPTY_GUID && EntryId(e) !in expected
    ensures Indexed(expected[EntryId(e) := e], es + [e], EntryId) && Identified(es + [e])
  {
    hide EntryId, EMPTY_GUID, DistinctKeys;
    DistinctCons(es, EntryId, e);
    var m, all := expected[EntryId(e) := e], es + [e];
    forall k <- m
      ensures m[k] in all && EntryId(m[k]) == k
    {
      if k == EntryId(e) {
        assert all[|es|] == e;
      }
    }
  }

  /** What one occupied entry of the saved table does to the dictionary. */
  method RecordEntry(before: array<byte>, i: nat, id: Guid, offset: int64, size: int64,
                     expected: map<Guid, EntryBytes>, found: bool, ghost es: seq<EntryBytes>, ghost target: nat)
    returns (r: Result<(map<Guid, EntryBytes>, bool)>, ghost es': seq<EntryBytes>, ghost target': nat)
    requires ValidTable(before[..]) && i < Count(before[..]) && Occupied(before[..], i)
    requires es == Others(before[..], i, id) && Indexed(expected, es, EntryId) && Identified(es)
    requires Recorded(before[..], i, id, offset, size, found, target)
    ensures r.Ok? ==> && es' == Others(before[..], i + 1, id)
                      && Indexed(r.value.0, es', EntryId) && Identified(es')
                      && Recorded(before[..], i + 1, id, offset, size, r.value.1, target')
    ensures r.Err? ==> || !Identified(Others(before[..], Count(before[..]), id))
                       || forall t :: !SoleTarget(before[..], t, id, offset, size)
  {
    hide I64, Id, Occupied, Indexed, Identified, SoleTarget, Recorded, EntryId, EMPTY_GUID;
    ghost var b := before[..];
    es', target' := es, target;
    var entryId, entry := Id(before[..], i), Entry(before[..], i);
    EntryFields(b, i);
    RecordedStep(b, i, id, offset, size, found, target);
    if entryId == id {
      if found || Start(before[..], i) != offset || Size(before[..], i) != size {
        WrongSource(b, i, id, offset, size, found, target);
        return Err("Deletion source identity or extent changed"), es', target';
      }
      return Ok((expected, true)), es', i;
    }
    if entryId == EMPTY_GUID || entryId in expected {
      NotIdentified(b, i, Count(b), id, es, expected);
      return Err("Ambiguous saved partition identity"), es', target';
    }
    AnotherOriginal(es, entry, expected);
    return Ok((expected[entryId := entry], found)), es + [entry], target';
  }

  lemma RecordedTarget(b: seq<byte>, id: Guid, offset: int64, size: int64, found: bool, target: nat)
    requires ValidTable(b) && Recorded(b, Count(b), id, offset, size, found, target)
    ensures found <==> exists t :: SoleTarget(b, t, id, offset, size)
  {
    if found {
      assert SoleTarget(b, target, id, offset, size);
    }
  }

  /** The pass of VerifyOnlyDelete over the saved table. */
  method RecordOriginals(before: array<byte>, count: nat, id: Guid, offset: int64, size: int64)
    returns (r: Result<(map<Guid, EntryBytes>, bool)>, ghost es: seq<EntryBytes>)
    requires ValidTable(before[..]) && count == Count(before[..])
    ensures r.Ok? ==> && es == Others(before[..], count, id) && Indexed(r.value.0, es, EntryId) && Identified(es)
                      && exists target :: Recorded(before[..], count, id, offset, size, r.value.1, target)
    ensures r.Err? ==> || !Identified(Others(before[..], count, id))
                       || forall t :: !SoleTarget(before[..], t, id, offset, size)
  {
    hide I64, EntryId, Indexed;
    ghost var b := before[..];
    var expected: map<Guid, EntryBytes>, found := map[], false;
    assert Indexed<Guid, EntryBytes>(map[], [], EntryId) by { IndexNothing(EntryId); }
    ghost var target: nat := 0;
    es := [];
    var i := 0;
    while i < count
      invariant 0 <= i <= count
      invariant es == Others(b, i, id)
      invariant Indexed(expected, es, EntryId) && Identified(es)
      invariant Recorded(b, i, id, offset, size, found, target)
    {
      if Occupied(before[..], i) {
        var step;
        step, es, target := RecordEntry(before, i, id, offset, size, expected, found, es, target);
        if step.Err? {
          return Err(step.message), es;
        }
        expected, found := step.value.0, step.value.1;
      } else {
        RecordedStep(b, i, id, offset, size, found, target);
      }
      i := i + 1;
    }
    return Ok((expected, found)), es;
  }

  lemma StrayEntry(a: seq<byte>, i: nat, n: nat, rest: seq<EntryBytes>, others: seq<EntryBytes>)
    requires i < n && At(n) <= |a| && Occupied(a, i) && Entry(a, i) !in rest
    requires OccupiedBag(a, i) + multiset(rest) == multiset(others)
    ensures OccupiedBag(a, n) != multiset(others)
  {
    OccupiedEntriesPrefix(a, i + 1, n);
    var e := Entry(a, i);
    assert OccupiedBag(a, i + 1)[e] == OccupiedBag(a, i)[e] + 1;
    assert multiset(rest)[e] == 0;
  }

  lemma TakeEntry(a: seq<byte>, i: nat, rest: seq<EntryBytes>, rest': seq<EntryBytes>, others: seq<EntryBytes>)
    requires At(i + 1) <= |a| && Occupied(a, i)
    requires multiset(rest) == multiset(rest') + multiset{Entry(a, i)}
    requires OccupiedBag(a, i) + multiset(rest) == multiset(others)
    ensures OccupiedBag(a, i + 1) + multiset(rest') == multiset(others)
  {
  }

  lemma Leftovers(expected: map<Guid, EntryBytes>, rest: seq<EntryBytes>)
    requires Indexed(expected, rest, EntryId)
    ensures expected == map[] <==> multiset(rest) == multiset{}
  {
    if rest != [] {
      assert EntryId(rest[0]) in expected && rest[0] in multiset(rest);
    }
  }

  lemma NoEntries(a: seq<byte>)
    requires HEADER <= |a|
    ensures OccupiedBag(a, 0) == multiset{}
  {
  }

  lemma NoRoomToTake(expected: map<Guid, EntryBytes>, rest: seq<EntryBytes>, id: Guid, e: EntryBytes)
    requires Indexed(expected, rest, EntryId) && forall x <- rest :: EntryId(x) != id
    requires EntryId(e) == id || EntryId(e) !in expected || expected[EntryId(e)] != e
    ensures e !in rest
  {
  }

  /** The pass of VerifyOnlyDelete over the re-read table. */
  method MatchRemaining(after: array<byte>, count: nat, id: Guid, originals: map<Guid, EntryBytes>, ghost others: seq<EntryBytes>)
    returns (r: Result<map<Guid, EntryBytes>>)
    requires At(count) <= after.Length
    requires Indexed(originals, others, EntryId) && DistinctKeys(others, EntryId)
    requires forall e <- others :: EntryId(e) != id
    ensures r.Ok? && r.value == map[] <==> OccupiedBag(after[..], count) == multiset(others)
  {
    hide I64, EntryId, Indexed, OccupiedEntries, OccupiedBag, Entry, Id, Occupied, DistinctKeys;
    ghost var a, rest := after[..], others;
    var expected := originals;
    NoEntries(a);
    var i := 0;
    while i < count
      invariant 0 <= i <= count
      invariant forall e <- rest :: EntryId(e) != id
      invariant Indexed(expected, rest, EntryId) && DistinctKeys(rest, EntryId)
      invariant OccupiedBag(a, i) + multiset(rest) == multiset(others)
    {
      if Occupied(after[..], i) {
        var entryId, entry := Id(after[..], i), Entry(after[..], i);
        EntryFields(a, i);
        OccupiedBagStep(a, i);
        if entryId == id || entryId !in expected || expected[entryId] != entry {
          NoRoomToTake(expected, rest, id, entry);
          StrayEntry(a, i, count, rest, others);
          return Err("Deletion changed another partition or added an unexpected one");
        }
        ghost var rest' := Unindex(expected, rest, EntryId, entryId);
        TakeEntry(a, i, rest, rest', others);
        expected, rest := expected - {entryId}, rest';
      } else {
        OccupiedBagStep(a, i);
      }
      i := i + 1;
    }
    Leftovers(expected, rest);
    return Ok(expected);
  }

  /** Both passes, on buffers of the right shape. */
  method CompareTables(before: array<byte>, after: array<byte>, id: Guid, offset: int64, size: int64)
    returns (r: Result<bool>)
    requires ValidTable(before[..]) && ValidTable(after[..])
    ensures r == Ok(true) <==>
            && (exists t :: SoleTarget(before[..], t, id, offset, size))
            && Identified(Others(before[..], Count(before[..]), id))
            && OccupiedBag(after[..], Count(after[..])) == multiset(Others(before[..], Count(before[..]), id))
  {
    var count := U32(before[..], 4);
    var recorded; ghost var es;
    recorded, es := RecordOriginals(before, count, id, offset, size);
    if recorded.Err? {
      return Err(recorded.message);
    }
    var (expected, found) := recorded.value;
    ghost var target :| Recorded(before[..], count, id, offset, size, found, target);
    RecordedTarget(before[..], id, offset, size, found, target);
    OthersHaveOtherIds(before[..], count, id);
    var unmatched := MatchRemaining(after, U32(after[..], 4), id, expected, es);
    if unmatched.Err? {
      return Err(unmatched.message);
    }
    return Ok(found && unmatched.value == map[]);
  }

  /** Accepts exactly the removal of the one confirmed partition. */
  method VerifyOnlyDelete(before: array<byte>, after: array<byte>, id: Guid, offset: int64, size: int64)
    returns (r: Result<seq<byte>>)
    ensures r.Ok? <==> OnlyDeleted(before[..], after[..], id, offset, size)
    ensures r.Ok? ==> r.value == after[..]
  {
    if before.Length < HEADER || after.Length < HEADER || !SameHeader(before[..], after[..]) {
      return Err("Deletion changed disk geometry or GPT identity");
    }
    if !ValidTable(before[..]) || !ValidTable(after[..]) {
      return Err("Invalid deletion layout readback");
    }
    var same := CompareTables(before, after, id, offset, size);
    if same != Ok(true) {
      return Err(if same.Err? then same.message else "Deletion removed more than the confirmed partition");
    }
    return Ok(after[..]);
  }
}
