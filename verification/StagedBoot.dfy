// The temporary installer's firmware entry: reserving, registering, restoring, arming and removing it.
module StagedBoot {
  import opened Bytes
  import opened Firmware
  import opened LoadOption

  // The boot order.

  /** The slots that a boot order lists. */
  function Slots(order: seq<byte>): seq<nat> {
    if |order| < 2 then [] else Slots(order[..|order| - 2]) + [U16(order, |order| - 2)]
  }

  /** The order without one slot. */
  function Without(order: seq<byte>, index: nat): seq<byte> {
    if |order| < 2 then []
    else
      var n := |order| - 2;
      Without(order[..n], index) + if U16(order, n) == index then [] else order[n..]
  }

  function Drop(slots: seq<nat>, lost: set<nat>): seq<nat> {
    if slots == [] then []
    else
      var n := |slots| - 1;
      Drop(slots[..n], lost) + if slots[n] in lost then [] else [slots[n]]
  }

  lemma {:induction false} WithoutIsShorter(order: seq<byte>, index: nat)
    requires |order| % 2 == 0
    ensures |Without(order, index)| % 2 == 0 && |Without(order, index)| <= |order|
    ensures |Without(order, index)| == |order| <==> index !in Slots(order)
    ensures index !in Slots(order) ==> Without(order, index) == order
  {
    if |order| >= 2 {
      var n := |order| - 2;
      WithoutIsShorter(order[..n], index);
      assert order == order[..n] + order[n..];
    } else {
      assert order == [];
    }
  }

  /** Exactly the one slot goes; the others keep their order. */
  lemma {:induction false} SlotsWithout(order: seq<byte>, index: nat)
    requires |order| % 2 == 0
    ensures Slots(Without(order, index)) == Drop(Slots(order), {index})
  {
    if |order| >= 2 {
      var n := |order| - 2;
      SlotsWithout(order[..n], index);
      WithoutIsShorter(order[..n], index);
      var rest, last := Without(order[..n], index), order[n..];
      assert Slots(order)[..|Slots(order)| - 1] == Slots(order[..n]);
      if U16(order, n) != index {
        assert (rest + last)[..|rest + last| - 2] == rest;
        assert U16(rest + last, |rest|) == U16(order, n);
      } else {
        assert rest + [] == rest;
      }
    }
  }

  lemma {:induction false} DropDrop(slots: seq<nat>, a: set<nat>, b: set<nat>)
    ensures Drop(Drop(slots, a), b) == Drop(slots, a + b)
  {
    if slots != [] {
      var n := |slots| - 1;
      DropDrop(slots[..n], a, b);
      var d := Drop(slots[..n], a);
      if slots[n] !in a {
        assert (d + [slots[n]])[..|d|] == d;
      } else {
        assert d + [] == d;
      }
    }
  }

  lemma {:induction false} DropNothing(slots: seq<nat>)
    ensures Drop(slots, {}) == slots
  {
    if slots != [] {
      DropNothing(slots[..|slots| - 1]);
    }
  }

  // What one call may do to the variables.

  /** An entry with this content belongs to somebody else than the given option's installer. */
  predicate Foreign(content: Option<seq<byte>>, option: seq<byte>) {
    content.Some? && !SameStagingTarget(content.value, option)
  }

  /** Only entries that were free or ours, the pending boot and the order differ. */
  ghost predicate Contained(before: Vars, after: Vars, option: seq<byte>) {
    forall n | n != ORDER && n != NEXT && (IsEntry(n) ==> Foreign(Get(before, n), option)) ::
      Get(after, n) == Get(before, n)
  }

  /** The order is as before, or lost the slot of an entry that was free or ours. */
  ghost predicate OrderKept(before: Vars, after: Vars, option: seq<byte>, index: Option<nat>) {
    || Get(after, ORDER) == Get(before, ORDER)
    || (&& index.Some? && index.value < 0x1_0000 && !Foreign(Get(before, EntryName(index.value)), option)
        && Get(before, ORDER).Some? && |Get(before, ORDER).value| % 2 == 0
        && Get(after, ORDER) == Some(Without(Get(before, ORDER).value, index.value)))
  }

  /** The effect of one call, whatever its outcome; honest means that the firmware stored what it was given. */
  ghost predicate StepOk(before: Vars, after: Vars, option: seq<byte>, index: Option<nat>, honest: bool) {
    && Contained(before, after, option)
    && (honest ==> OrderKept(before, after, option, index))
  }

  lemma StepNone(vars: Vars, option: seq<byte>, index: Option<nat>)
    ensures StepOk(vars, vars, option, index, true)
  {
  }

  /** Writing an entry that is free or ours. */
  lemma StepEntry(before: Vars, name: string, stored: seq<byte>, option: seq<byte>, index: Option<nat>)
    requires IsEntry(name) && !Foreign(Get(before, name), option)
    ensures StepOk(before, Store(before, name, stored), option, index, true)
  {
    NotEntries();
    hide IsEntry, SameStagingTarget;
  }

  lemma StepPending(before: Vars, stored: seq<byte>, option: seq<byte>, index: Option<nat>)
    ensures StepOk(before, Store(before, NEXT, stored), option, index, true)
  {
    NotEntries();
    hide IsEntry, SameStagingTarget;
  }

  function FreeFrom(vars: Vars, i: nat): (r: Option<string>)
    requires i <= 0x1_0000
    decreases 0x1_0000 - i
  {
    if i == 0x1_0000 then None
    else if Get(vars, EntryName(i)).None? then Some(EntryName(i))
    else FreeFrom(vars, i + 1)
  }

  lemma {:induction false} FreeIsFree(vars: Vars, i: nat)
    requires i <= 0x1_0000
    ensures FreeFrom(vars, i).Some? ==> IsEntry(FreeFrom(vars, i).value) && Get(vars, FreeFrom(vars, i).value).None?
    ensures FreeFrom(vars, i).None? ==> forall k | i <= k < 0x1_0000 :: EntryName(k) in vars
    decreases 0x1_0000 - i
  {
    hide IsEntry;
    if i < 0x1_0000 {
      FreeIsFree(vars, i + 1);
    }
  }

  method ReserveStagingBootName(fw: Variables) returns (r: Result<string>)
    ensures r == match FreeFrom(fw.vars, 0) { case Some(name) => Ok(name) case None => Err("No free firmware entry") }
  {
    hide EntryName;
    var i := 0;
    while i <= 65535
      invariant i <= 0x1_0000 && FreeFrom(fw.vars, i) == FreeFrom(fw.vars, 0)
    {
      var name := EntryName(i);
      if Get(fw.vars, name).None? {
        return Ok(name);
      }
      i := i + 1;
    }
    return Err("No free firmware entry");
  }

  /** A missing variable reads as empty in a comparison. */
  function Value(vars: Vars, name: string): seq<byte> {
    if name in vars then vars[name] else []
  }

  /** The digest of the boot order, when there is a readable one. */
  function Preflight(vars: Vars, digest: seq<byte> -> string): Option<string> {
    match Get(vars, ORDER)
    case None => None
    case Some(order) => if |order| % 2 != 0 then None else Some(digest(order))
  }

  predicate CanRegister(vars: Vars, name: string, expected: string, digest: seq<byte> -> string) {
    IsEntry(name) && name !in vars && Preflight(vars, digest) == Some(expected)
  }

  method RegisterStagingBoot(fw: Variables, name: string, option: seq<byte>, expected: string) returns (r: Result<()>)
    modifies fw
    ensures r.Ok? ==> CanRegister(old(fw.vars), name, expected, fw.digest) && fw.vars == Store(old(fw.vars), name, option)
    ensures old(fw.script) == [] ==> (r.Ok? <==> CanRegister(old(fw.vars), name, expected, fw.digest))
    ensures old(fw.script) == [] ==>
              (r.Ok? <==>
                 && IsEntry(name) && name !in old(fw.vars) && "BootOrder" in old(fw.vars)
                 && |old(fw.vars)["BootOrder"]| % 2 == 0 && fw.digest(old(fw.vars)["BootOrder"]) == expected)
    ensures StepOk(old(fw.vars), fw.vars, option, StagingIndex(name), true)
  {
    hide IsEntry, StepOk, SameStagingTarget;
    NotEntries();
    ghost var before := fw.vars;
    StepNone(before, option, StagingIndex(name));
    if StagingIndex(name).None? {
      return Err("Invalid firmware entry name");
    }
    if Get(fw.vars, name).Some? || Preflight(fw.vars, fw.digest) != Some(expected) {
      return Err("Firmware changed before staging registration");
    }
    var ok, stored := fw.SetVariable(name, option);
    if !ok {
      return Err("Cannot register temporary installer");
    }
    StepEntry(before, name, stored, option, StagingIndex(name));
    if Value(fw.vars, name) != option || Preflight(fw.vars, fw.digest) != Some(expected) {
      return Err("Temporary entry readback failed");
    }
    return Ok(());
  }

  /** Where the entry goes: its recorded slot while that is free or still ours, otherwise the first free one. */
  function RestoreSlot(vars: Vars, name: string, option: seq<byte>): Option<string> {
    if Get(vars, name) != Some(option) && Foreign(Get(vars, name), option) then FreeFrom(vars, 0) else Some(name)
  }

  method RestoreStagingBoot(fw: Variables, name: string, option: seq<byte>) returns (r: Result<string>)
    modifies fw
    ensures r.Ok? ==> IsEntry(name) && RestoreSlot(old(fw.vars), name, option) == Some(r.value)
    ensures r.Ok? ==> fw.vars == if Get(old(fw.vars), name) == Some(option) then old(fw.vars)
                                 else Store(old(fw.vars), r.value, option)
    ensures old(fw.script) == [] ==> (r.Ok? <==> IsEntry(name) && RestoreSlot(old(fw.vars), name, option).Some?)
    ensures StepOk(old(fw.vars), fw.vars, option, StagingIndex(name), true)
  {
    hide IsEntry, StepOk, SameStagingTarget, FreeFrom;
    ghost var before, index := fw.vars, StagingIndex(name);
    StepNone(before, option, index);
    if StagingIndex(name).None? {
      return Err("Invalid firmware entry name");
    }
    var existing := Get(fw.vars, name);
    if existing == Some(option) {
      return Ok(name);
    }
    var slot := name;
    if Foreign(existing, option) {
      FreeIsFree(before, 0);
      var reserved := ReserveStagingBootName(fw);
      if reserved.Err? {
        return reserved;
      }
      slot := reserved.value;
    }
    var ok, stored := fw.SetVariable(slot, option);
    if !ok {
      return Err("Cannot restore temporary installer entry");
    }
    StepEntry(before, slot, stored, option, index);
    if Value(fw.vars, slot) != option {
      return Err("Temporary entry readback failed");
    }
    return Ok(slot);
  }

  /** A pending one-time boot is fine only when it is the caller's own. */
  predicate OneTimeBootAllowed(pending: Option<seq<byte>>, index: int) {
    pending.None? || IsPending(pending, index)
  }

  predicate IsPending(pending: Option<seq<byte>>, index: int) {
    pending.Some? && index >= 0 && |pending.value| == 2 && U16(pending.value, 0) == index
  }

  predicate CanArm(vars: Vars, name: string, option: seq<byte>) {
    && StagingIndex(name).Some? && Value(vars, name) == option
    && OneTimeBootAllowed(Get(vars, NEXT), StagingIndex(name).value)
  }

  /** A one-time boot is pending, and not this entry's. */
  ghost predicate OtherPending(vars: Vars, name: string) {
    "BootNext" in vars && forall k: nat | k < 0x1_0000 && vars["BootNext"] == LE16(k) :: EntryName(k) != name
  }

  lemma TwoBytes(b: seq<byte>, k: nat)
    requires k < 0x1_0000
    ensures b == LE16(k) <==> |b| == 2 && U16(b, 0) == k
  {
  }

  lemma PendingExact(vars: Vars, name: string, index: nat)
    requires StagingIndex(name) == Some(index)
    ensures OneTimeBootAllowed(Get(vars, NEXT), index) <==> !OtherPending(vars, name)
    ensures IsPending(Get(vars, NEXT), index) <==> Get(vars, "BootNext") == Some(LE16(index))
  {
    hide LE16, U16, EntryName, StagingIndex;
    NameIffIndex(name, index);
    if NEXT in vars {
      forall k: nat | k < 0x1_0000
        ensures vars[NEXT] == LE16(k) <==> |vars[NEXT]| == 2 && U16(vars[NEXT], 0) == k
        ensures EntryName(k) == name <==> k == index
      {
        TwoBytes(vars[NEXT], k);
        NameIffIndex(name, k);
      }
    }
  }

  method ArmStagingBoot(fw: Variables, name: string, option: seq<byte>) returns (r: Result<()>)
    modifies fw
    ensures r.Ok? ==> CanArm(old(fw.vars), name, option)
    ensures r.Ok? ==> fw.vars == old(fw.vars)[NEXT := LE16(StagingIndex(name).value)]
    ensures old(fw.script) == [] ==> (r.Ok? <==> CanArm(old(fw.vars), name, option))
    ensures OtherPending(old(fw.vars), name) ==> r.Err? && fw.vars == old(fw.vars)
    ensures old(fw.script) == [] ==>
              (r.Ok? <==>
                 && IsEntry(name) && (if name in old(fw.vars) then old(fw.vars)[name] else []) == option
                 && !OtherPending(old(fw.vars), name))
    ensures StepOk(old(fw.vars), fw.vars, option, StagingIndex(name), true)
  {
    hide IsEntry, StepOk, SameStagingTarget, LE16, OtherPending, OneTimeBootAllowed;
    ghost var before := fw.vars;
    StepNone(before, option, StagingIndex(name));
    if StagingIndex(name).None? {
      return Err("Invalid firmware entry name");
    }
    var index := StagingIndex(name).value;
    PendingExact(before, name, index);
    if Value(fw.vars, name) != option || !OneTimeBootAllowed(Get(fw.vars, NEXT), index) {
      return Err("Firmware entry changed or another one-time boot is pending");
    }
    var next := LE16(index);
    var ok, stored := fw.SetVariable(NEXT, next);
    if !ok {
      return Err("Cannot select next installer boot");
    }
    StepPending(before, stored, option, StagingIndex(name));
    if Value(fw.vars, NEXT) != next {
      return Err("One-time boot readback failed");
    }
    return Ok(());
  }

  // Removal.

  predicate Booted(vars: Vars, index: nat) {
    Get(vars, CURRENT).None? || |vars[CURRENT]| != 2 || U16(vars[CURRENT], 0) == index
  }

  /** The order can lose the slot: it is readable, and something is left of it if it loses anything. */
  predicate CanUnlist(vars: Vars, index: nat) {
    && Get(vars, ORDER).Some? && |vars[ORDER]| % 2 == 0
    && (index in Slots(vars[ORDER]) ==> Without(vars[ORDER], index) != [])
  }

  predicate CanRemove(vars: Vars, name: string, option: seq<byte>) {
    && StagingIndex(name).Some? && !Booted(vars, StagingIndex(name).value)
    && (Foreign(Get(vars, name), option) || CanUnlist(vars, StagingIndex(name).value))
  }

  function Disarmed(vars: Vars, index: nat): Vars {
    if IsPending(Get(vars, NEXT), index) then vars - {NEXT} else vars
  }

  function Unlisted(vars: Vars, index: nat): Vars
    requires ORDER in vars
  {
    vars[ORDER := Without(vars[ORDER], index)]
  }

  /** The variables without the entry, its place in the order and its pending one-time boot. */
  function Removed(vars: Vars, name: string, option: seq<byte>): Vars
    requires CanRemove(vars, name, option)
  {
    if Foreign(Get(vars, name), option) then vars
    else
      var index := StagingIndex(name).value;
      Unlisted(Disarmed(vars, index), index) - {name}
  }

  /** Effects follow one another; the order changes in at most one of them. */
  lemma StepThen(a: Vars, b: Vars, c: Vars, option: seq<byte>, index: Option<nat>, honest: bool)
    requires StepOk(a, b, option, index, honest) && StepOk(b, c, option, index, honest)
    requires Get(a, ORDER) == Get(b, ORDER) || Get(b, ORDER) == Get(c, ORDER)
    ensures StepOk(a, c, option, index, honest)
  {
    hide SameStagingTarget, IsEntry, EntryName, Without;
    NotEntries();
    assert forall n | IsEntry(n) && Foreign(Get(a, n), option) :: Get(b, n) == Get(a, n) by {
      forall n | IsEntry(n) && Foreign(Get(a, n), option)
        ensures Get(b, n) == Get(a, n)
      {
      }
    }
  }

  lemma StepWeaken(before: Vars, after: Vars, option: seq<byte>, index: Option<nat>, honest: bool, weaker: bool)
    requires StepOk(before, after, option, index, honest) && (weaker ==> honest)
    ensures StepOk(before, after, option, index, weaker)
  {
    hide Contained, OrderKept;
  }

  /** Clears our pending one-time boot; cleared says that the firmware did not store something else. */
  method Disarm(fw: Variables, index: nat, ghost option: seq<byte>) returns (ok: bool, ghost cleared: bool)
    modifies fw
    ensures ok && cleared ==> fw.vars == Disarmed(old(fw.vars), index)
    ensures forall n | n != NEXT :: Get(fw.vars, n) == Get(old(fw.vars), n)
    ensures StepOk(old(fw.vars), fw.vars, option, Some(index), true)
    ensures old(fw.script) == [] ==> ok && cleared && fw.script == []
  {
    hide StepOk;
    ghost var before := fw.vars;
    StepNone(before, option, Some(index));
    ok, cleared := true, true;
    if IsPending(Get(fw.vars, NEXT), index) {
      ghost var stored;
      ok, stored := fw.SetVariable(NEXT, []);
      cleared := stored == [];
      StepPending(before, stored, option, Some(index));
    }
  }

  lemma WithoutNext(order: seq<byte>, i: nat, index: nat)
    requires i + 2 <= |order|
    ensures U16(order, i) == index ==> Without(order[..i + 2], index) == Without(order[..i], index)
    ensures U16(order, i) != index ==>
              Without(order[..i + 2], index) == Without(order[..i], index) + [order[i], order[i + 1]]
  {
    var o := order[..i + 2];
    assert o[..i] == order[..i];
    assert o[i..] == [order[i], order[i + 1]];
    assert U16(o, i) == U16(order, i);
  }

  method KeepOthers(order: seq<byte>, index: nat) returns (kept: seq<byte>)
    requires |order| % 2 == 0
    ensures kept == Without(order, index)
  {
    kept := [];
    var i := 0;
    assert Without(order[..0], index) == [];
    hide Without;
    ghost var entries, read := |order| / 2, 0;
    while i < |order|
      invariant read <= entries && i == 2 * read && kept == Without(order[..i], index)
    {
      WithoutNext(order, i, index);
      if U16(order, i) != index {
        kept := kept + [order[i], order[i + 1]];
      }
      i, read := i + 2, read + 1;
    }
    assert order[..i] == order;
  }

  lemma StepUnlist(before: Vars, stored: seq<byte>, option: seq<byte>, index: nat, honest: bool)
    requires Get(before, ORDER).Some? && |before[ORDER]| % 2 == 0
    requires index < 0x1_0000 && !Foreign(Get(before, EntryName(index)), option)
    requires honest ==> stored == Without(before[ORDER], index) != []
    ensures StepOk(before, Store(before, ORDER, stored), option, Some(index), honest)
  {
    NotEntries();
    hide IsEntry, SameStagingTarget, Without, EntryName;
  }

  /** Drops our slot from the order; kept says that the firmware did not store another order than it was given. */
  method Unlist(fw: Variables, index: nat, ghost option: seq<byte>) returns (r: Result<()>, ghost kept: bool)
    requires index < 0x1_0000 && !Foreign(Get(fw.vars, EntryName(index)), option)
    modifies fw
    ensures r.Ok? ==> kept && CanUnlist(old(fw.vars), index) && fw.vars == Unlisted(old(fw.vars), index)
    ensures forall n | n != ORDER :: Get(fw.vars, n) == Get(old(fw.vars), n)
    ensures StepOk(old(fw.vars), fw.vars, option, Some(index), kept)
    ensures old(fw.script) == [] ==> fw.script == [] && kept && (r.Ok? <==> CanUnlist(old(fw.vars), index))
  {
    hide StepOk, EntryName, SameStagingTarget, Without;
    ghost var before := fw.vars;
    kept := true;
    StepNone(before, option, Some(index));
    var order := Get(fw.vars, ORDER);
    if order.None? || |order.value| % 2 != 0 {
      return Err("Unknown firmware order"), kept;
    }
    var others := KeepOthers(order.value, index);
    WithoutIsShorter(order.value, index);
    if |others| != |order.value| {
      if |others| == 0 {
        return Err("Cannot remove the only boot option"), kept;
      }
      var ok, stored := fw.SetVariable(ORDER, others);
      if !ok {
        return Err("Cannot remove owned boot order reference"), kept;
      }
      kept := stored == others;
      StepUnlist(before, stored, option, index, kept);
      if Value(fw.vars, ORDER) != others {
        return Err("Boot cleanup readback failed"), kept;
      }
    }
    return Ok(()), kept;
  }

  method DeleteEntry(fw: Variables, name: string, present: bool, ghost option: seq<byte>) returns (r: Result<()>)
    requires IsEntry(name) && (present <==> name in fw.vars) && !Foreign(Get(fw.vars, name), option)
    modifies fw
    ensures r.Ok? ==> fw.vars == old(fw.vars) - {name}
    ensures StepOk(old(fw.vars), fw.vars, option, StagingIndex(name), true)
    ensures Get(fw.vars, ORDER) == Get(old(fw.vars), ORDER)
    ensures old(fw.script) == [] ==> r.Ok? && fw.script == []
  {
    hide StepOk, IsEntry, SameStagingTarget;
    NotEntries();
    ghost var before := fw.vars;
    StepNone(before, option, StagingIndex(name));
    if present {
      var ok, stored := fw.SetVariable(name, []);
      if !ok {
        return Err("Cannot remove temporary firmware entry");
      }
      StepEntry(before, name, stored, option, StagingIndex(name));
    }
    if Get(fw.vars, name).Some? {
      return Err("Temporary entry remains");
    }
    return Ok(());
  }

  method RemoveOwned(fw: Variables, name: string, index: nat, option: seq<byte>)
    returns (r: Result<()>, ghost kept: bool, ghost cleared: bool)
    requires StagingIndex(name) == Some(index) && !Booted(fw.vars, index) && !Foreign(Get(fw.vars, name), option)
    modifies fw
    ensures r.Ok? ==> kept && CanRemove(old(fw.vars), name, option)
    ensures r.Ok? ==> forall n | n != NEXT :: Get(fw.vars, n) == Get(Removed(old(fw.vars), name, option), n)
    ensures r.Ok? && cleared ==> fw.vars == Removed(old(fw.vars), name, option)
    ensures StepOk(old(fw.vars), fw.vars, option, Some(index), kept)
    ensures old(fw.script) == [] ==> kept && cleared && (r.Ok? <==> CanRemove(old(fw.vars), name, option))
  {
    hide StepOk, IsEntry, EntryName, SameStagingTarget, Slots, Without;
    NotEntries();
    NameIffIndex(name, index);
    ghost var a := fw.vars;
    var ok;
    kept := true;
    ok, cleared := Disarm(fw, index, option);
    if !ok {
      return Err("Cannot clear owned one-time boot"), kept, cleared;
    }
    ghost var b := fw.vars;
    assert Get(b, ORDER) == Get(a, ORDER) && Get(b, name) == Get(a, name);
    r, kept := Unlist(fw, index, option);
    ghost var c := fw.vars;
    StepWeaken(a, b, option, Some(index), true, kept);
    StepThen(a, b, c, option, Some(index), kept);
    if r.Err? {
      return;
    }
    assert Get(c, name) == Get(a, name);
    r := DeleteEntry(fw, name, name in fw.vars, option);
    StepThen(a, c, fw.vars, option, Some(index), true);
    if r.Ok? {
      RemovedButPending(a, b, name, index, option);
    }
  }

  /** However the pending boot stands, the other variables are as the removal leaves them. */
  lemma RemovedButPending(a: Vars, b: Vars, name: string, index: nat, option: seq<byte>)
    requires StagingIndex(name) == Some(index) && CanRemove(a, name, option) && !Foreign(Get(a, name), option)
    requires forall n | n != NEXT :: Get(b, n) == Get(a, n)
    ensures ORDER in b
    ensures forall n | n != NEXT :: Get(Unlisted(b, index) - {name}, n) == Get(Removed(a, name, option), n)
  {
    NotEntries();
    hide Without, SameStagingTarget, IsEntry, Slots;
    assert Get(b, ORDER) == Get(a, ORDER) && ORDER in a;
    var x, y := Unlisted(b, index) - {name}, Removed(a, name, option);
    assert y == Unlisted(Disarmed(a, index), index) - {name};
    forall n | n != NEXT
      ensures Get(x, n) == Get(y, n)
    {
      assert Get(b, n) == Get(a, n) == Get(Disarmed(a, index), n);
      if n == ORDER {
        assert name != ORDER;
      }
    }
  }

  // When a removal succeeds, and what is left of the variables then.

  /** The machine was started from a known entry, and not from this one. */
  ghost predicate StartedElsewhere(vars: Vars, name: string) {
    exists k: nat | k < 0x1_0000 :: Get(vars, "BootCurrent") == Some(LE16(k)) && EntryName(k) != name
  }

  lemma BootedExact(vars: Vars, name: string, index: nat)
    requires StagingIndex(name) == Some(index)
    ensures Booted(vars, index) <==> !StartedElsewhere(vars, name)
  {
    hide LE16, U16, EntryName, StagingIndex;
    if CURRENT in vars {
      forall k: nat | k < 0x1_0000
        ensures vars[CURRENT] == LE16(k) <==> |vars[CURRENT]| == 2 && U16(vars[CURRENT], 0) == k
        ensures EntryName(k) == name <==> k == index
      {
        TwoBytes(vars[CURRENT], k);
        NameIffIndex(name, k);
      }
      if |vars[CURRENT]| == 2 {
        WordIsSmall(vars[CURRENT]);
        assert Get(vars, "BootCurrent") == Some(LE16(U16(vars[CURRENT], 0)));
      }
    }
  }

  lemma WordIsSmall(b: seq<byte>)
    requires |b| == 2
    ensures U16(b, 0) < 0x1_0000 && b == LE16(U16(b, 0))
  {
  }

  /** The order can be read and, unless it is empty, lists another entry than this one. */
  ghost predicate KeepsAnother(vars: Vars, name: string) {
    && "BootOrder" in vars && |vars["BootOrder"]| % 2 == 0
    && (vars["BootOrder"] == [] || exists j | 0 <= j < |vars["BootOrder"]| / 2 :: SlotAt(vars["BootOrder"], j) != name)
  }

  /** The name of the entry that an order lists at this place. */
  function SlotAt(order: seq<byte>, j: nat): string
    requires 2 * j + 2 <= |order|
  {
    EntryName(U16(order, 2 * j))
  }

  lemma {:induction false} UnlistExact(order: seq<byte>, name: string, index: nat)
    requires |order| % 2 == 0 && StagingIndex(name) == Some(index)
    ensures index in Slots(order) <==> exists j | 0 <= j < |order| / 2 :: SlotAt(order, j) == name
    ensures Without(order, index) != [] <==> exists j | 0 <= j < |order| / 2 :: SlotAt(order, j) != name
  {
    hide EntryName, StagingIndex, U16;
    if order != [] {
      var n := |order| - 2;
      var shorter := order[..n];
      UnlistExact(shorter, name, index);
      NameIffIndex(name, U16(order, n));
      assert SlotAt(order, n / 2) == name <==> U16(order, n) == index;
      forall j | 0 <= j < |shorter| / 2
        ensures SlotAt(shorter, j) == SlotAt(order, j)
      {
        SameWord(order, n, 2 * j);
      }
      hide SlotAt;
    }
  }

  lemma SameWord(order: seq<byte>, n: nat, i: nat)
    requires i + 2 <= n <= |order|
    ensures U16(order[..n], i) == U16(order, i)
  {
  }

  /** A removal may go on exactly under conditions that its caller can look up before it. */
  lemma RemoveExact(vars: Vars, name: string, option: seq<byte>)
    ensures CanRemove(vars, name, option) <==>
            && IsEntry(name) && StartedElsewhere(vars, name)
            && ((name in vars && !SameStagingTarget(vars[name], option)) || KeepsAnother(vars, name))
  {
    hide SameStagingTarget, IsEntry, Booted, StartedElsewhere, Slots, Without, SlotAt;
    if IsEntry(name) {
      var index := StagingIndex(name).value;
      BootedExact(vars, name, index);
      if ORDER in vars && |vars[ORDER]| % 2 == 0 {
        UnlistExact(vars[ORDER], name, index);
        assert vars[ORDER] != [] ==> SlotAt(vars[ORDER], 0) == name || SlotAt(vars[ORDER], 0) != name;
      }
    }
  }

  /** What removing our own entry leaves: the entry, its listings and its one-time boot are gone, nothing else. */
  ghost predicate Gone(before: Vars, after: Vars, name: string) {
    && name !in after
    && (forall k: nat | k < 0x1_0000 && EntryName(k) == name ::
          && "BootOrder" in before && "BootOrder" in after
          && Slots(after["BootOrder"]) == Drop(Slots(before["BootOrder"]), {k})
          && Get(after, "BootNext") == if Get(before, "BootNext") == Some(LE16(k)) then None else Get(before, "BootNext"))
    && forall n | n != name && n != "BootOrder" && n != "BootNext" :: Get(after, n) == Get(before, n)
  }

  lemma RemovedExact(vars: Vars, name: string, option: seq<byte>)
    requires CanRemove(vars, name, option)
    ensures if name in vars && !SameStagingTarget(vars[name], option) then Removed(vars, name, option) == vars
            else Gone(vars, Removed(vars, name, option), name)
  {
    hide SameStagingTarget, IsEntry, Booted, Slots, Without, LE16, EntryName, Drop;
    NotEntries();
    if !Foreign(Get(vars, name), option) {
      var index := StagingIndex(name).value;
      PendingExact(vars, name, index);
      SlotsWithout(vars[ORDER], index);
      forall k: nat | k < 0x1_0000 && EntryName(k) == name
        ensures k == index
      {
        NameIffIndex(name, k);
      }
    }
  }

  /**
   * Removes the entry, its slot in the order and its pending one-time boot. The order is read back, so that
   * success means that it was kept; the pending boot is not.
   */
  method RemoveStagingBoot(fw: Variables, name: string, option: seq<byte>)
    returns (r: Result<()>, ghost kept: bool, ghost cleared: bool)
    modifies fw
    ensures r.Ok? ==> kept && CanRemove(old(fw.vars), name, option)
    ensures r.Ok? ==> forall n | n != NEXT :: Get(fw.vars, n) == Get(Removed(old(fw.vars), name, option), n)
    ensures r.Ok? && cleared ==> fw.vars == Removed(old(fw.vars), name, option)
    ensures StepOk(old(fw.vars), fw.vars, option, StagingIndex(name), kept)
    ensures old(fw.script) == [] ==> kept && cleared && (r.Ok? <==> CanRemove(old(fw.vars), name, option))
    ensures !IsEntry(name) || !StartedElsewhere(old(fw.vars), name) ==> r.Err? && fw.vars == old(fw.vars)
    ensures old(fw.script) == [] ==>
              (r.Ok? <==>
                 && IsEntry(name) && StartedElsewhere(old(fw.vars), name)
                 && ((name in old(fw.vars) && !SameStagingTarget(old(fw.vars)[name], option))
                     || KeepsAnother(old(fw.vars), name)))
    ensures r.Ok? && cleared ==>
              if name in old(fw.vars) && !SameStagingTarget(old(fw.vars)[name], option) then fw.vars == old(fw.vars)
              else Gone(old(fw.vars), fw.vars, name)
  {
    hide StepOk, IsEntry, SameStagingTarget, StartedElsewhere, KeepsAnother, Gone, CanUnlist, Booted, Removed;
    ghost var before := fw.vars;
    RemoveExact(before, name, option);
    if CanRemove(before, name, option) {
      RemovedExact(before, name, option);
    }
    if StagingIndex(name).Some? {
      BootedExact(before, name, StagingIndex(name).value);
    }
    StepNone(fw.vars, option, StagingIndex(name));
    kept, cleared := true, true;
    if StagingIndex(name).None? {
      return Err("Invalid firmware entry name"), kept, cleared;
    }
    var index := StagingIndex(name).value;
    if Booted(fw.vars, index) {
      return Err("Cannot remove the current boot source"), kept, cleared;
    }
    if Foreign(Get(fw.vars, name), option) {
      return Ok(()), kept, cleared;
    }
    r, kept, cleared := RemoveOwned(fw, name, index, option);
  }

  // Whole runs.

  /** Registering a free slot, arming it and removing it leave the variables as they were. */
  lemma RegisterArmRemove(vars: Vars, name: string, option: seq<byte>)
    requires IsEntry(name) && name !in vars && NEXT !in vars && PathOf(option).Some?
    requires ORDER in vars && |vars[ORDER]| % 2 == 0 && StagingIndex(name).value !in Slots(vars[ORDER])
    requires !Booted(vars, StagingIndex(name).value)
    ensures var armed := Store(vars, name, option)[NEXT := LE16(StagingIndex(name).value)];
            CanArm(Store(vars, name, option), name, option) && CanRemove(armed, name, option)
            && Removed(armed, name, option) == vars
  {
    hide LE16, U16, Slots, Without, DescriptionEnd;
    NotEntries();
    assert option != [];
    var index := StagingIndex(name).value;
    WithoutIsShorter(vars[ORDER], index);
    var armed := Store(vars, name, option)[NEXT := LE16(index)];
    assert U16(LE16(index), 0) == index;
    assert armed[ORDER := vars[ORDER]] == armed;
    assert Removed(armed, name, option) == armed - {NEXT} - {name};
    assert armed - {NEXT} - {name} == vars;
  }

  /** A step of a run: a call of ours, or whatever the firmware itself does. */
  datatype Step = Ours(option: seq<byte>, index: Option<nat>, honest: bool) | Theirs

  ghost predicate Run(states: seq<Vars>, steps: seq<Step>) {
    && |states| == |steps| + 1
    && forall k | 0 <= k < |steps| && steps[k].Ours? ::
         StepOk(states[k], states[k + 1], steps[k].option, steps[k].index, steps[k].honest)
  }

  /** The firmware itself leaves this variable alone. */
  ghost predicate Untouched(states: seq<Vars>, steps: seq<Step>, name: string)
    requires |states| == |steps| + 1
  {
    forall k | 0 <= k < |steps| :: steps[k].Theirs? ==> Get(states[k + 1], name) == Get(states[k], name)
  }

  /** No call was made for an installer that this entry could belong to. */
  predicate ForeignToAll(steps: seq<Step>, content: Option<seq<byte>>) {
    forall k | 0 <= k < |steps| && steps[k].Ours? :: Foreign(content, steps[k].option)
  }

  /**
   * Whatever the firmware did before: a call leaves every entry alone that has another target at that moment,
   * and takes nothing from the order but the slot it was made for, which then is not such an entry's.
   */
  lemma EachCallSparesForeign(states: seq<Vars>, steps: seq<Step>, k: nat, name: string)
    requires Run(states, steps) && k < |steps| && steps[k].Ours?
    ensures IsEntry(name) && Foreign(Get(states[k], name), steps[k].option) ==> Get(states[k + 1], name) == Get(states[k], name)
    ensures steps[k].honest && Get(states[k + 1], ORDER) != Get(states[k], ORDER) ==>
              && steps[k].index.Some? && Get(states[k], ORDER).Some? && |states[k][ORDER]| % 2 == 0
              && Get(states[k + 1], ORDER).Some?
              && Slots(states[k + 1][ORDER]) == Drop(Slots(states[k][ORDER]), {steps[k].index.value})
              && (StagingIndex(name) == steps[k].index ==> !Foreign(Get(states[k], name), steps[k].option))
  {
    NotEntries();
    assert StepOk(states[k], states[k + 1], steps[k].option, steps[k].index, steps[k].honest);
    hide IsEntry, SameStagingTarget, Slots, Without, Drop, EntryName;
    if steps[k].honest && Get(states[k + 1], ORDER) != Get(states[k], ORDER) {
      SlotsWithout(states[k][ORDER], steps[k].index.value);
      NameIffIndex(name, steps[k].index.value);
    }
  }

  /** An entry with another target survives every run in which the firmware itself leaves it alone. */
  lemma {:induction false} ForeignEntrySurvives(states: seq<Vars>, steps: seq<Step>, name: string)
    requires IsEntry(name) && Run(states, steps) && Untouched(states, steps, name)
    requires ForeignToAll(steps, Get(states[0], name))
    ensures Get(states[|steps|], name) == Get(states[0], name)
    decreases |steps|
  {
    if steps != [] {
      var n := |steps| - 1;
      var s, t := states[..n + 1], steps[..n];
      assert forall k | 0 <= k <= n :: s[k] == states[k];
      ForeignEntrySurvives(s, t, name);
      NotEntries();
      hide IsEntry, SameStagingTarget;
    }
  }

  /** The slots that calls were made for. */
  function Called(steps: seq<Step>): set<nat> {
    set k | 0 <= k < |steps| && steps[k].Ours? && steps[k].index.Some? :: steps[k].index.value
  }

  /** Over a run the order loses nothing but slots that calls were made for, none of them of a foreign entry. */
  ghost predicate OnlyOurs(states: seq<Vars>, steps: seq<Step>, lost: set<nat>)
    requires |states| == |steps| + 1
  {
    && lost <= Called(steps)
    && forall i | i in lost :: i < 0x1_0000
         && (Untouched(states, steps, EntryName(i)) ==> !ForeignToAll(steps, Get(states[0], EntryName(i))))
  }

  lemma ShorterRun(states: seq<Vars>, steps: seq<Step>, lost: set<nat>)
    requires |steps| > 0 && Run(states, steps) && OnlyOurs(states[..|steps|], steps[..|steps| - 1], lost)
    ensures OnlyOurs(states, steps, lost)
  {
    var n := |steps| - 1;
    var s, t := states[..n + 1], steps[..n];
    assert forall k | 0 <= k <= n :: s[k] == states[k];
    forall i | i in lost && Untouched(states, steps, EntryName(i))
      ensures !ForeignToAll(steps, Get(states[0], EntryName(i)))
    {
      hide EntryName, StepOk, Foreign;
      assert Untouched(s, t, EntryName(i));
      var k :| 0 <= k < n && t[k].Ours? && !Foreign(Get(states[0], EntryName(i)), t[k].option);
      assert steps[k].Ours?;
    }
    assert Called(t) <= Called(steps);
  }

  lemma LostOne(states: seq<Vars>, steps: seq<Step>)
    requires |steps| > 0 && Run(states, steps) && Untouched(states, steps, ORDER)
    requires var n := |steps| - 1; steps[n].Ours? ==> steps[n].honest
    requires Get(states[|steps|], ORDER) != Get(states[|steps| - 1], ORDER)
    ensures var last := steps[|steps| - 1];
            && last.Ours? && last.index.Some? && OnlyOurs(states, steps, {last.index.value})
            && ORDER in states[|steps| - 1] && |states[|steps| - 1][ORDER]| % 2 == 0
            && Get(states[|steps|], ORDER) == Some(Without(states[|steps| - 1][ORDER], last.index.value))
  {
    hide Without, EntryName, IsEntry, SameStagingTarget;
    var n := |steps| - 1;
    assert steps[n].Ours? && StepOk(states[n], states[n + 1], steps[n].option, steps[n].index, steps[n].honest);
    var name := EntryName(steps[n].index.value);
    if Untouched(states, steps, name) && ForeignToAll(steps, Get(states[0], name)) {
      var s, t := states[..n + 1], steps[..n];
      assert forall k | 0 <= k <= n :: s[k] == states[k];
      ForeignEntrySurvives(s, t, name);
      assert false;
    }
  }

  lemma {:induction false} OrderOnlyLosesOurs(states: seq<Vars>, steps: seq<Step>) returns (lost: set<nat>)
    requires Run(states, steps) && Untouched(states, steps, ORDER)
    requires forall k | 0 <= k < |steps| :: steps[k].Ours? ==> steps[k].honest
    requires ORDER in states[0] && |states[0][ORDER]| % 2 == 0
    ensures ORDER in states[|steps|] && |states[|steps|][ORDER]| % 2 == 0
    ensures OnlyOurs(states, steps, lost)
    ensures Slots(states[|steps|][ORDER]) == Drop(Slots(states[0][ORDER]), lost)
    decreases |steps|
  {
    hide Slots, Drop, Without, StepOk, OnlyOurs;
    if steps == [] {
      DropNothing(Slots(states[0][ORDER]));
      NoneLost(states, steps);
      return {};
    }
    var n := |steps| - 1;
    var s, t := states[..n + 1], steps[..n];
    assert forall k | 0 <= k <= n :: s[k] == states[k];
    lost := OrderOnlyLosesOurs(s, t);
    ShorterRun(states, steps, lost);
    if Get(states[n + 1], ORDER) != Get(states[n], ORDER) {
      LostOne(states, steps);
      var index, before := steps[n].index.value, states[n];
      WithoutIsShorter(before[ORDER], index);
      SlotsWithout(before[ORDER], index);
      DropDrop(Slots(states[0][ORDER]), lost, {index});
      BothLost(states, steps, lost, {index});
      lost := lost + {index};
    }
  }

  lemma NoneLost(states: seq<Vars>, steps: seq<Step>)
    requires |states| == |steps| + 1
    ensures OnlyOurs(states, steps, {})
  {
  }

  lemma BothLost(states: seq<Vars>, steps: seq<Step>, a: set<nat>, b: set<nat>)
    requires |states| == |steps| + 1 && OnlyOurs(states, steps, a) && OnlyOurs(states, steps, b)
    ensures OnlyOurs(states, steps, a + b)
  {
    hide EntryName, Untouched, ForeignToAll;
  }
}
