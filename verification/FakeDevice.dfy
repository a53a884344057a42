// A fixed-size device in memory and the wrapper that injects one-shot faults into it.
module FakeDevice {
  import opened Bytes

  datatype ErrorKind = Interrupted | Other

  datatype Io<+T> = Done(value: T) | Failed(kind: ErrorKind)

  /** s with x over the elements from at on. */
  function Spliced<T>(s: seq<T>, at: nat, x: seq<T>): (r: seq<T>)
    requires at + |x| <= |s|
    ensures |r| == |s|
  {
    s[..at] + x + s[at + |x|..]
  }

  lemma SplicedTwice<T>(s: seq<T>, at: nat, x: seq<T>, y: seq<T>)
    requires at + |x| + |y| <= |s|
    ensures Spliced(Spliced(s, at, x), at + |x|, y) == Spliced(s, at, x + y)
  {
    var a, b := Spliced(Spliced(s, at, x), at + |x|, y), Spliced(s, at, x + y);
    forall k | 0 <= k < |s|
      ensures a[k] == b[k]
    {
    }
  }

  /** A copy loop that left everything else alone has spliced. */
  lemma Copied<T>(was: seq<T>, now: seq<T>, at: nat, x: seq<T>)
    requires at + |x| <= |was| == |now|
    requires forall k | 0 <= k < |x| :: now[at + k] == x[k]
    requires forall k | 0 <= k < |was| && !(at <= k < at + |x|) :: now[k] == was[k]
    ensures now == Spliced(was, at, x)
  {
    var want := Spliced(was, at, x);
    forall k | 0 <= k < |was|
      ensures now[k] == want[k]
    {
      assert at <= k < at + |x| ==> now[at + (k - at)] == x[k - at];
    }
  }

  lemma SplicedSlice<T>(s: seq<T>, at: nat, x: seq<T>, lo: nat, hi: nat)
    requires at + |x| <= |s| && lo <= hi <= |x|
    ensures Spliced(s, at, x)[at + lo..at + hi] == x[lo..hi]
  {
  }

  lemma SplicedFirst<T>(s: seq<T>, at: nat, x: seq<T>)
    requires at + |x| <= |s| && x != []
    ensures Spliced(s, at, x)[at] == x[0]
  {
  }

  lemma SplicedNothing<T>(s: seq<T>, at: nat)
    requires at <= |s|
    ensures Spliced(s, at, []) == s
  {
  }

  class MemoryBlockDevice {
    const bytes: array<bv8>
    var flushCount: nat

    constructor (bytes: array<bv8>)
      ensures this.bytes == bytes && flushCount == 0
    {
      this.bytes, flushCount := bytes, 0;
    }

    function Capacity(): nat {
      bytes.Length
    }

    /** Reads into buffer from lo on, at most up to hi. */
    method ReadAt(offset: nat, buffer: array<bv8>, lo: nat, hi: nat) returns (r: Io<nat>)
      requires lo <= hi <= buffer.Length && buffer != bytes
      modifies buffer
      ensures offset > bytes.Length ==> r == Failed(Other) && buffer[..] == old(buffer[..])
      ensures offset <= bytes.Length ==> r == Done(if hi - lo < bytes.Length - offset then hi - lo else bytes.Length - offset)
      ensures r.Done? ==> buffer[..] == Spliced(old(buffer[..]), lo, bytes[offset..offset + r.value])
    {
      hide Spliced;
      if offset > bytes.Length {
        return Failed(Other);
      }
      var count := if hi - lo < bytes.Length - offset then hi - lo else bytes.Length - offset;
      forall k | 0 <= k < count {
        buffer[lo + k] := bytes[offset + k];
      }
      r := Done(count);
      Copied(old(buffer[..]), buffer[..], lo, bytes[offset..offset + count]);
    }

    method WriteAt(offset: nat, buffer: array<bv8>, lo: nat, hi: nat) returns (r: Io<nat>)
      requires lo <= hi <= buffer.Length && buffer != bytes
      modifies bytes
      ensures offset > bytes.Length ==> r == Failed(Other) && bytes[..] == old(bytes[..])
      ensures offset <= bytes.Length ==> r == Done(if hi - lo < bytes.Length - offset then hi - lo else bytes.Length - offset)
      ensures r.Done? ==> bytes[..] == Spliced(old(bytes[..]), offset, buffer[lo..lo + r.value])
    {
      hide Spliced;
      if offset > bytes.Length {
        return Failed(Other);
      }
      var count := if hi - lo < bytes.Length - offset then hi - lo else bytes.Length - offset;
      forall k | 0 <= k < count {
        bytes[offset + k] := buffer[lo + k];
      }
      r := Done(count);
      Copied(old(bytes[..]), bytes[..], offset, buffer[lo..lo + count]);
    }

    method Flush()
      modifies `flushCount
      ensures flushCount == old(flushCount) + 1
    {
      flushCount := flushCount + 1;
    }
  }

  datatype Operation = Read | Write | Flush

  datatype Action = Error(kind: ErrorKind) | Short(limit: nat) | CorruptRead(xor: bv8)

  /** A fault for the call of this number, counted from 1 for each operation. */
  datatype Rule = Rule(operation: Operation, call: nat, action: Action, consumed: bool)

  predicate Matches(r: Rule, operation: Operation, call: nat) {
    !r.consumed && r.operation == operation && r.call == call
  }

  function Unconsumed(rules: seq<Rule>): nat {
    if rules == [] then 0 else (if rules[0].consumed then 0 else 1) + Unconsumed(rules[1..])
  }

  lemma {:induction false} ConsumeOne(rules: seq<Rule>, j: nat)
    requires j < |rules| && !rules[j].consumed
    ensures Unconsumed(rules[j := rules[j].(consumed := true)]) == Unconsumed(rules) - 1
    decreases j
  {
    var after := rules[j := rules[j].(consumed := true)];
    if j == 0 {
      assert after[1..] == rules[1..];
    } else {
      assert after[1..] == rules[1..][j - 1 := rules[j].(consumed := true)];
      ConsumeOne(rules[1..], j - 1);
    }
  }

  /** A fault that a writer can live through. */
  predicate Harmless(r: Rule) {
    match r.action
    case Error(kind) => kind.Interrupted? && !r.operation.Flush?
    case Short(limit) => limit > 0 && !r.operation.Flush?
    case CorruptRead(xor) => xor == 0 && r.operation.Read?
  }

  predicate AllHarmless(rules: seq<Rule>) {
    forall i | 0 <= i < |rules| :: Harmless(rules[i])
  }

  predicate NonePending(rules: seq<Rule>, operation: Operation, call: nat) {
    forall i | 0 <= i < |rules| :: rules[i].consumed || rules[i].operation != operation || rules[i].call != call
  }

  /** The first pending fault for the call, with this action, was consumed and nothing else changed. */
  ghost predicate Took(before: seq<Rule>, after: seq<Rule>, operation: Operation, call: nat, action: Action) {
    exists j | 0 <= j < |before| ::
      && !before[j].consumed && before[j].operation == operation && before[j].call == call && before[j].action == action
      && NonePending(before[..j], operation, call)
      && after == before[j := before[j].(consumed := true)]
  }

  class FaultInjectingDevice {
    const inner: MemoryBlockDevice
    var rules: seq<Rule>
    var readCalls: nat
    var writeCalls: nat
    var flushCalls: nat
    /** The operations called so far. */
    ghost var history: seq<Operation>
    /** How often a read returned a byte that the device does not hold. */
    ghost var corrupted: nat

    constructor (inner: MemoryBlockDevice, rules: seq<Rule>)
      ensures this.inner == inner && this.rules == rules && history == [] && corrupted == 0
    {
      this.inner, this.rules := inner, rules;
      readCalls, writeCalls, flushCalls, history, corrupted := 0, 0, 0, [], 0;
    }

    /** Marks the first pending fault for the call as consumed. */
    method TakeAction(operation: Operation, call: nat) returns (r: Option<Action>)
      modifies `rules
      ensures r.None? ==> rules == old(rules) && NonePending(rules, operation, call)
      ensures r.Some? ==> Took(old(rules), rules, operation, call, r.value)
      ensures r.Some? ==> Unconsumed(rules) < old(Unconsumed(rules))
      ensures old(AllHarmless(rules)) ==> AllHarmless(rules)
      ensures old(AllHarmless(rules)) && r.Some? ==> Harmless(Rule(operation, call, r.value, false))
    {
      var i := 0;
      while i < |rules|
        invariant i <= |rules| && rules == old(rules)
        invariant NonePending(rules[..i], operation, call)
      {
        assert rules[..i + 1] == rules[..i] + [rules[i]];
        if Matches(rules[i], operation, call) {
          ConsumeOne(rules, i);
          assert AllHarmless(rules) ==> Harmless(rules[i]);
          rules := rules[i := rules[i].(consumed := true)];
          return Some(rules[i].action);
        }
        i := i + 1;
      }
      assert rules[..i] == rules;
      return None;
    }

    /** What the device holds where a read came off. */
    ghost function Held(offset: nat, r: Io<nat>): (x: seq<bv8>)
      requires r.Done? ==> offset + r.value <= inner.Capacity()
      reads inner.bytes
      ensures r.Done? ==> x == inner.bytes[offset..offset + r.value]
    {
      if r.Done? then inner.bytes[offset..offset + r.value] else []
    }

    /** Replaces the first of the bytes just read. */
    method ReplaceFirst(buffer: array<bv8>, lo: nat, v: bv8, ghost before: seq<bv8>, ghost held: seq<bv8>)
      returns (ghost got: seq<bv8>)
      requires 0 < |held| && lo + |held| <= |before| && buffer[..] == Spliced(before, lo, held)
      modifies `corrupted, buffer
      ensures |got| == |held| && buffer[..] == Spliced(before, lo, got)
      ensures got == held <==> v == held[0]
      ensures corrupted == old(corrupted) + if v == held[0] then 0 else 1
    {
      got := held[0 := v];
      hide Spliced;
      assert got[0] == v;
      assert v == held[0] ==> got == held;
      buffer[lo] := v;
      assert buffer[..] == old(buffer[..])[lo := v];
      if v != held[0] {
        corrupted := corrupted + 1;
      }
    }

    /** A read whose first byte is altered. */
    method CorruptedRead(offset: nat, buffer: array<bv8>, lo: nat, hi: nat, xor: bv8) returns (r: Io<nat>, ghost got: seq<bv8>)
      requires lo <= hi <= buffer.Length && buffer != inner.bytes
      modifies `corrupted, buffer
      ensures r.Failed? ==> offset > inner.Capacity() && buffer[..] == old(buffer[..]) && corrupted == old(corrupted)
      ensures r.Done? ==> offset + r.value <= inner.Capacity() && |got| == r.value
      ensures r.Done? ==> r.value == if hi - lo < inner.Capacity() - offset then hi - lo else inner.Capacity() - offset
      ensures r.Done? ==> buffer[..] == Spliced(old(buffer[..]), lo, got)
      ensures r.Done? ==> (corrupted == old(corrupted) <==> got == inner.bytes[offset..offset + r.value])
      ensures corrupted >= old(corrupted) && (xor == 0 ==> corrupted == old(corrupted))
    {
      hide Spliced;
      r := inner.ReadAt(offset, buffer, lo, hi);
      got := Held(offset, r);
      if r.Done? && r.value > 0 {
        SplicedFirst(old(buffer[..]), lo, got);
        assert buffer[lo] == buffer[..][lo];
        got := ReplaceFirst(buffer, lo, buffer[lo] ^ xor, old(buffer[..]), got);
      }
    }

    /** A read returns what the device holds unless a fault corrupts it. */
    method ReadAt(offset: nat, buffer: array<bv8>, lo: nat, hi: nat) returns (r: Io<nat>, ghost got: seq<bv8>)
      requires lo <= hi <= buffer.Length && buffer != inner.bytes
      modifies this, buffer
      ensures history == old(history) + [Read]
      ensures r.Done? ==> r.value <= hi - lo && offset + r.value <= inner.Capacity() && |got| == r.value
      ensures r.Done? ==> buffer[..] == Spliced(old(buffer[..]), lo, got)
      ensures r.Done? ==> (corrupted == old(corrupted) <==> got == inner.bytes[offset..offset + r.value])
      ensures corrupted >= old(corrupted)
      ensures r.Failed? ==> buffer[..] == old(buffer[..]) && corrupted == old(corrupted)
      ensures lo < hi && offset < inner.Capacity() && (r.Failed? || r.value == 0) ==> Unconsumed(rules) < old(Unconsumed(rules))
      ensures Unconsumed(rules) <= old(Unconsumed(rules))
      ensures old(AllHarmless(rules)) ==> AllHarmless(rules) && corrupted == old(corrupted)
      ensures old(AllHarmless(rules)) && lo < hi && offset < inner.Capacity() ==>
                r == Failed(Interrupted) || (r.Done? && r.value > 0)
    {
      hide Unconsumed, AllHarmless, Took, NonePending, Spliced;
      readCalls := readCalls + 1;
      history := history + [Read];
      got := [];
      var action := TakeAction(Read, readCalls);
      match action {
        case Some(Error(kind)) =>
          r := Failed(kind);
        case Some(Short(limit)) =>
          r := inner.ReadAt(offset, buffer, lo, if limit < hi - lo then lo + limit else hi);
          got := Held(offset, r);
        case Some(CorruptRead(xor)) =>
          r, got := CorruptedRead(offset, buffer, lo, hi, xor);
        case None =>
          r := inner.ReadAt(offset, buffer, lo, hi);
          got := Held(offset, r);
      }
    }

    method WriteAt(offset: nat, buffer: array<bv8>, lo: nat, hi: nat) returns (r: Io<nat>)
      requires lo <= hi <= buffer.Length && buffer != inner.bytes
      modifies this, inner.bytes
      ensures history == old(history) + [Write] && corrupted == old(corrupted)
      ensures r.Done? ==> r.value <= hi - lo && offset + r.value <= inner.Capacity()
      ensures r.Done? ==> inner.bytes[..] == Spliced(old(inner.bytes[..]), offset, buffer[lo..lo + r.value])
      ensures r.Failed? ==> inner.bytes[..] == old(inner.bytes[..])
      ensures lo < hi && offset < inner.Capacity() && (r.Failed? || r.value == 0) ==> Unconsumed(rules) < old(Unconsumed(rules))
      ensures Unconsumed(rules) <= old(Unconsumed(rules))
      ensures old(AllHarmless(rules)) ==> AllHarmless(rules)
      ensures old(AllHarmless(rules)) && lo < hi && offset < inner.Capacity() ==>
                r == Failed(Interrupted) || (r.Done? && r.value > 0)
    {
      hide Unconsumed, AllHarmless, Took, NonePending, Spliced;
      writeCalls := writeCalls + 1;
      history := history + [Write];
      var action := TakeAction(Write, writeCalls);
      match action {
        case Some(Error(kind)) =>
          r := Failed(kind);
        case Some(Short(limit)) =>
          r := inner.WriteAt(offset, buffer, lo, if limit < hi - lo then lo + limit else hi);
        case Some(CorruptRead(_)) =>
          r := Failed(Other);
        case None =>
          r := inner.WriteAt(offset, buffer, lo, hi);
      }
    }

    method Flush() returns (ok: bool)
      modifies this, inner`flushCount
      ensures history == old(history) + [Operation.Flush] && corrupted == old(corrupted)
      ensures inner.flushCount == old(inner.flushCount) + if ok then 1 else 0
      ensures old(AllHarmless(rules)) ==> AllHarmless(rules) && ok
    {
      flushCalls := flushCalls + 1;
      history := history + [Operation.Flush];
      var action := TakeAction(Operation.Flush, flushCalls);
      if action.Some? {
        return false;
      }
      inner.Flush();
      return true;
    }
  }

}
