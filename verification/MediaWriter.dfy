// The streaming writer: it writes an image to its exact range, flushes, and compares every byte read back.
module MediaWriter {
  import opened Bytes
  import opened FakeDevice

  const MAX_CHUNK_SIZE := 16 * 1024 * 1024
  const U64_LIMIT := 0x1_0000_0000_0000_0000

  datatype WritePlan = WritePlan(offset: nat, length: nat, chunk: nat)

  predicate ValidPlan(p: WritePlan) {
    0 < p.length && 0 < p.chunk <= MAX_CHUNK_SIZE && p.offset + p.length < U64_LIMIT
  }

  /** Makes exactly the plans that writing relies on. */
  function NewPlan(offset: nat, length: nat, chunk: nat): (r: Result<WritePlan>)
    ensures r.Ok? <==> ValidPlan(WritePlan(offset, length, chunk))
    ensures r.Ok? <==> 0 < length && 0 < chunk <= 16777216 && offset + length <= 0xffff_ffff_ffff_ffff
    ensures r.Ok? ==> r.value == WritePlan(offset, length, chunk)
  {
    if length == 0 then Err("empty image")
    else if chunk == 0 || chunk > MAX_CHUNK_SIZE then Err("chunk size")
    else if offset + length >= U64_LIMIT then Err("overflow")
    else Ok(WritePlan(offset, length, chunk))
  }

  datatype Stage = Writing | Flushing | Verifying

  datatype WriteError =
    | TargetTooSmall
    | SourceLength
    | SourceIo
    | DeviceIo(operation: Operation, offset: nat)
    | Cancelled(stage: Stage, completed: nat)
    | VerificationMismatch(offset: nat)

  datatype Outcome = Written(written: nat, verified: nat) | NotWritten(error: WriteError)

  /** A cancellation that becomes visible after so many polls, or never. */
  class CancellationToken {
    var polls: Option<nat>

    constructor (polls: Option<nat>)
      ensures this.polls == polls
    {
      this.polls := polls;
    }

    method IsCancelled() returns (c: bool)
      modifies this
      ensures old(polls) == None ==> !c && polls == None
    {
      c := polls == Some(0);
      if polls.Some? && polls.value > 0 {
        polls := Some(polls.value - 1);
      }
    }
  }

  /** How one read of the source comes off. */
  datatype Hiccup = Interrupts | Breaks | AtMost(limit: nat)

  predicate Survivable(script: seq<Hiccup>) {
    forall i | 0 <= i < |script| :: script[i].Interrupts? || (script[i].AtMost? && script[i].limit > 0)
  }

  lemma NextSurvivable(script: seq<Hiccup>)
    ensures script != [] && Survivable(script) ==>
              Survivable(script[1..]) && !script[0].Breaks? && (script[0].AtMost? ==> script[0].limit > 0)
  {
  }

  /** A seekable source whose reads may be short or fail. */
  class Source {
    const data: seq<bv8>
    var position: nat
    var script: seq<Hiccup>

    constructor (data: seq<bv8>, position: nat, script: seq<Hiccup>)
      ensures this.data == data && this.position == position && this.script == script
    {
      this.data, this.position, this.script := data, position, script;
    }

    method Read(buffer: array<bv8>, lo: nat, hi: nat) returns (r: Io<nat>)
      requires lo <= hi <= buffer.Length
      modifies this, buffer
      ensures r.Failed? ==> buffer[..] == old(buffer[..]) && position == old(position)
      ensures r.Done? ==> r.value <= hi - lo && position == old(position) + r.value
      ensures r.Done? && r.value > 0 ==> position <= |data|
      ensures r.Done? && r.value > 0 ==> buffer[..] == Spliced(old(buffer[..]), lo, data[old(position)..position])
      ensures |script| <= |old(script)|
      ensures r == Failed(Interrupted) ==> |script| < |old(script)|
      ensures old(Survivable(script)) ==> Survivable(script)
      ensures old(Survivable(script)) && lo < hi && old(position) < |data| ==>
                r == Failed(Interrupted) || (r.Done? && r.value > 0)
    {
      hide Survivable, Spliced;
      ghost var was, start := buffer[..], position;
      var hiccup := if script == [] then AtMost(hi - lo) else script[0];
      NextSurvivable(script);
      script := if script == [] then [] else script[1..];
      if hiccup.Interrupts? {
        return Failed(Interrupted);
      }
      if hiccup.Breaks? {
        return Failed(Other);
      }
      var left := if position < |data| then |data| - position else 0;
      var room := if hi - lo < left then hi - lo else left;
      var count := if hiccup.limit < room then hiccup.limit else room;
      forall k | 0 <= k < count {
        buffer[lo + k] := data[position + k];
      }
      position := position + count;
      if count > 0 {
        Copied(was, buffer[..], lo, data[start..position]);
      }
      return Done(count);
    }

    method Seek(position: nat)
      modifies `position
      ensures this.position == position
    {
      this.position := position;
    }
  }

  lemma SliceAppend<T>(s: seq<T>, a: nat, b: nat, c: nat)
    requires a <= b <= c <= |s|
    ensures s[a..b] + s[b..c] == s[a..c]
  {
  }

  method ReadSourceExact(source: Source, buffer: array<bv8>, hi: nat) returns (ok: bool)
    requires hi <= buffer.Length && source.position <= |source.data|
    modifies source, buffer
    ensures source.position <= |source.data|
    ensures ok ==> source.position == old(source.position) + hi
    ensures ok ==> buffer[..hi] == source.data[old(source.position)..source.position]
    ensures old(Survivable(source.script)) ==> Survivable(source.script)
    ensures old(Survivable(source.script)) && old(source.position) + hi <= |source.data| ==> ok
  {
    hide Survivable, Spliced;
    ghost var start, before := source.position, buffer[..];
    var at := 0;
    SplicedNothing(before, 0);
    assert source.data[start..start] == [];
    while at < hi
      invariant 0 <= at <= hi && source.position == start + at <= |source.data|
      invariant buffer[..] == Spliced(before, 0, source.data[start..start + at])
      invariant old(Survivable(source.script)) ==> Survivable(source.script)
      decreases hi - at + |source.script|
    {
      var r := source.Read(buffer, at, hi);
      if r.Done? {
        if r.value == 0 {
          return false;
        }
        SplicedTwice(before, 0, source.data[start..start + at], source.data[start + at..source.position]);
        SliceAppend(source.data, start, start + at, source.position);
        at := at + r.value;
      } else if r.kind.Other? {
        return false;
      }
    }
    SplicedSlice(before, 0, source.data[start..start + hi], 0, hi);
    assert buffer[..][0..hi] == buffer[..hi];
    assert source.data[start..start + hi][0..hi] == source.data[start..start + hi];
    return true;
  }

  method WriteDeviceExact(target: FaultInjectingDevice, offset: nat, buffer: array<bv8>, hi: nat)
    returns (e: Option<WriteError>, ghost done: nat, ghost calls: seq<Operation>)
    requires hi <= buffer.Length && buffer != target.inner.bytes && offset + hi <= target.inner.Capacity()
    modifies target, target.inner.bytes
    ensures done <= hi && (e.None? ==> done == hi)
    ensures target.inner.bytes[..] == Spliced(old(target.inner.bytes[..]), offset, buffer[..done])
    ensures target.history == old(target.history) + calls && AllOf(calls, Write) && target.corrupted == old(target.corrupted)
    ensures old(AllHarmless(target.rules)) ==> AllHarmless(target.rules) && e.None?
  {
    hide AllHarmless, Spliced, Unconsumed;
    ghost var before, history := target.inner.bytes[..], target.history;
    ghost var image := buffer[..];
    done, calls := 0, [];
    var at := 0;
    SplicedNothing(before, offset);
    assert buffer[..0] == [];
    while at < hi
      invariant at == done <= hi && buffer[..] == image && target.inner.bytes[..] == Spliced(before, offset, image[..at])
      invariant target.history == history + calls && AllOf(calls, Write) && target.corrupted == old(target.corrupted)
      invariant old(AllHarmless(target.rules)) ==> AllHarmless(target.rules)
      decreases hi - at + Unconsumed(target.rules)
    {
      var r := target.WriteAt(offset + at, buffer, at, hi);
      OneMore(history, calls, Write);
      calls := calls + [Write];
      if r.Done? {
        assert buffer[at..at + r.value] == image[at..at + r.value];
        SplicedTwice(before, offset, image[..at], image[at..at + r.value]);
        SliceAppend(image, 0, at, at + r.value);
        done := at + r.value;
        if r.value == 0 {
          return Some(DeviceIo(Write, offset + at)), done, calls;
        }
        at := at + r.value;
      } else if r.kind.Other? {
        return Some(DeviceIo(Write, offset + at)), done, calls;
      }
    }
    e := None;
  }

  method ReadDeviceExact(target: FaultInjectingDevice, offset: nat, buffer: array<bv8>, hi: nat)
    returns (e: Option<WriteError>, ghost calls: seq<Operation>)
    requires hi <= buffer.Length && buffer != target.inner.bytes && offset + hi <= target.inner.Capacity()
    modifies target, buffer
    ensures target.history == old(target.history) + calls && AllOf(calls, Read) && target.corrupted >= old(target.corrupted)
    ensures e.None? ==> (target.corrupted == old(target.corrupted) <==> buffer[..hi] == target.inner.bytes[offset..offset + hi])
    ensures old(AllHarmless(target.rules)) ==> AllHarmless(target.rules) && e.None? && target.corrupted == old(target.corrupted)
  {
    hide AllHarmless, Spliced, Unconsumed, AllOf, IsHeld;
    ghost var before, history, device := buffer[..], target.history, target.inner.bytes[..];
    calls := [];
    var at := 0;
    ghost var read: seq<bv8> := [];
    SplicedNothing(before, 0);
    NothingRead(device, offset);
    NoCalls(Read);
    while at < hi
      invariant at == |read| <= hi && target.inner.bytes[..] == device && buffer[..] == Spliced(before, 0, read)
      invariant target.history == history + calls && AllOf(calls, Read) && target.corrupted >= old(target.corrupted)
      invariant target.corrupted == old(target.corrupted) <==> IsHeld(device, offset, read)
      invariant old(AllHarmless(target.rules)) ==> AllHarmless(target.rules) && target.corrupted == old(target.corrupted)
      decreases hi - at + Unconsumed(target.rules)
    {
      ghost var held := target.corrupted;
      var r, got := target.ReadAt(offset + at, buffer, at, hi);
      OneMore(history, calls, Read);
      calls := calls + [Read];
      if r.Done? {
        if r.value == 0 {
          return Some(DeviceIo(Read, offset + at)), calls;
        }
        SplicedTwice(before, 0, read, got);
        assert target.inner.bytes[offset + at..offset + at + r.value] == device[offset + at..offset + at + r.value];
        ReadStep(device, offset, read, got, old(target.corrupted), held, target.corrupted);
        read := read + got;
        at := at + r.value;
      } else if r.kind.Other? {
        return Some(DeviceIo(Read, offset + at)), calls;
      }
    }
    SplicedSlice(before, 0, read, 0, hi);
    assert buffer[..][0..hi] == buffer[..hi] && read[0..hi] == read;
    assert target.inner.bytes[offset..offset + hi] == device[offset..offset + hi];
    AllRead(device, offset, read);
    e := None;
  }

  /** These are the bytes of the device from offset on. */
  ghost predicate IsHeld<T>(device: seq<T>, offset: nat, read: seq<T>) {
    offset + |read| <= |device| && read == device[offset..offset + |read|]
  }

  lemma NothingRead<T>(device: seq<T>, offset: nat)
    requires offset <= |device|
    ensures IsHeld(device, offset, [])
  {
  }

  lemma AllRead<T>(device: seq<T>, offset: nat, read: seq<T>)
    requires offset + |read| <= |device|
    ensures IsHeld(device, offset, read) <==> read == device[offset..offset + |read|]
  {
  }

  lemma OneMore(history: seq<Operation>, calls: seq<Operation>, o: Operation)
    ensures history + calls + [o] == history + (calls + [o])
    ensures AllOf(calls, o) ==> AllOf(calls + [o], o)
  {
  }

  /** What was read so far is what the device holds exactly while nothing was corrupted. */
  lemma ReadStep<T>(device: seq<T>, offset: nat, read: seq<T>, got: seq<T>, first: nat, before: nat, after: nat)
    requires offset + |read| + |got| <= |device| && first <= before <= after
    requires before == first <==> IsHeld(device, offset, read)
    requires after == before <==> got == device[offset + |read|..offset + |read| + |got|]
    ensures after == first <==> IsHeld(device, offset, read + got)
  {
    SliceAppend(device, offset, offset + |read|, offset + |read| + |got|);
    AppendEqual(read, got, device[offset..offset + |read|], device[offset + |read|..offset + |read| + |got|]);
  }

  lemma AppendEqual<T>(a: seq<T>, b: seq<T>, c: seq<T>, d: seq<T>)
    requires |a| == |c| && |b| == |d|
    ensures a + b == c + d <==> a == c && b == d
  {
    if a + b == c + d {
      assert a == (a + b)[..|a|] && b == (a + b)[|a|..];
      assert c == (c + d)[..|c|] && d == (c + d)[|c|..];
    }
  }

  ghost predicate AllOf(calls: seq<Operation>, o: Operation) {
    forall i | 0 <= i < |calls| :: calls[i] == o
  }

  lemma AllOfAppend(a: seq<Operation>, b: seq<Operation>, o: Operation)
    requires AllOf(a, o) && AllOf(b, o)
    ensures AllOf(a + b, o)
  {
  }

  function NextChunk(remaining: nat, chunk: nat): nat {
    if remaining < chunk then remaining else chunk
  }

  /** No fault, hiccup or cancellation ahead that the writer could not live through. */
  predicate Friendly(rules: seq<Rule>, script: seq<Hiccup>, polls: Option<nat>) {
    AllHarmless(rules) && Survivable(script) && polls.None?
  }

  /** One chunk of the write loop. */
  method WriteChunk(source: Source, target: FaultInjectingDevice, offset: nat, buffer: array<bv8>, written: nat, wanted: nat,
                    token: CancellationToken)
    returns (e: Option<WriteError>, ghost put: nat, ghost calls: seq<Operation>)
    requires wanted <= buffer.Length && buffer != target.inner.bytes && offset + written + wanted <= target.inner.Capacity()
    requires source.position + wanted <= |source.data|
    modifies source, target, target.inner.bytes, token, buffer
    ensures source.position <= |source.data| && put <= wanted
    ensures e.None? ==> put == wanted && source.position == old(source.position) + wanted
    ensures target.inner.bytes[..] == Spliced(old(target.inner.bytes[..]), offset + written,
                                              source.data[old(source.position)..old(source.position) + put])
    ensures target.history == old(target.history) + calls && AllOf(calls, Write) && target.corrupted == old(target.corrupted)
    ensures old(Friendly(target.rules, source.script, token.polls)) ==> Friendly(target.rules, source.script, token.polls) && e.None?
  {
    hide AllHarmless, Survivable, Spliced, AllOf;
    ghost var start, before := source.position, target.inner.bytes[..];
    put, calls := 0, [];
    NoCalls(Write);
    SplicedNothing(before, offset + written);
    assert source.data[start..start] == [] && target.history + [] == target.history;
    var cancelled := token.IsCancelled();
    if cancelled {
      return Some(Cancelled(Writing, written)), put, calls;
    }
    var ok := ReadSourceExact(source, buffer, wanted);
    if !ok {
      return Some(SourceIo), put, calls;
    }
    e, put, calls := WriteDeviceExact(target, offset + written, buffer, wanted);
    SliceOfSlice(source.data, start, start + wanted, 0, put);
    assert buffer[..wanted][0..put] == buffer[..put];
  }

  lemma NoCalls(o: Operation)
    ensures AllOf([], o)
  {
  }

  /** The write loop: chunk after chunk from the source into the range. */
  method WriteImage(source: Source, target: FaultInjectingDevice, plan: WritePlan, token: CancellationToken)
    returns (e: Option<WriteError>, ghost done: nat, ghost calls: seq<Operation>)
    requires ValidPlan(plan) && plan.offset + plan.length <= target.inner.Capacity()
    requires source.position + plan.length == |source.data|
    modifies source, target, target.inner.bytes, token
    ensures source.position <= |source.data|
    ensures done <= plan.length && (e.None? ==> done == plan.length)
    ensures target.inner.bytes[..] == Spliced(old(target.inner.bytes[..]), plan.offset,
                                              source.data[old(source.position)..old(source.position) + done])
    ensures target.history == old(target.history) + calls && AllOf(calls, Write) && target.corrupted == old(target.corrupted)
    ensures old(Friendly(target.rules, source.script, token.polls)) ==> Friendly(target.rules, source.script, token.polls) && e.None?
  {
    hide Friendly, Spliced, AllOf;
    ghost var start, before, history := source.position, target.inner.bytes[..], target.history;
    var buffer := new bv8[plan.chunk](_ => 0);
    var written := 0;
    done, calls := 0, [];
    SplicedNothing(before, plan.offset);
    NoCalls(Write);
    assert source.data[start..start] == [];
    while written < plan.length
      invariant 0 <= written == done <= plan.length && source.position == start + written
      invariant target.inner.bytes[..] == Spliced(before, plan.offset, source.data[start..start + written])
      invariant target.history == history + calls && AllOf(calls, Write) && target.corrupted == old(target.corrupted)
      invariant old(Friendly(target.rules, source.script, token.polls)) ==> Friendly(target.rules, source.script, token.polls)
    {
      var wanted := NextChunk(plan.length - written, buffer.Length);
      ghost var put, more;
      e, put, more := WriteChunk(source, target, plan.offset, buffer, written, wanted, token);
      SplicedTwice(before, plan.offset, source.data[start..start + written], source.data[start + written..start + written + put]);
      SliceAppend(source.data, start, start + written, start + written + put);
      AllOfAppend(calls, more, Write);
      assert history + calls + more == history + (calls + more);
      done, calls := written + put, calls + more;
      if e.Some? {
        return;
      }
      written := written + wanted;
    }
    e := None;
  }

  /** The first place at which the chunks differ. */
  method FirstDifference(a: array<bv8>, b: array<bv8>, hi: nat) returns (r: Option<nat>)
    requires hi <= a.Length && hi <= b.Length
    ensures r.None? <==> a[..hi] == b[..hi]
    ensures r.Some? ==> r.value < hi && a[r.value] != b[r.value] && a[..r.value] == b[..r.value]
  {
    var i := 0;
    while i < hi
      invariant 0 <= i <= hi && a[..i] == b[..i]
    {
      if a[i] != b[i] {
        assert a[..hi][i] != b[..hi][i];
        return Some(i);
      }
      i := i + 1;
    }
    return None;
  }

  /** One chunk of the comparison; the device holds the image, so it is accepted exactly when nothing is corrupted. */
  method VerifyChunk(source: Source, target: FaultInjectingDevice, offset: nat, expected: array<bv8>, actual: array<bv8>,
                     verified: nat, wanted: nat, token: CancellationToken)
    returns (e: Option<WriteError>, ghost calls: seq<Operation>)
    requires wanted <= expected.Length && wanted <= actual.Length && expected != actual
    requires expected != target.inner.bytes && actual != target.inner.bytes
    requires offset + verified + wanted <= target.inner.Capacity() && source.position + wanted <= |source.data|
    requires target.inner.bytes[offset + verified..offset + verified + wanted]
          == source.data[source.position..source.position + wanted]
    modifies source, target, token, expected, actual
    ensures source.position <= |source.data|
    ensures e.None? ==> source.position == old(source.position) + wanted && target.corrupted == old(target.corrupted)
    ensures target.history == old(target.history) + calls && AllOf(calls, Read) && target.corrupted >= old(target.corrupted)
    ensures old(Friendly(target.rules, source.script, token.polls)) ==> Friendly(target.rules, source.script, token.polls) && e.None?
  {
    hide AllHarmless, Survivable, AllOf;
    calls := [];
    NoCalls(Read);
    assert target.history + [] == target.history;
    var cancelled := token.IsCancelled();
    if cancelled {
      return Some(Cancelled(Verifying, verified)), calls;
    }
    var ok := ReadSourceExact(source, expected, wanted);
    if !ok {
      return Some(SourceIo), calls;
    }
    ghost var image, held := expected[..wanted], target.inner.bytes[..];
    e, calls := ReadDeviceExact(target, offset + verified, actual, wanted);
    if e.None? {
      var difference := FirstDifference(expected, actual, wanted);
      assert expected[..wanted] == image == target.inner.bytes[offset + verified..offset + verified + wanted];
      if difference.Some? {
        e := Some(VerificationMismatch(verified + difference.value));
      }
    }
  }

  /** The readback loop over a device that holds the image. */
  method VerifyImage(source: Source, target: FaultInjectingDevice, plan: WritePlan, token: CancellationToken)
    returns (e: Option<WriteError>, ghost calls: seq<Operation>)
    requires ValidPlan(plan) && plan.offset + plan.length <= target.inner.Capacity()
    requires source.position + plan.length == |source.data|
    requires target.inner.bytes[plan.offset..plan.offset + plan.length] == source.data[source.position..]
    modifies source, target, token
    ensures e.None? ==> target.corrupted == old(target.corrupted)
    ensures target.history == old(target.history) + calls && AllOf(calls, Read) && target.corrupted >= old(target.corrupted)
    ensures old(Friendly(target.rules, source.script, token.polls)) ==> e.None?
  {
    hide Friendly, AllOf;
    ghost var start, held, history := source.position, target.inner.bytes[..], target.history;
    var expected := new bv8[plan.chunk](_ => 0);
    var actual := new bv8[plan.chunk](_ => 0);
    var verified := 0;
    calls := [];
    NoCalls(Read);
    assert held[plan.offset..plan.offset + plan.length] == target.inner.bytes[plan.offset..plan.offset + plan.length];
    while verified < plan.length
      invariant 0 <= verified <= plan.length && source.position == start + verified && target.inner.bytes[..] == held
      invariant target.history == history + calls && AllOf(calls, Read) && target.corrupted == old(target.corrupted)
      invariant old(Friendly(target.rules, source.script, token.polls)) ==> Friendly(target.rules, source.script, token.polls)
    {
      var wanted := NextChunk(plan.length - verified, expected.Length);
      SliceOfSlice(held, plan.offset, plan.offset + plan.length, verified, verified + wanted);
      SliceOfSlice(source.data, start, |source.data|, verified, verified + wanted);
      assert source.data[start..|source.data|] == source.data[start..];
      assert target.inner.bytes[plan.offset + verified..plan.offset + verified + wanted]
          == held[plan.offset + verified..plan.offset + verified + wanted];
      ghost var more;
      e, more := VerifyChunk(source, target, plan.offset, expected, actual, verified, wanted, token);
      AllOfAppend(calls, more, Read);
      assert history + calls + more == history + (calls + more);
      calls := calls + more;
      if e.Some? {
        return;
      }
      verified := verified + wanted;
    }
    e := None;
  }

  /** Only the bytes of the range may differ. */
  predicate OutsideKept(before: seq<bv8>, after: seq<bv8>, offset: nat, length: nat) {
    |after| == |before| &&
    if offset + length <= |before|
    then after[..offset] == before[..offset] && after[offset + length..] == before[offset + length..]
    else after == before
  }

  lemma SplicedOutside(before: seq<bv8>, offset: nat, length: nat, x: seq<bv8>)
    requires |x| <= length && offset + length <= |before|
    ensures OutsideKept(before, Spliced(before, offset, x), offset, length)
  {
    var after := Spliced(before, offset, x);
    assert after[..offset] == before[..offset];
    assert after[offset + length..] == before[offset + length..];
  }

  /** The calls of a successful write: all writes, one flush, then all readbacks. */
  ghost predicate FlushedBetween(calls: seq<Operation>) {
    exists w, r :: AllOf(w, Write) && AllOf(r, Read) && calls == w + [Operation.Flush] + r
  }

  /** What could keep a write from succeeding. */
  predicate Accepted(plan: WritePlan, capacity: nat, data: nat, position: nat) {
    plan.offset + plan.length <= capacity && position + plan.length == data
  }

  method WriteAndVerify(source: Source, target: FaultInjectingDevice, plan: WritePlan, token: CancellationToken)
    returns (r: Outcome, ghost calls: seq<Operation>)
    requires ValidPlan(plan)
    modifies source, target, target.inner, target.inner.bytes, token
    ensures OutsideKept(old(target.inner.bytes[..]), target.inner.bytes[..], plan.offset, plan.length)
    ensures target.history == old(target.history) + calls
    ensures r.Written? ==> r == Written(plan.length, plan.length)
    ensures r.Written? ==> Accepted(plan, target.inner.Capacity(), |source.data|, old(source.position))
    ensures r.Written? ==> target.inner.bytes[..] == Spliced(old(target.inner.bytes[..]), plan.offset, source.data[old(source.position)..])
    ensures r.Written? ==> target.corrupted == old(target.corrupted) && FlushedBetween(calls)
                           && target.inner.flushCount == old(target.inner.flushCount) + 1
    ensures !Accepted(plan, target.inner.Capacity(), |source.data|, old(source.position)) ==>
              r.NotWritten? && calls == [] && target.inner.bytes[..] == old(target.inner.bytes[..])
    ensures old(Friendly(target.rules, source.script, token.polls)) ==>
              (r.Written? <==> Accepted(plan, target.inner.Capacity(), |source.data|, old(source.position)))
  {
    hide AllHarmless, Survivable, AllOf, Spliced;
    ghost var before, history, start := target.inner.bytes[..], target.history, source.position;
    calls := [];
    if plan.offset + plan.length > target.inner.Capacity() {
      return NotWritten(TargetTooSmall), calls;
    }
    SplicedOutside(before, plan.offset, plan.length, []);
    SplicedNothing(before, plan.offset);
    if source.position + plan.length != |source.data| {
      return NotWritten(WriteError.SourceLength), calls;
    }
    var sourceStart := source.position;
    var cancelled := token.IsCancelled();
    if cancelled {
      return NotWritten(Cancelled(Writing, 0)), calls;
    }
    var e;
    ghost var done;
    e, done, calls := WriteImage(source, target, plan, token);
    SplicedOutside(before, plan.offset, plan.length, source.data[start..start + done]);
    if e.Some? {
      return NotWritten(e.value), calls;
    }
    assert source.data[start..start + done] == source.data[start..];
    r, calls := FlushAndVerify(source, target, plan, token, sourceStart, before, history, calls);
  }

  method FlushAndVerify(source: Source, target: FaultInjectingDevice, plan: WritePlan, token: CancellationToken, sourceStart: nat,
                        ghost before: seq<bv8>, ghost history: seq<Operation>, ghost writes: seq<Operation>)
    returns (r: Outcome, ghost calls: seq<Operation>)
    requires ValidPlan(plan) && Accepted(plan, target.inner.Capacity(), |source.data|, sourceStart)
    requires |before| == target.inner.Capacity()
    requires target.inner.bytes[..] == Spliced(before, plan.offset, source.data[sourceStart..])
    requires target.history == history + writes && AllOf(writes, Write)
    modifies source, target, target.inner`flushCount, token
    ensures target.history == history + calls
    ensures r.Written? ==> r == Written(plan.length, plan.length) && FlushedBetween(calls)
    ensures r.Written? ==> target.corrupted == old(target.corrupted)
                           && target.inner.flushCount == old(target.inner.flushCount) + 1
    ensures old(Friendly(target.rules, source.script, token.polls)) ==> r.Written?
  {
    hide AllHarmless, Survivable, AllOf, Spliced;
    calls := writes;
    var cancelled := token.IsCancelled();
    if cancelled {
      return NotWritten(Cancelled(Flushing, plan.length)), calls;
    }
    var flushed := target.Flush();
    assert history + writes + [Operation.Flush] == history + (writes + [Operation.Flush]);
    calls := calls + [Operation.Flush];
    if !flushed {
      return NotWritten(DeviceIo(Operation.Flush, plan.offset + plan.length)), calls;
    }
    source.Seek(sourceStart);
    ghost var image := source.data[sourceStart..];
    SplicedSlice(before, plan.offset, image, 0, |image|);
    assert image[0..|image|] == image;
    assert target.inner.bytes[plan.offset..plan.offset + plan.length]
        == target.inner.bytes[..][plan.offset..plan.offset + plan.length];
    ghost var readback;
    var e;
    e, readback := VerifyImage(source, target, plan, token);
    assert history + calls + readback == history + (calls + readback);
    calls := calls + readback;
    if e.Some? {
      return NotWritten(e.value), calls;
    }
    return Written(plan.length, plan.length), calls;
  }
}
