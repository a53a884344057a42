// The byte stream under a plan's hash, byte by byte.
module PlanBytes {
  import opened Bytes
  import opened Framing
  import opened PlanHash

  function Half(b: seq<byte>, at: nat): nat
    requires at + 4 <= |b|
  {
    var w: int, x: int, y: int, z: int := b[at], b[at + 1], b[at + 2], b[at + 3];
    0x100_0000 * w + 0x1_0000 * x + 0x100 * y + z
  }

  /** Eight bytes as a number, the most significant one first. */
  function Number(b: seq<byte>, at: nat): nat
    requires at + 8 <= |b|
  {
    0x1_0000_0000 * Half(b, at) + Half(b, at + 4)
  }

  predicate NumberAt(b: seq<byte>, at: nat, v: nat) {
    at + 8 <= |b| && Number(b, at) == v
  }

  /** A text of varying length stands behind its length. */
  predicate TextAt(b: seq<byte>, at: nat, text: Identifier) {
    NumberAt(b, at, |text|) && Stands(b, at + 8, text)
  }

  predicate ArtifactAt(b: seq<byte>, at: nat, a: Artifact) {
    var n := |a.id|;
    && TextAt(b, at, a.id) && NumberAt(b, at + n + 8, a.catalogGeneration) && NumberAt(b, at + n + 16, a.byteLength)
    && Stands(b, at + n + 24, a.sha256)
  }

  predicate TargetAt(b: seq<byte>, at: nat, t: Target) {
    var n := |t.stableId|;
    && TextAt(b, at, t.stableId) && at + n + 8 < |b|
    && b[at + n + 8] == (if t.kind.RemovableUsb? then 0 else if t.kind.InternalDisk? then 1
                         else if t.kind.VirtualDisk? then 2 else 3)
    && NumberAt(b, at + n + 9, t.capacity) && Stands(b, at + n + 17, t.fingerprint)
  }

  /** The number of a step; only the last kind carries a text. */
  predicate StepAt(b: seq<byte>, at: nat, s: Step) {
    && at < |b|
    && (b[at] == 0 <==> s.VerifyArtifact?) && (b[at] == 1 <==> s.ReidentifyTarget?)
    && (b[at] == 2 <==> s.AcquireExclusiveTarget?) && (b[at] == 3 <==> s.WriteArtifact?)
    && (b[at] == 4 <==> s.FlushTarget?) && (b[at] == 5 <==> s.VerifyWrittenArtifact?)
    && (b[at] == 6 <==> s.EjectTarget?) && (b[at] == 7 <==> s.LaunchQualifiedProvider?)
    && (s.LaunchQualifiedProvider? ==> TextAt(b, at + 1, s.provider))
  }

  /** The steps one behind the other, up to the end. */
  predicate StepsAt(b: seq<byte>, at: nat, steps: seq<Step>)
    decreases |steps|
  {
    if steps == [] then at == |b|
    else
      && StepAt(b, at, steps[0])
      && StepsAt(b, at + (if steps[0].LaunchQualifiedProvider? then 9 + |steps[0].provider| else 1), steps[1..])
  }

  predicate ActionAt(b: seq<byte>, at: nat, a: Action) {
    && at < |b|
    && (b[at] == 0 <==> a.WriteUsb?) && (b[at] == 1 <==> a.DownloadOnly?) && (b[at] == 2 <==> a.TryVirtualMachine?)
    && (b[at] == 3 <==> a.DirectInstallAlongside?) && (b[at] == 4 <==> a.DirectInstallReplace?)
  }

  predicate NameAt(b: seq<byte>, name: string) {
    |name| <= |b| && forall i | 0 <= i < |name| :: b[i] == name[i] as int
  }

  // The parts in their places.

  /** The number spelled by b, most significant byte first. */
  function Value(b: seq<byte>): nat {
    if b == [] then 0
    else
      var last: int := b[|b| - 1];
      256 * Value(b[..|b| - 1]) + last
  }

  lemma {:induction false} ValueOfBE(n: nat, v: nat)
    requires v < Pow256(n)
    ensures Value(BE(n, v)) == v
  {
    if n > 0 {
      ValueOfBE(n - 1, v / 256);
      assert BE(n, v)[..n - 1] == BE(n - 1, v / 256);
    }
  }

  lemma Longer(x: seq<byte>, n: nat)
    requires n < |x|
    ensures Value(x[..n + 1]) == 256 * Value(x[..n]) + x[n]
  {
    assert x[..n + 1][..n] == x[..n];
  }

  lemma ValueOfEight(x: seq<byte>)
    requires |x| == 8
    ensures Value(x) == Number(x, 0)
  {
    hide Value;
    assert x[..8] == x;
    NoValue(x[..0]);
    Longer(x, 0);
    Longer(x, 1);
    Longer(x, 2);
    Longer(x, 3);
    Longer(x, 4);
    Longer(x, 5);
    Longer(x, 6);
    Longer(x, 7);
  }

  lemma NoValue(x: seq<byte>)
    requires x == []
    ensures Value(x) == 0
  {
  }

  lemma NumberStands(b: seq<byte>, at: nat, v: nat)
    requires Stands(b, at, BE(8, v)) && v < U64_LIMIT
    ensures NumberAt(b, at, v)
  {
    hide BE, Value;
    var x := BE(8, v);
    Powers();
    ValueOfBE(8, v);
    ValueOfEight(x);
    forall k | 0 <= k < 8
      ensures b[at + k] == x[k]
    {
      assert b[at..at + 8][k] == x[k];
    }
  }

  lemma CountedStands(b: seq<byte>, at: nat, text: Identifier, rest: seq<byte>)
    requires Stands(b, at, Counted(text) + rest)
    ensures TextAt(b, at, text) && Stands(b, at + 8 + |text|, rest)
  {
    hide BE, Stands, Number;
    StandsSplit(b, at, Counted(text), rest);
    StandsSplit(b, at, BE(8, |text|), text);
    NumberStands(b, at, |text|);
  }

  lemma NumberThen(b: seq<byte>, at: nat, v: nat, rest: seq<byte>)
    requires Stands(b, at, BE(8, v) + rest) && v < U64_LIMIT
    ensures NumberAt(b, at, v) && Stands(b, at + 8, rest)
  {
    hide BE, Stands, NumberAt;
    StandsSplit(b, at, BE(8, v), rest);
    NumberStands(b, at, v);
  }

  lemma ArtifactStands(b: seq<byte>, at: nat, a: Artifact, rest: seq<byte>)
    requires Stands(b, at, ArtifactBytes(a) + rest)
    ensures ArtifactAt(b, at, a) && Stands(b, at + |a.id| + 56, rest)
  {
    hide BE, Stands, NumberAt, TextAt, Counted;
    var n := |a.id|;
    var tail := BE(8, a.byteLength) + a.sha256;
    StandsSplit(b, at, ArtifactBytes(a), rest);
    CountedStands(b, at, a.id, BE(8, a.catalogGeneration) + tail);
    NumberThen(b, at + n + 8, a.catalogGeneration, tail);
    NumberThen(b, at + n + 16, a.byteLength, a.sha256);
    CountedLength(a.id);
  }

  lemma CountedLength(text: Identifier)
    ensures |Counted(text)| == 8 + |text|
  {
  }

  lemma OneByte(b: seq<byte>, at: nat, x: byte, rest: seq<byte>)
    requires Stands(b, at, [x] + rest)
    ensures at < |b| && b[at] == x && Stands(b, at + 1, rest)
  {
    StandsSplit(b, at, [x], rest);
    assert b[at..at + 1][0] == x;
  }

  lemma TargetStands(b: seq<byte>, at: nat, t: Target, rest: seq<byte>)
    requires Stands(b, at, TargetBytes(t) + rest)
    ensures TargetAt(b, at, t) && Stands(b, at + |t.stableId| + 49, rest)
  {
    hide BE, Stands, NumberAt, TextAt, Counted;
    var n := |t.stableId|;
    var tail := BE(8, t.capacity) + t.fingerprint;
    StandsSplit(b, at, TargetBytes(t), rest);
    CountedStands(b, at, t.stableId, [KindTag(t.kind)] + tail);
    OneByte(b, at + n + 8, KindTag(t.kind), tail);
    NumberThen(b, at + n + 9, t.capacity, t.fingerprint);
    CountedLength(t.stableId);
  }

  lemma StepStands(b: seq<byte>, at: nat, s: Step, rest: seq<byte>)
    requires Stands(b, at, StepBytes(s) + rest)
    ensures StepAt(b, at, s)
    ensures Stands(b, at + (if s.LaunchQualifiedProvider? then 9 + |s.provider| else 1), rest)
  {
    hide Stands, TextAt, Counted;
    if s.LaunchQualifiedProvider? {
      Regroup([7], Counted(s.provider), rest);
      OneByte(b, at, 7, Counted(s.provider) + rest);
      CountedStands(b, at + 1, s.provider, rest);
    } else {
      OneByte(b, at, StepBytes(s)[0], rest);
    }
  }

  lemma {:induction false} StepsStand(b: seq<byte>, at: nat, steps: seq<Step>)
    requires Stands(b, at, StepsBytes(steps)) && at + |StepsBytes(steps)| == |b|
    ensures StepsAt(b, at, steps)
    decreases |steps|
  {
    hide Stands, StepAt, StepBytes;
    if steps != [] {
      StepStands(b, at, steps[0], StepsBytes(steps[1..]));
      StepLength(steps[0]);
      StepsStand(b, at + (if steps[0].LaunchQualifiedProvider? then 9 + |steps[0].provider| else 1), steps[1..]);
    }
  }

  lemma StepLength(s: Step)
    ensures |StepBytes(s)| == if s.LaunchQualifiedProvider? then 9 + |s.provider| else 1
  {
  }

  /** Where a plan's fields lie in its stream: 22 bytes of domain, then field behind field. */
  predicate PlanAt(b: seq<byte>, p: Content, name: string) {
    var artifact := 39;
    var target := artifact + |p.artifact.id| + 56;
    var steps := target + |p.target.stableId| + 49;
    && |name| == 18 && NameAt(b, name) && Stands(b, 18, [0, 118, 49, 0])
    && Stands(b, 22, p.operation) && ActionAt(b, 38, p.action)
    && ArtifactAt(b, artifact, p.artifact) && TargetAt(b, target, p.target)
    && NumberAt(b, steps, |p.steps|) && StepsAt(b, steps + 8, p.steps)
  }

  lemma DomainStands(b: seq<byte>, rest: seq<byte>, name: string)
    requires Stands(b, 0, DOMAIN + rest) && name == "omarchy-setup-plan"
    ensures |name| == 18 && NameAt(b, name) && Stands(b, 18, [0, 118, 49, 0]) && Stands(b, 22, rest)
  {
    StandsSplit(b, 0, DOMAIN, rest);
    assert b[0..22] == DOMAIN;
    forall i | 0 <= i < 18
      ensures b[i] == name[i] as int
    {
      assert b[i] == DOMAIN[i];
    }
    assert b[18..22] == DOMAIN[18..22];
  }

  lemma ActionStands(b: seq<byte>, at: nat, a: Action, rest: seq<byte>)
    requires Stands(b, at, [ActionTag(a)] + rest)
    ensures ActionAt(b, at, a) && Stands(b, at + 1, rest)
  {
    hide Stands;
    OneByte(b, at, ActionTag(a), rest);
  }

  /** Every byte of the stream, for every plan. */
  lemma StreamBytes(p: Content)
    requires |p.steps| < U64_LIMIT
    ensures PlanAt(HashInput(p), p, "omarchy-setup-plan")
  {
    hide BE, ActionTag, ArtifactBytes, TargetBytes, StepsBytes, DOMAIN, Stands, NameAt, ActionAt, ArtifactAt, TargetAt,
         NumberAt, StepsAt;
    var b := HashInput(p);
    var p4 := BE(8, |p.steps|) + StepsBytes(p.steps);
    var p3 := TargetBytes(p.target) + p4;
    var p2 := ArtifactBytes(p.artifact) + p3;
    var p1 := [ActionTag(p.action)] + p2;
    StandsMeans(b, 0, b);
    DomainStands(b, p.operation + p1, "omarchy-setup-plan");
    StandsSplit(b, 22, p.operation, p1);
    ActionStands(b, 38, p.action, p2);
    ArtifactStands(b, 39, p.artifact, p3);
    TargetStands(b, 39 + |p.artifact.id| + 56, p.target, p4);
    var steps := 39 + |p.artifact.id| + 56 + |p.target.stableId| + 49;
    NumberThen(b, steps, |p.steps|, StepsBytes(p.steps));
    StreamLength(b, p, p1, p2, p3, p4);
    StepsStand(b, steps + 8, p.steps);
  }

  lemma StreamLength(b: seq<byte>, p: Content, p1: seq<byte>, p2: seq<byte>, p3: seq<byte>, p4: seq<byte>)
    requires |p.steps| < U64_LIMIT && b == HashInput(p) && p4 == BE(8, |p.steps|) + StepsBytes(p.steps)
    requires p3 == TargetBytes(p.target) + p4 && p2 == ArtifactBytes(p.artifact) + p3 && p1 == [ActionTag(p.action)] + p2
    ensures |b| == 39 + |p.artifact.id| + 56 + |p.target.stableId| + 49 + 8 + |StepsBytes(p.steps)|
  {
    hide BE, ActionTag, StepsBytes, Counted, KindTag;
    CountedLength(p.artifact.id);
    CountedLength(p.target.stableId);
  }
}
