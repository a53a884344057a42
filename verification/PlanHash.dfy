// The immutable plan and the byte stream under its hash.
module PlanHash {
  import opened Bytes

  const U64_LIMIT := 0x1_0000_0000_0000_0000
  const MAX_PLAN_STEPS := 64

  type u64 = x: nat | x < U64_LIMIT
  type Fixed16 = b: seq<byte> | |b| == 16 witness seq(16, i => 0)
  type Fixed32 = b: seq<byte> | |b| == 32 witness seq(32, i => 0)
  type Identifier = b: seq<byte> | |b| < U64_LIMIT

  type OperationId = Fixed16
  type Digest = Fixed32

  datatype Action = WriteUsb | DownloadOnly | TryVirtualMachine | DirectInstallAlongside | DirectInstallReplace

  datatype DeviceKind = RemovableUsb | InternalDisk | VirtualDisk | Simulation

  datatype Artifact = Artifact(id: Identifier, catalogGeneration: u64, byteLength: u64, sha256: Digest)

  datatype Target = Target(stableId: Identifier, kind: DeviceKind, capacity: u64, fingerprint: Digest)

  datatype Step =
    | VerifyArtifact | ReidentifyTarget | AcquireExclusiveTarget | WriteArtifact | FlushTarget | VerifyWrittenArtifact
    | EjectTarget | LaunchQualifiedProvider(provider: Identifier)

  /** A plan without its hash. */
  datatype Content = Content(operation: OperationId, action: Action, artifact: Artifact, target: Target, steps: seq<Step>)

  datatype Plan = Plan(content: Content, hash: Digest)

  function ActionTag(a: Action): byte {
    match a
    case WriteUsb => 0
    case DownloadOnly => 1
    case TryVirtualMachine => 2
    case DirectInstallAlongside => 3
    case DirectInstallReplace => 4
  }

  function KindTag(k: DeviceKind): byte {
    match k
    case RemovableUsb => 0
    case InternalDisk => 1
    case VirtualDisk => 2
    case Simulation => 3
  }

  function Counted(b: Identifier): seq<byte> {
    BE(8, |b|) + b
  }

  function ArtifactBytes(a: Artifact): seq<byte> {
    Counted(a.id) + (BE(8, a.catalogGeneration) + (BE(8, a.byteLength) + a.sha256))
  }

  function TargetBytes(t: Target): seq<byte> {
    Counted(t.stableId) + ([KindTag(t.kind)] + (BE(8, t.capacity) + t.fingerprint))
  }

  function StepBytes(s: Step): seq<byte> {
    match s
    case VerifyArtifact => [0]
    case ReidentifyTarget => [1]
    case AcquireExclusiveTarget => [2]
    case WriteArtifact => [3]
    case FlushTarget => [4]
    case VerifyWrittenArtifact => [5]
    case EjectTarget => [6]
    case LaunchQualifiedProvider(p) => [7] + Counted(p)
  }

  function StepsBytes(steps: seq<Step>): seq<byte> {
    if steps == [] then [] else StepBytes(steps[0]) + StepsBytes(steps[1..])
  }

  const DOMAIN: seq<byte> :=
    [111, 109, 97, 114, 99, 104, 121, 45, 115, 101, 116, 117, 112, 45, 112, 108, 97, 110, 0, 118, 49, 0]

  /** What the hash of a plan is taken of. */
  function HashInput(p: Content): seq<byte>
    requires |p.steps| < U64_LIMIT
  {
    DOMAIN + (p.operation + ([ActionTag(p.action)] + (ArtifactBytes(p.artifact) + (TargetBytes(p.target)
      + (BE(8, |p.steps|) + StepsBytes(p.steps))))))
  }

  /** The hasher is fed field by field and step by step. */
  method FeedHasher(p: Content) returns (fed: seq<byte>)
    requires |p.steps| < U64_LIMIT
    ensures fed == HashInput(p)
  {
    hide ArtifactBytes, TargetBytes, StepBytes, DOMAIN;
    var head := p.operation + ([ActionTag(p.action)] + (ArtifactBytes(p.artifact) + (TargetBytes(p.target) + BE(8, |p.steps|))));
    fed := [];
    var i := 0;
    while i < |p.steps|
      invariant 0 <= i <= |p.steps| && fed + StepsBytes(p.steps[i..]) == StepsBytes(p.steps)
    {
      assert p.steps[i..][1..] == p.steps[i + 1..];
      Regroup(fed, StepBytes(p.steps[i]), StepsBytes(p.steps[i + 1..]));
      fed := fed + StepBytes(p.steps[i]);
      i := i + 1;
    }
    assert p.steps[i..] == [] && fed + [] == fed;
    fed := DOMAIN + (head + fed);
    HeadBytes(p.operation, [ActionTag(p.action)], ArtifactBytes(p.artifact), TargetBytes(p.target), BE(8, |p.steps|),
              StepsBytes(p.steps));
  }

  lemma HeadBytes(a: seq<byte>, b: seq<byte>, c: seq<byte>, d: seq<byte>, e: seq<byte>, f: seq<byte>)
    ensures (a + (b + (c + (d + e)))) + f == a + (b + (c + (d + (e + f))))
  {
    Regroup(d, e, f);
    Regroup(c, d + e, f);
    Regroup(b, c + (d + e), f);
    Regroup(a, b + (c + (d + e)), f);
  }

  // Injectivity.

  /** Equal streams whose first fields have one length agree on the first field and on the rest. */
  lemma Cut(a: seq<byte>, x: seq<byte>, b: seq<byte>, y: seq<byte>)
    requires |a| == |b| && a + x == b + y
    ensures a == b && x == y
  {
    assert a == (a + x)[..|a|] && b == (b + y)[..|b|];
    assert x == (a + x)[|a|..] && y == (b + y)[|b|..];
  }

  lemma CutNumber(v: u64, x: seq<byte>, w: u64, y: seq<byte>)
    requires BE(8, v) + x == BE(8, w) + y
    ensures v == w && x == y
  {
    Cut(BE(8, v), x, BE(8, w), y);
    Powers();
    BEInjective(8, v, w);
  }

  lemma CutCounted(a: Identifier, x: seq<byte>, b: Identifier, y: seq<byte>)
    requires Counted(a) + x == Counted(b) + y
    ensures a == b && x == y
  {
    hide BE;
    Regroup(BE(8, |a|), a, x);
    Regroup(BE(8, |b|), b, y);
    CutNumber(|a|, a + x, |b|, b + y);
    Cut(a, x, b, y);
  }

  lemma CutArtifact(a: Artifact, x: seq<byte>, b: Artifact, y: seq<byte>)
    requires ArtifactBytes(a) + x == ArtifactBytes(b) + y
    ensures a == b && x == y
  {
    hide BE, Counted;
    SplitFields(Counted(a.id), BE(8, a.catalogGeneration), BE(8, a.byteLength), a.sha256, x);
    SplitFields(Counted(b.id), BE(8, b.catalogGeneration), BE(8, b.byteLength), b.sha256, y);
    CutCounted(a.id, BE(8, a.catalogGeneration) + (BE(8, a.byteLength) + (a.sha256 + x)),
               b.id, BE(8, b.catalogGeneration) + (BE(8, b.byteLength) + (b.sha256 + y)));
    CutNumber(a.catalogGeneration, BE(8, a.byteLength) + (a.sha256 + x), b.catalogGeneration, BE(8, b.byteLength) + (b.sha256 + y));
    CutNumber(a.byteLength, a.sha256 + x, b.byteLength, b.sha256 + y);
    Cut(a.sha256, x, b.sha256, y);
  }

  lemma SplitFields(a: seq<byte>, b: seq<byte>, c: seq<byte>, d: seq<byte>, x: seq<byte>)
    ensures (a + (b + (c + d))) + x == a + (b + (c + (d + x)))
  {
    Regroup(c, d, x);
    Regroup(b, c + d, x);
    Regroup(a, b + (c + d), x);
  }

  lemma KindTagInjective(k: DeviceKind, l: DeviceKind)
    requires KindTag(k) == KindTag(l)
    ensures k == l
  {
  }

  lemma CutTarget(a: Target, x: seq<byte>, b: Target, y: seq<byte>)
    requires TargetBytes(a) + x == TargetBytes(b) + y
    ensures a == b && x == y
  {
    hide BE, Counted, KindTag;
    SplitFields(Counted(a.stableId), [KindTag(a.kind)], BE(8, a.capacity), a.fingerprint, x);
    SplitFields(Counted(b.stableId), [KindTag(b.kind)], BE(8, b.capacity), b.fingerprint, y);
    CutCounted(a.stableId, [KindTag(a.kind)] + (BE(8, a.capacity) + (a.fingerprint + x)),
               b.stableId, [KindTag(b.kind)] + (BE(8, b.capacity) + (b.fingerprint + y)));
    Cut([KindTag(a.kind)], BE(8, a.capacity) + (a.fingerprint + x), [KindTag(b.kind)], BE(8, b.capacity) + (b.fingerprint + y));
    assert [KindTag(a.kind)][0] == [KindTag(b.kind)][0];
    KindTagInjective(a.kind, b.kind);
    CutNumber(a.capacity, a.fingerprint + x, b.capacity, b.fingerprint + y);
    Cut(a.fingerprint, x, b.fingerprint, y);
  }

  function StepTag(s: Step): byte {
    StepBytes(s)[0]
  }

  lemma CutStep(s: Step, x: seq<byte>, t: Step, y: seq<byte>)
    requires StepBytes(s) + x == StepBytes(t) + y
    ensures s == t && x == y
  {
    hide Counted;
    assert (StepBytes(s) + x)[0] == StepTag(s) && (StepBytes(t) + y)[0] == StepTag(t);
    if s.LaunchQualifiedProvider? {
      Regroup([7], Counted(s.provider), x);
      Regroup([7], Counted(t.provider), y);
      Cut([7], Counted(s.provider) + x, [7], Counted(t.provider) + y);
      CutCounted(s.provider, x, t.provider, y);
    } else {
      Cut(StepBytes(s), x, StepBytes(t), y);
    }
  }

  lemma {:induction false} StepsInjective(a: seq<Step>, b: seq<Step>)
    requires |a| == |b| && StepsBytes(a) == StepsBytes(b)
    ensures a == b
  {
    hide StepBytes;
    if a != [] {
      CutStep(a[0], StepsBytes(a[1..]), b[0], StepsBytes(b[1..]));
      StepsInjective(a[1..], b[1..]);
      assert a == [a[0]] + a[1..] && b == [b[0]] + b[1..];
    }
  }

  lemma ActionTagInjective(a: Action, b: Action)
    requires ActionTag(a) == ActionTag(b)
    ensures a == b
  {
  }

  /** The stream under the hash determines the plan, despite its fields of varying length. */
  lemma HashInputInjective(p: Content, q: Content)
    requires |p.steps| < U64_LIMIT && |q.steps| < U64_LIMIT && HashInput(p) == HashInput(q)
    ensures p == q
  {
    hide BE, ActionTag, ArtifactBytes, TargetBytes, StepsBytes, DOMAIN;
    var p4, q4 := BE(8, |p.steps|) + StepsBytes(p.steps), BE(8, |q.steps|) + StepsBytes(q.steps);
    var p3, q3 := TargetBytes(p.target) + p4, TargetBytes(q.target) + q4;
    var p2, q2 := ArtifactBytes(p.artifact) + p3, ArtifactBytes(q.artifact) + q3;
    var p1, q1 := [ActionTag(p.action)] + p2, [ActionTag(q.action)] + q2;
    Cut(DOMAIN, p.operation + p1, DOMAIN, q.operation + q1);
    Cut(p.operation, p1, q.operation, q1);
    Cut([ActionTag(p.action)], p2, [ActionTag(q.action)], q2);
    assert [ActionTag(p.action)][0] == [ActionTag(q.action)][0];
    ActionTagInjective(p.action, q.action);
    CutArtifact(p.artifact, p3, q.artifact, q3);
    CutTarget(p.target, p4, q.target, q4);
    CutNumber(|p.steps|, StepsBytes(p.steps), |q.steps|, StepsBytes(q.steps));
    StepsInjective(p.steps, q.steps);
  }
}
