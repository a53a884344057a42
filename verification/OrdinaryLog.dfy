// The logs of an ordinary start, told by their bytes: when they are accepted, and what they answer.
module OrdinaryLog {
  import opened Bytes
  import opened Framing
  import opened BootLog
  import opened DevicePath
  import opened BootEvidence

  /** An image-load event: addresses, the length of the device path, the path. */
  function ImageLoad(head: seq<byte>, path: seq<byte>): seq<byte>
    requires |path| < 0x1000_0000
  {
    head + LE64(|path|) + path
  }

  lemma OneReading(es: seq<Event>, t: Target)
    requires EventsOk(es) && 32 <= |EncodeLog(es)| <= 16777216
    ensures AcceptedLog(EncodeLog(es), t) <==> LogOk(es, t)
    ensures forall fs | LogOk(fs, t) && EncodeLog(fs) == EncodeLog(es) :: fs == es
  {
    hide EncodeLog, EventsOk, HasApplication, ApplicationOk, IsApplication;
    forall fs | LogOk(fs, t) && EncodeLog(fs) == EncodeLog(es)
      ensures fs == es
    {
      LogsNest(fs, es);
      LogsNest(es, fs);
    }
  }

  /** Event i, and no other one, is the start of a boot application from PCR 4, and its path is accepted. */
  ghost predicate StartsWindows(es: seq<Event>, i: nat, t: Target) {
    && i < |es| && es[i].pcr == 4 && es[i].kind == 0x8000_0003 && ApplicationOk(es[i].data, t)
    && forall j | 0 <= j < |es| && j != i :: es[j].pcr != 4 || es[j].kind != 0x8000_0003
  }

  lemma StartsExact(es: seq<Event>, t: Target)
    ensures LogOk(es, t) <==> EventsOk(es) && |es| <= 65536 && exists i :: StartsWindows(es, i, t)
  {
    hide EventsOk, ApplicationOk;
    if LogOk(es, t) {
      var i :| 0 <= i < |es| && IsApplication(es[i]);
      assert StartsWindows(es, i, t);
    }
    if i: nat :| StartsWindows(es, i, t) {
      assert IsApplication(es[i]);
      assert forall j | 0 <= j < |es| && IsApplication(es[j]) :: j == i;
    }
  }

  /** The logs that are accepted: at most 16 MiB and 65536 events, one of them the start of Windows. */
  lemma AcceptedExact(b: seq<byte>, t: Target)
    ensures AcceptedLog(b, t) <==>
            && 32 <= |b| <= 16777216
            && exists es, i :: EventsOk(es) && |es| <= 65536 && EncodeLog(es) == b && StartsWindows(es, i, t)
  {
    hide EventsOk, EncodeLog, LogOk, StartsWindows;
    forall es
      ensures LogOk(es, t) <==> EventsOk(es) && |es| <= 65536 && exists i :: StartsWindows(es, i, t)
    {
      StartsExact(es, t);
    }
  }

  lemma ImageLoadExact(head: seq<byte>, path: seq<byte>, t: Target)
    requires |head| == 24 && |path| < 0x1000_0000
    ensures ApplicationOk(ImageLoad(head, path), t) <==> |path| >= 4 && Accepted(path, t)
  {
    hide LE64, Accepted, U64;
    var d := ImageLoad(head, path);
    assert d[24..32] == LE64(|path|) && d[32..] == path;
    Length64(d, |path|);
  }

  lemma Length64(d: seq<byte>, n: nat)
    requires 32 <= |d| && n < 0x1000_0000 && d[24..32] == LE64(n)
    ensures U64(d, 24) == n
  {
    Read64(d, 24, n);
  }

  lemma OneEvent(e: Event)
    ensures EncodeLog([e]) == EncodeEvent(e) && Route([e]) == if e.pcr == 4 then EncodeEvent(e) else []
  {
    hide EncodeEvent;
    LogAppends([], e);
    assert [] + [e] == [e] && [] + EncodeEvent(e) == EncodeEvent(e);
  }

  lemma TwoEvents(a: Event, e: Event)
    requires a.pcr != 4
    ensures EncodeLog([a, e]) == EncodeEvent(a) + EncodeEvent(e)
    ensures Route([a, e]) == if e.pcr == 4 then EncodeEvent(e) else []
  {
    hide EncodeEvent;
    OneEvent(a);
    LogAppends([a], e);
    assert [a] + [e] == [a, e] && [] + EncodeEvent(e) == EncodeEvent(e);
  }

  /**
   * A log of one SHA-1 record is accepted exactly if this is a PCR 4 boot application with an accepted path; it
   * then answers the whole log.
   */
  lemma LegacyLog(t: Target, pcr: nat, kind: nat, digest: seq<byte>, head: seq<byte>, path: seq<byte>)
    requires pcr <= 23 && kind < 0x1_0000_0000 && kind != 3 && |digest| == 20 && |head| == 24 && |path| < 0x10_0000
    ensures var data := head + LE64(|path|) + path;
            var b := LE(4, pcr) + LE(4, kind) + digest + LE(4, |data|) + data;
            && (AcceptedLog(b, t) <==> pcr == 4 && kind == 0x8000_0003 && |path| >= 4 && Accepted(path, t))
            && (AcceptedLog(b, t) ==> forall es | LogOk(es, t) && EncodeLog(es) == b :: Route(es) == b)
  {
    hide LE, LE64, U64, Accepted, EncodeLog, Route, ApplicationOk;
    var data := ImageLoad(head, path);
    var e := Event(pcr, kind, Sha1(digest), data);
    OneEvent(e);
    ImageLoadExact(head, path, t);
    OneReading([e], t);
    if LogOk([e], t) {
      assert IsApplication([e][0]);
    }
    assert IsApplication(e) ==> HasApplication([e]) by { assert [e][0] == e; }
  }

  // The crypto-agile format.

  /** The data of a specification event for one algorithm. */
  function SpecificationData(platform: seq<byte>, minor: byte, errata: byte, width: byte, algorithm: nat, size: nat,
                             vendor: seq<byte>): seq<byte>
    requires algorithm < 0x1_0000 && size < 0x1_0000 && |vendor| < 256
  {
    [0x53, 0x70, 0x65, 0x63, 0x20, 0x49, 0x44, 0x20, 0x45, 0x76, 0x65, 0x6e, 0x74, 0x30, 0x33, 0x00] + platform
    + [minor, 2, errata, width] + LE(4, 1) + LE16(algorithm) + LE16(size) + [|vendor|] + vendor
  }

  lemma SpecificationFields(platform: seq<byte>, minor: byte, errata: byte, width: byte, algorithm: nat, size: nat,
                            vendor: seq<byte>, d: seq<byte>)
    requires |platform| == 4 && algorithm < 0x1_0000 && size < 0x1_0000 && |vendor| < 256
    requires d == SpecificationData(platform, minor, errata, width, algorithm, size, vendor)
    ensures |d| == 33 + |vendor| && d[..16] == SIGNATURE
    ensures d[21] == 2 && d[23] == width && d[32] == |vendor| && U32(d, 24) == 1
    ensures U16(d, 28) == algorithm && U16(d, 30) == size
  {
    hide LE, LE16, U16, U32;
    assert d[24..28] == LE(4, 1) && d[28..30] == LE16(algorithm) && d[30..32] == LE16(size);
    StandsU32(d, 24, 1);
    StandsU16(d, 28, algorithm);
    StandsU16(d, 30, size);
  }

  lemma SpecificationFits(platform: seq<byte>, minor: byte, errata: byte, width: byte, algorithm: nat, size: nat,
                          vendor: seq<byte>) returns (e: Event)
    requires |platform| == 4 && (width == 1 || width == 2) && algorithm < 0x1_0000 && 1 <= size <= 128 && |vendor| < 256
    ensures e == Event(0, 3, Sha1(Zeros(20)), SpecificationData(platform, minor, errata, width, algorithm, size, vendor))
    ensures EventOk(e, None) && IsSpecification(e.kind, e.data) && SpecificationOk(e)
    ensures Table(e.data, U32(e.data, 24)) == map[algorithm := size] && |e.data| <= 288
  {
    hide LE, LE16, U16, U32, SIGNATURE;
    var d := SpecificationData(platform, minor, errata, width, algorithm, size, vendor);
    SpecificationFields(platform, minor, errata, width, algorithm, size, vendor, d);
    hide SpecificationData;
    e := Event(0, 3, Sha1(Zeros(20)), d);
    assert TableAlgorithm(d, 0) == algorithm && TableSize(d, 0) == size;
    assert Table(d, 0) == map[];
    assert Table(d, 1) == map[algorithm := size];
  }

  lemma OneDigest(algorithm: nat, digest: seq<byte>)
    requires algorithm < 0x1_0000
    ensures EncodeDigests(Agile([Digest(algorithm, digest)])) == LE(4, 1) + LE16(algorithm) + digest
  {
    hide LE, LE16;
    var d := Digest(algorithm, digest);
    EncodeItemsAppend([], d);
    assert [] + [d] == [d] && EncodeItems([]) == [] && [] + EncodeDigest(d) == EncodeDigest(d);
    assert LE(4, 1) + (LE16(algorithm) + digest) == LE(4, 1) + LE16(algorithm) + digest;
  }

  lemma DigestFits(algorithm: nat, digest: seq<byte>)
    requires algorithm < 0x1_0000
    ensures DigestsOk(Agile([Digest(algorithm, digest)]), Some(map[algorithm := |digest|]))
  {
    assert map[algorithm := |digest|].Keys == {algorithm};
  }

  /**
   * A log of a specification event for one algorithm and one record with such a digest is accepted exactly if
   * the record is a PCR 4 boot application with an accepted path; it then answers that record.
   */
  lemma AgileLog(t: Target, platform: seq<byte>, minor: byte, errata: byte, width: byte, algorithm: nat, vendor: seq<byte>,
                 pcr: nat, kind: nat, digest: seq<byte>, head: seq<byte>, path: seq<byte>)
    requires |platform| == 4 && (width == 1 || width == 2) && algorithm < 0x1_0000 && 1 <= |digest| <= 128 && |vendor| < 256
    requires pcr <= 23 && kind < 0x1_0000_0000 && |head| == 24 && |path| < 0x10_0000
    ensures var spec := SpecificationData(platform, minor, errata, width, algorithm, |digest|, vendor);
            var data := head + LE64(|path|) + path;
            var a := LE(4, 0) + LE(4, 3) + Zeros(20) + LE(4, |spec|) + spec;
            var r := LE(4, pcr) + LE(4, kind) + (LE(4, 1) + LE16(algorithm) + digest) + LE(4, |data|) + data;
            && (AcceptedLog(a + r, t) <==> pcr == 4 && kind == 0x8000_0003 && |path| >= 4 && Accepted(path, t))
            && (AcceptedLog(a + r, t) ==> forall es | LogOk(es, t) && EncodeLog(es) == a + r :: Route(es) == r)
  {
    hide LE, LE64, LE16, U64, U32, Accepted, EncodeLog, Route, ApplicationOk, SpecificationData, SpecificationOk, EncodeDigests,
         DigestsOk, Table, IsSpecification, Zeros;
    var a := SpecificationFits(platform, minor, errata, width, algorithm, |digest|, vendor);
    var e := Event(pcr, kind, Agile([Digest(algorithm, digest)]), ImageLoad(head, path));
    OneDigest(algorithm, digest);
    DigestFits(algorithm, digest);
    ShaIsItself(a);
    TwoEvents(a, e);
    ImageLoadExact(head, path, t);
    PairOk(a, e, t);
  }

  lemma ShaIsItself(a: Event)
    requires a.digests.Sha1?
    ensures EncodeDigests(a.digests) == a.digests.value
  {
  }

  lemma PairOk(a: Event, e: Event, t: Target)
    requires EventOk(a, None) && IsSpecification(a.kind, a.data) && SpecificationOk(a) && a.pcr == 0
    requires EventOk(e, Some(Table(a.data, U32(a.data, 24)))) && 32 <= |EncodeLog([a, e])| <= 16777216
    ensures AcceptedLog(EncodeLog([a, e]), t) <==> IsApplication(e) && ApplicationOk(e.data, t)
    ensures forall es | LogOk(es, t) && EncodeLog(es) == EncodeLog([a, e]) :: es == [a, e]
  {
    hide EventOk, IsSpecification, SpecificationOk, Table, U32, EncodeLog, ApplicationOk;
    var es := [a, e];
    assert es[0] == a && es[1] == e;
    assert EventsOk(es);
    OneReading(es, t);
    assert HasApplication(es) <==> IsApplication(e) by {
      assert IsApplication(e) ==> IsApplication(es[1]);
    }
  }
}
