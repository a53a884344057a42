// Acceptance of a measured boot log that proves a direct Windows start.
module BootEvidence {
  import opened Bytes
  import opened Framing
  import opened BootLog
  import opened DevicePath

  predicate IsApplication(e: Event) {
    e.pcr == 4 && e.kind == BOOT_APPLICATION
  }

  /** The image-load event holds a device path of the announced size, and the path is the accepted one. */
  ghost predicate ApplicationOk(data: seq<byte>, t: Target) {
    |data| >= 36 && U64(data, 24) == |data| - 32 && Accepted(data[32..], t)
  }

  predicate HasApplication(es: seq<Event>) {
    exists i | 0 <= i < |es| :: IsApplication(es[i])
  }

  ghost predicate LogShaped(es: seq<Event>, t: Target) {
    && EventsOk(es) && |es| <= MAX_EVENTS
    && (forall i, j | 0 <= i < j < |es| :: !(IsApplication(es[i]) && IsApplication(es[j])))
    && (forall i | 0 <= i < |es| && IsApplication(es[i]) :: ApplicationOk(es[i].data, t))
  }

  /** Well-formed events of which exactly one is a boot application, and an accepted one. */
  ghost predicate LogOk(es: seq<Event>, t: Target) {
    LogShaped(es, t) && HasApplication(es)
  }

  ghost predicate AcceptedLog(b: seq<byte>, t: Target) {
    32 <= |b| <= MAX_LOG && exists es :: LogOk(es, t) && EncodeLog(es) == b
  }

  /** The PCR 4 records of a log, in order. */
  function Route(es: seq<Event>): seq<byte> {
    if es == [] then []
    else Route(es[..|es| - 1]) + if es[|es| - 1].pcr == 4 then EncodeEvent(es[|es| - 1]) else []
  }

  // One event at a time.

  /** What the loop of Validate demands of the event after those in read. */
  ghost predicate AdmissibleEvent(read: seq<Event>, e: Event, t: Target) {
    && |read| < MAX_EVENTS && EventOk(e, Format(read))
    && (|read| == 0 && IsSpecification(e.kind, e.data) ==> SpecificationOk(e))
    && (IsApplication(e) ==> !HasApplication(read) && ApplicationOk(e.data, t))
  }

  lemma FormatOfPrefix(read: seq<Event>, es: seq<Event>)
    requires read <= es && |read| > 0
    ensures Format(read) == Format(es)
  {
  }

  lemma NoFormat(read: seq<Event>)
    requires |read| == 0
    ensures Format(read) == None
  {
  }

  lemma EventAppends(read: seq<Event>, e: Event, t: Target)
    requires LogShaped(read, t) && AdmissibleEvent(read, e, t)
    ensures LogShaped(read + [e], t)
    ensures HasApplication(read + [e]) <==> HasApplication(read) || IsApplication(e)
  {
    hide EventOk, SpecificationOk, IsSpecification, Format, ApplicationOk;
    var all := read + [e];
    if |read| > 0 {
      FormatOfPrefix(read, all);
    } else {
      NoFormat(read);
    }
    assert all[|read|] == e && forall i | 0 <= i < |read| :: all[i] == read[i];
    if i :| 0 <= i < |read| && IsApplication(read[i]) {
      assert IsApplication(all[i]);
    }
  }

  lemma LogAppends(read: seq<Event>, e: Event)
    ensures EncodeLog(read + [e]) == EncodeLog(read) + EncodeEvent(e)
    ensures Route(read + [e]) == Route(read) + if e.pcr == 4 then EncodeEvent(e) else []
  {
    EncodeLogAppend(read, e);
    assert (read + [e])[..|read|] == read;
  }

  /** Any accepted log begins with the events read so far. */
  ghost predicate OnlyLog(b: seq<byte>, t: Target, read: seq<Event>) {
    forall es | LogOk(es, t) && EncodeLog(es) == b :: read <= es
  }

  lemma NextEvent(b: seq<byte>, read: seq<Event>, es: seq<Event>)
    requires EncodeLog(es) == b && read <= es && |read| < |es|
    ensures Stands(b, |EncodeLog(read)|, EncodeEvent(es[|read|]))
  {
    hide EncodeLog, EncodeEvent;
    assert es[..|read|] == read;
    LogStands(b, es, |read|);
  }

  lemma AdmitsNext(read: seq<Event>, es: seq<Event>, t: Target)
    requires LogShaped(es, t) && read <= es && |read| < |es|
    ensures AdmissibleEvent(read, es[|read|], t)
  {
    hide EventOk, SpecificationOk, IsSpecification, ApplicationOk, Format;
    assert forall i | 0 <= i < |read| :: read[i] == es[i];
    if |read| > 0 {
      FormatOfPrefix(read, es);
    } else {
      NoFormat(read);
    }
  }

  lemma LogGoesOn(b: seq<byte>, t: Target, read: seq<Event>, es: seq<Event>)
    requires LogOk(es, t) && EncodeLog(es) == b && OnlyLog(b, t, read) && |EncodeLog(read)| != |b|
    ensures |read| < |es| && read <= es && AdmissibleEvent(read, es[|read|], t)
    ensures Stands(b, |EncodeLog(read)|, EncodeEvent(es[|read|]))
  {
    hide EncodeLog, EncodeEvent, AdmissibleEvent, HasApplication, Stands, LogShaped;
    assert read <= es;
    assert |es| == |read| ==> es == read;
    NextEvent(b, read, es);
    AdmitsNext(read, es, t);
  }

  /** What the loop of Validate knows after the events read so far. */
  ghost predicate LogProgress(b: seq<byte>, t: Target, read: seq<Event>, at: nat, sizes: Option<Sizes>, found: bool, route: seq<byte>) {
    && Stands(b, 0, EncodeLog(read)) && at == |EncodeLog(read)|
    && LogShaped(read, t) && sizes == Format(read) && found == HasApplication(read)
    && route == Route(read) && OnlyLog(b, t, read)
  }

  lemma LogTakes(b: seq<byte>, t: Target, read: seq<Event>, e: Event)
    requires OnlyLog(b, t, read) && |EncodeLog(read)| < |b|
    requires OnlyEvent(b, |EncodeLog(read)|, Format(read), Some(e))
    ensures OnlyLog(b, t, read + [e])
  {
    hide EncodeLog, EncodeEvent, LogOk, EventOk, Stands, OnlyLog, IsApplication, HasApplication, Format, ApplicationOk, SpecificationOk;
    forall es | LogOk(es, t) && EncodeLog(es) == b
      ensures read + [e] <= es
    {
      LogGoesOn(b, t, read, es);
    }
    assert OnlyLog(b, t, read + [e]) by { LogPrefix(b, t, read + [e]); }
  }

  lemma LogPrefix(b: seq<byte>, t: Target, read: seq<Event>)
    requires forall es | LogOk(es, t) && EncodeLog(es) == b :: read <= es
    ensures OnlyLog(b, t, read)
  {
  }

  lemma LogAdvances(b: seq<byte>, t: Target, read: seq<Event>, at: nat, sizes: Option<Sizes>, found: bool, route: seq<byte>, e: Event)
    requires LogProgress(b, t, read, at, sizes, found, route) && at < |b|
    requires Stands(b, at, EncodeEvent(e)) && OnlyEvent(b, at, sizes, Some(e)) && AdmissibleEvent(read, e, t)
    ensures LogProgress(b, t, read + [e], at + |EncodeEvent(e)|, Format(read + [e]), found || IsApplication(e),
                        if e.pcr == 4 then route + EncodeEvent(e) else route)
  {
    hide EncodeEvent, EncodeLog, OnlyLog, LogShaped, HasApplication, Route, Format, OnlyEvent, AdmissibleEvent, IsApplication, Stands;
    LogTakes(b, t, read, e);
    LogAppends(read, e);
    EventAppends(read, e, t);
    StandsSplit(b, 0, EncodeLog(read), EncodeEvent(e));
  }

  lemma LogRefused(b: seq<byte>, t: Target, read: seq<Event>, at: nat, sizes: Option<Sizes>, found: bool, route: seq<byte>, e: Option<Event>)
    requires LogProgress(b, t, read, at, sizes, found, route) && at != |b|
    requires OnlyEvent(b, at, sizes, e) && (e.Some? ==> !AdmissibleEvent(read, e.value, t))
    ensures !AcceptedLog(b, t)
  {
    hide EncodeLog, EncodeEvent, LogOk, EventOk, Stands, OnlyLog, LogShaped, HasApplication, Format, ApplicationOk, SpecificationOk, Route;
    forall es | EncodeLog(es) == b
      ensures !LogOk(es, t)
    {
      if LogOk(es, t) {
        LogGoesOn(b, t, read, es);
      }
    }
  }

  lemma LogTooLong(b: seq<byte>, t: Target, read: seq<Event>, at: nat, sizes: Option<Sizes>, found: bool, route: seq<byte>)
    requires LogProgress(b, t, read, at, sizes, found, route) && at != |b| && |read| >= MAX_EVENTS
    ensures !AcceptedLog(b, t)
  {
    hide EncodeLog, EncodeEvent, LogOk, EventOk, Stands, OnlyLog, LogShaped, HasApplication, Format, ApplicationOk, SpecificationOk, Route;
    forall es | EncodeLog(es) == b
      ensures !LogOk(es, t)
    {
      if LogOk(es, t) {
        LogGoesOn(b, t, read, es);
      }
    }
  }

  lemma {:induction false} EventsTakeRoom(read: seq<Event>, es: seq<Event>)
    requires read <= es
    ensures |EncodeLog(read)| + |es| - |read| <= |EncodeLog(es)|
    decreases |es|
  {
    if |read| < |es| {
      EventsTakeRoom(read, es[..|es| - 1]);
      EventLength(es[|es| - 1]);
    } else {
      assert read == es;
    }
  }

  lemma LogFinishes(b: seq<byte>, t: Target, read: seq<Event>, sizes: Option<Sizes>, found: bool, route: seq<byte>)
    requires LogProgress(b, t, read, |b|, sizes, found, route) && 32 <= |b| <= MAX_LOG
    ensures AcceptedLog(b, t) <==> found
    ensures forall es | LogOk(es, t) && EncodeLog(es) == b :: Route(es) == route
  {
    hide LogShaped, HasApplication, Route, Format;
    assert EncodeLog(read) == b;
    if found {
      assert LogOk(read, t);
    }
    forall es | LogOk(es, t) && EncodeLog(es) == b
      ensures es == read
    {
      EventsTakeRoom(read, es);
    }
  }

  // The acceptor.

  /** Reads the entries of the digest-size table. */
  method ReadTable(data: seq<byte>, count: nat) returns (r: Result<Sizes>)
    requires 28 + 4 * count <= |data|
    ensures r.Ok? <==> TableOk(data, count)
    ensures r.Ok? ==> r.value == Table(data, count)
  {
    hide U16;
    var sizes, k: nat := map[], 0;
    while k < count
      invariant 0 <= k <= count && sizes == Table(data, k) && TableOk(data, k)
      invariant forall a :: a in sizes <==> exists j | 0 <= j < k :: TableAlgorithm(data, j) == a
    {
      var algorithm, length := TableAlgorithm(data, k), TableSize(data, k);
      if length == 0 || length > 128 || algorithm in sizes {
        return Err("Invalid digest-size entry");
      }
      sizes := sizes[algorithm := length];
      k := k + 1;
    }
    return Ok(sizes);
  }

  method AllZero(digest: seq<byte>) returns (zero: bool)
    ensures zero <==> digest == Zeros(|digest|)
  {
    var i := 0;
    while i < |digest|
      invariant 0 <= i <= |digest| && forall j | 0 <= j < i :: digest[j] == 0
    {
      if digest[i] != 0 {
        return false;
      }
      i := i + 1;
    }
    return true;
  }

  /** Reads a specification event. */
  method ReadSpecification(pcr: nat, digest: seq<byte>, data: seq<byte>) returns (r: Result<Sizes>)
    requires |digest| == 20
    ensures r.Ok? <==> SpecificationOk(Event(pcr, 3, Sha1(digest), data))
    ensures r.Ok? ==> r.value == Table(data, U32(data, 24))
  {
    var zero := AllZero(digest);
    if pcr != 0 || |data| < 29 || !zero {
      return Err("Invalid measured boot specification header");
    }
    if data[21] != 2 || (data[23] != 1 && data[23] != 2) {
      return Err("Unsupported measured boot specification");
    }
    var count := U32(data, 24);
    if count == 0 || count > 16 || count * 4 + 29 > |data| {
      return Err("Invalid digest-size table");
    }
    hide U32, TableOk, Table;
    r := ReadTable(data, count);
    if r.Ok? && 28 + 4 * count + 1 + data[28 + 4 * count] != |data| {
      return Err("Invalid specification vendor data");
    }
  }

  lemma NextFormat(read: seq<Event>, e: Event)
    requires |read| == 0 && IsSpecification(e.kind, e.data) ==> SpecificationOk(e)
    ensures Format(read + [e]) == if |read| == 0 && IsSpecification(e.kind, e.data)
                                  then Some(Table(e.data, U32(e.data, 24))) else Format(read)
  {
    hide Table, U32, IsSpecification;
    assert (read + [e])[|read|] == e;
  }

  lemma SpecificationKind(e: Event)
    ensures IsSpecification(e.kind, e.data) ==> e.kind == 3
  {
  }

  /** The checks on the image-load event. */
  method CheckApplication(data: seq<byte>, t: Target) returns (problem: Option<string>)
    ensures problem.None? <==> ApplicationOk(data, t)
  {
    hide U64, Accepted;
    if |data| < 36 || U64(data, 24) != |data| - 32 {
      return Some("Invalid EFI image device path size");
    }
    var ok := ValidatePath(data[32..], t);
    return if ok then None else Some("Current measured boot did not load the original Windows Boot Manager directly");
  }

  /** The checks of Validate on an event that has been read; answers the format of the records that follow. */
  method CheckEvent(ghost read: seq<Event>, ghost e: Event, first: bool, sizes: Option<Sizes>, found: bool,
                    pcr: nat, kind: nat, digest: seq<byte>, data: seq<byte>, t: Target)
    returns (r: Result<Option<Sizes>>)
    requires first == (|read| == 0) && |read| < MAX_EVENTS && found == HasApplication(read) && sizes == Format(read)
    requires EventOk(e, sizes) && pcr == e.pcr && kind == e.kind && data == e.data
    requires first ==> e.digests == Sha1(digest)
    ensures r.Ok? <==> AdmissibleEvent(read, e, t)
    ensures r.Ok? ==> r.value == Format(read + [e])
  {
    hide SpecificationOk, IsSpecification, Format, Table, U32, ApplicationOk, EventOk, HasApplication;
    SpecificationKind(e);
    var next := sizes;
    if first && IsSpecification(kind, data) {
      NoFormat(read);
      assert |digest| == 20 by { FirstDigests(e); }
      var table := ReadSpecification(pcr, digest, data);
      assert e == Event(pcr, 3, Sha1(digest), data);
      if table.Err? {
        return Err(table.message);
      }
      next := Some(table.value);
    }
    NextFormat(read, e);
    if pcr == 4 && kind == BOOT_APPLICATION {
      if found {
        return Err("Windows was started through additional EFI applications");
      }
      var problem := CheckApplication(data, t);
      if problem.Some? {
        return Err(problem.value);
      }
    }
    return Ok(next);
  }

  lemma FirstDigests(e: Event)
    requires EventOk(e, None)
    ensures e.digests.Sha1? && |e.digests.value| == 20 && EncodeDigests(e.digests) == e.digests.value
  {
  }

  lemma RecordSlices(b: seq<byte>, at: nat, rec: Record, e: Event, sizes: Option<Sizes>)
    requires EventOk(e, sizes) && Stands(b, at, EncodeEvent(e)) && RecordOf(rec, at, e)
    ensures rec.next <= |b| && b[at..rec.next] == EncodeEvent(e) && b[rec.data..rec.next] == e.data
    ensures sizes.None? ==> rec.digests + 20 <= |b| && e.digests == Sha1(b[rec.digests..rec.digests + 20])
  {
    hide EncodeEvent, Stands, U32, EventOk, EncodeDigests;
    EventMustStand(b, at, sizes, e);
    EventLength(e);
    if sizes.None? {
      FirstDigests(e);
    }
    StandsMeans(b, at, EncodeEvent(e));
    StandsMeans(b, at + 8, EncodeDigests(e.digests));
    StandsMeans(b, rec.data, e.data);
  }

  /** Accepts exactly the logs of the grammar, and answers the PCR 4 records whose digest identifies the boot. */
  method Validate(b: seq<byte>, t: Target) returns (r: Result<seq<byte>>)
    ensures r.Ok? <==> AcceptedLog(b, t)
    ensures r.Ok? ==> forall es | LogOk(es, t) && EncodeLog(es) == b :: r.value == Route(es)
  {
    if |b| < 32 || |b| > MAX_LOG {
      return Err("Invalid measured boot log");
    }
    hide Stands, EncodeLog, EncodeEvent, EventOk, OnlyLog, OnlyEvent, LogShaped, HasApplication, Route, Format, LogOk, AcceptedLog, AdmissibleEvent;
    var at, events, found, sizes: Option<Sizes>, route: seq<byte> := 0, 0, false, None, [];
    ghost var read: seq<Event> := [];
    while at < |b|
      invariant at <= |b| && events == |read|
      invariant LogProgress(b, t, read, at, sizes, found, route)
    {
      if events >= MAX_EVENTS {
        LogTooLong(b, t, read, at, sizes, found, route);
        return Err("Too many measured boot events");
      }
      var record; ghost var e;
      record, e := ReadEvent(b, at, sizes);
      if record.Err? {
        LogRefused(b, t, read, at, sizes, found, route, None);
        return Err(record.message);
      }
      var rec := record.value;
      RecordSlices(b, at, rec, e, sizes);
      var digest := if events == 0 then b[rec.digests..rec.digests + 20] else [];
      var next := CheckEvent(read, e, events == 0, sizes, found, rec.pcr, rec.kind, digest, b[rec.data..rec.next], t);
      if next.Err? {
        LogRefused(b, t, read, at, sizes, found, route, Some(e));
        return Err(next.message);
      }
      LogAdvances(b, t, read, at, sizes, found, route, e);
      if rec.pcr == 4 {
        route := route + b[at..rec.next];
        found := found || rec.kind == BOOT_APPLICATION;
      }
      EventLength(e);
      read, at, sizes, events := read + [e], rec.next, next.value, events + 1;
    }
    LogFinishes(b, t, read, sizes, found, route);
    if !found {
      return Err("The current log does not establish a direct Windows boot");
    }
    return Ok(route);
  }

  // The grammar is unambiguous.

  /** Well-formed events whose encodings stand at the same place are equal. */
  lemma EventUnique(b: seq<byte>, at: nat, e: Event, f: Event, sizes: Option<Sizes>)
    requires EventOk(e, sizes) && EventOk(f, sizes)
    requires Stands(b, at, EncodeEvent(e)) && Stands(b, at, EncodeEvent(f))
    ensures e == f
  {
    hide EncodeEvent, U32, EncodeItems, ItemsOk, Stands, LE;
    EventMustStand(b, at, sizes, e);
    EventMustStand(b, at, sizes, f);
    if sizes.Some? {
      var x, y := e.digests.items, f.digests.items;
      StandsSplit(b, at + 8, LE(4, |x|), EncodeItems(x));
      StandsSplit(b, at + 8, LE(4, |y|), EncodeItems(y));
      StandsU32(b, at + 8, |x|);
      StandsU32(b, at + 8, |y|);
      ItemsUnique(b, at + 12, x, y, sizes.value);
    } else {
      StandsUnique(b, at + 8, e.digests.value, f.digests.value);
    }
    assert |EncodeDigests(e.digests)| == |EncodeDigests(f.digests)|;
    StandsUnique(b, at + 12 + |EncodeDigests(e.digests)|, e.data, f.data);
  }

  lemma ItemsInit(x: seq<Digest>, m: Sizes)
    requires ItemsOk(x, m) && x != []
    ensures ItemsOk(x[..|x| - 1], m) && DigestOk(x[|x| - 1], m)
  {
    hide DigestOk;
  }

  lemma {:induction false} ItemsUnique(b: seq<byte>, at: nat, x: seq<Digest>, y: seq<Digest>, m: Sizes)
    requires |x| == |y| && ItemsOk(x, m) && ItemsOk(y, m)
    requires Stands(b, at, EncodeItems(x)) && Stands(b, at, EncodeItems(y))
    ensures x == y
    decreases |x|
  {
    hide Stands, EncodeItems, EncodeDigest, ItemsOk, DigestOk;
    if x != [] {
      var n := |x| - 1;
      ItemsInit(x, m);
      ItemsInit(y, m);
      ItemsStand(b, at, x, n);
      ItemsStand(b, at, y, n);
      ItemsUnique(b, at, x[..n], y[..n], m);
      var p := at + |EncodeItems(x[..n])|;
      DigestUnique(b, p, x[n], y[n], m);
      assert x == x[..n] + [x[n]] && y == y[..n] + [y[n]];
    }
  }

  lemma DigestUnique(b: seq<byte>, p: nat, d: Digest, f: Digest, m: Sizes)
    requires DigestOk(d, m) && DigestOk(f, m) && Stands(b, p, EncodeDigest(d)) && Stands(b, p, EncodeDigest(f))
    ensures d == f
  {
    hide Stands, LE16, U16;
    StandsSplit(b, p, LE16(d.algorithm), d.value);
    StandsSplit(b, p, LE16(f.algorithm), f.value);
    StandsU16(b, p, d.algorithm);
    StandsU16(b, p, f.algorithm);
    StandsUnique(b, p + 2, d.value, f.value);
  }

  /** If one well-formed log encodes a prefix of another, then its events are the first ones of the other. */
  lemma {:induction false} LogsNest(x: seq<Event>, y: seq<Event>)
    requires EventsOk(x) && EventsOk(y) && EncodeLog(x) <= EncodeLog(y)
    ensures x <= y
    decreases |x|
  {
    hide EventsOk, EventOk, EncodeEvent;
    if x != [] {
      var n := |x| - 1;
      PrefixOfEventsOk(x, n);
      assert EncodeLog(x) == EncodeLog(x[..n]) + EncodeEvent(x[n]);
      LogsNest(x[..n], y);
      LastNests(x, y, n);
    }
  }

  lemma LastNests(x: seq<Event>, y: seq<Event>, n: nat)
    requires EventsOk(x) && EventsOk(y) && EncodeLog(x) <= EncodeLog(y) && |x| == n + 1 && x[..n] <= y
    ensures x <= y
  {
    hide EventsOk, EventOk, EncodeLog, EncodeEvent, Format;
    var init, b := x[..n], EncodeLog(y);
    EventsTakeRoom(init, x);
    assert |y| == n ==> init == y;
    assert b[0..|EncodeLog(x)|] == EncodeLog(x);
    StandsMeans(b, 0, EncodeLog(x));
    LogStands(b, x, n);
    NextEvent(b, init, y);
    SameFormat(x, y, n);
    EventUnique(b, |EncodeLog(init)|, x[n], y[n], Format(init));
    assert x == init + [x[n]];
  }

  lemma PrefixOfEventsOk(x: seq<Event>, n: nat)
    requires EventsOk(x) && n <= |x|
    ensures EventsOk(x[..n])
  {
    hide EventOk, SpecificationOk, IsSpecification;
    if n > 0 {
      FormatOfPrefix(x[..n], x);
    }
  }

  lemma SameFormat(x: seq<Event>, y: seq<Event>, n: nat)
    requires EventsOk(x) && EventsOk(y) && n < |x| && n < |y| && x[..n] <= y
    ensures EventOk(x[n], Format(x[..n])) && EventOk(y[n], Format(x[..n]))
  {
    hide EventOk, SpecificationOk, IsSpecification;
    if n > 0 {
      FormatOfPrefix(x[..n], x);
      FormatOfPrefix(x[..n], y);
    }
  }

  /** An accepted log has one reading, and a shorter log that is accepted too ends on one of its event boundaries. */
  lemma AcceptedPrefix(b: seq<byte>, t: Target, p: seq<byte>, es: seq<Event>)
    requires LogOk(es, t) && EncodeLog(es) == b && p <= b && AcceptedLog(p, t)
    ensures exists k | 0 <= k <= |es| :: p == EncodeLog(es[..k]) && LogOk(es[..k], t)
  {
    hide EventsOk, EncodeLog, HasApplication, ApplicationOk, IsApplication;
    var fs :| LogOk(fs, t) && EncodeLog(fs) == p;
    LogsNest(fs, es);
    hide LogOk;
    assert fs == es[..|fs|];
  }
}
