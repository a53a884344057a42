// The measured boot log: legacy and crypto-agile event records, as sections 10.1 and 10.2
// of the TCG PC Client Platform Firmware Profile 1.05 lay them out.
module BootLog {
  import opened Bytes
  import opened Framing

  const MAX_LOG := 16 * 1024 * 1024
  const MAX_EVENTS := 65536
  const BOOT_APPLICATION := 0x8000_0003

  /** One tagged digest of a crypto-agile record. */
  datatype Digest = Digest(algorithm: nat, value: seq<byte>)

  datatype Digests = Sha1(value: seq<byte>) | Agile(items: seq<Digest>)

  datatype Event = Event(pcr: nat, kind: nat, digests: Digests, data: seq<byte>)

  /** The digest sizes that a specification event announces. */
  type Sizes = map<nat, nat>

  // The grammar.

  function EncodeDigest(d: Digest): seq<byte> {
    LE16(d.algorithm % 0x1_0000) + d.value
  }

  function EncodeItems(items: seq<Digest>): seq<byte> {
    if items == [] then [] else EncodeItems(items[..|items| - 1]) + EncodeDigest(items[|items| - 1])
  }

  function EncodeDigests(ds: Digests): seq<byte> {
    match ds
    case Sha1(value) => value
    case Agile(items) => LE(4, |items|) + EncodeItems(items)
  }

  function EncodeEvent(e: Event): seq<byte> {
    LE(4, e.pcr) + LE(4, e.kind) + EncodeDigests(e.digests) + LE(4, |e.data|) + e.data
  }

  function EncodeLog(es: seq<Event>): seq<byte> {
    if es == [] then [] else EncodeLog(es[..|es| - 1]) + EncodeEvent(es[|es| - 1])
  }

  predicate DigestOk(d: Digest, sizes: Sizes) {
    d.algorithm < 0x1_0000 && d.algorithm in sizes && |d.value| == sizes[d.algorithm]
  }

  predicate ItemsOk(items: seq<Digest>, sizes: Sizes) {
    && (forall i | 0 <= i < |items| :: DigestOk(items[i], sizes))
    && (forall i, j | 0 <= i < j < |items| :: items[i].algorithm != items[j].algorithm)
  }

  predicate DigestsOk(ds: Digests, sizes: Option<Sizes>) {
    match sizes
    case None => ds.Sha1? && |ds.value| == 20
    case Some(m) => ds.Agile? && 0 < |ds.items| <= |m| && |ds.items| < 0x1_0000_0000 && ItemsOk(ds.items, m)
  }

  predicate EventOk(e: Event, sizes: Option<Sizes>) {
    e.pcr <= 23 && e.kind < 0x1_0000_0000 && |e.data| < 0x1_0000_0000 && DigestsOk(e.digests, sizes)
  }

  // The specification event.

  const SIGNATURE: seq<byte> := // "Spec ID Event03\0"
    [0x53, 0x70, 0x65, 0x63, 0x20, 0x49, 0x44, 0x20, 0x45, 0x76, 0x65, 0x6e, 0x74, 0x30, 0x33, 0x00]

  predicate IsSpecification(kind: nat, data: seq<byte>) {
    kind == 3 && |data| >= 16 && data[..16] == SIGNATURE
  }

  function TableAlgorithm(data: seq<byte>, k: nat): nat
    requires 32 + 4 * k <= |data|
  {
    U16(data, 28 + 4 * k)
  }

  function TableSize(data: seq<byte>, k: nat): nat
    requires 32 + 4 * k <= |data|
  {
    U16(data, 30 + 4 * k)
  }

  /** The digest sizes in the first n entries of the table. */
  function Table(data: seq<byte>, n: nat): Sizes
    requires 28 + 4 * n <= |data|
  {
    if n == 0 then map[] else Table(data, n - 1)[TableAlgorithm(data, n - 1) := TableSize(data, n - 1)]
  }

  predicate TableOk(data: seq<byte>, n: nat)
    requires 28 + 4 * n <= |data|
  {
    && (forall k | 0 <= k < n :: 0 < TableSize(data, k) <= 128)
    && (forall j, k | 0 <= j < k < n :: TableAlgorithm(data, j) != TableAlgorithm(data, k))
  }

  predicate SpecificationHeaderOk(pcr: nat, digest: seq<byte>, data: seq<byte>) {
    && pcr == 0 && |data| >= 29 && digest == Zeros(20)
    && data[21] == 2 && (data[23] == 1 || data[23] == 2)
    && 0 < U32(data, 24) <= 16 && U32(data, 24) * 4 + 29 <= |data|
  }

  predicate SpecificationOk(e: Event) {
    && e.digests.Sha1? && SpecificationHeaderOk(e.pcr, e.digests.value, e.data)
    && var n := U32(e.data, 24);
       TableOk(e.data, n) && 28 + 4 * n + 1 + e.data[28 + 4 * n] == |e.data|
  }

  /** The record format of the events after the first one. */
  function Format(es: seq<Event>): Option<Sizes> {
    if |es| > 0 && IsSpecification(es[0].kind, es[0].data) && SpecificationOk(es[0])
    then Some(Table(es[0].data, U32(es[0].data, 24)))
    else None
  }

  /** A sequence of well-formed events: a specification event that comes first sets the format of the others. */
  predicate EventsOk(es: seq<Event>) {
    && (|es| > 0 ==> EventOk(es[0], None) && (IsSpecification(es[0].kind, es[0].data) ==> SpecificationOk(es[0])))
    && (forall i | 1 <= i < |es| :: EventOk(es[i], Format(es)))
  }

  // Encodings determine what they encode.

  lemma {:induction false} EncodeItemsAppend(items: seq<Digest>, d: Digest)
    ensures EncodeItems(items + [d]) == EncodeItems(items) + EncodeDigest(d)
  {
    assert (items + [d])[..|items|] == items;
  }

  lemma {:induction false} EncodeLogAppend(es: seq<Event>, e: Event)
    ensures EncodeLog(es + [e]) == EncodeLog(es) + EncodeEvent(e)
  {
    assert (es + [e])[..|es|] == es;
  }

  /** An encoded list that stands somewhere has every prefix and every item standing in its place. */
  lemma {:induction false} ItemsStand(b: seq<byte>, at: nat, items: seq<Digest>, k: nat)
    requires Stands(b, at, EncodeItems(items)) && k <= |items|
    ensures Stands(b, at, EncodeItems(items[..k]))
    ensures k < |items| ==> Stands(b, at + |EncodeItems(items[..k])|, EncodeDigest(items[k]))
    decreases |items|
  {
    hide EncodeDigest, Stands;
    if k == |items| {
      assert items[..k] == items;
    } else {
      var init, last := items[..|items| - 1], items[|items| - 1];
      StandsSplit(b, at, EncodeItems(init), EncodeDigest(last));
      if k < |init| {
        ItemsStand(b, at, init, k);
        assert init[..k] == items[..k];
      } else {
        assert items[..k] == init;
      }
    }
  }

  lemma {:induction false} LogStands(b: seq<byte>, es: seq<Event>, k: nat)
    requires Stands(b, 0, EncodeLog(es)) && k <= |es|
    ensures Stands(b, 0, EncodeLog(es[..k]))
    ensures k < |es| ==> Stands(b, |EncodeLog(es[..k])|, EncodeEvent(es[k]))
    decreases |es|
  {
    hide EncodeEvent, Stands;
    if k == |es| {
      assert es[..k] == es;
    } else {
      var init, last := es[..|es| - 1], es[|es| - 1];
      StandsSplit(b, 0, EncodeLog(init), EncodeEvent(last));
      if k < |init| {
        LogStands(b, init, k);
        assert init[..k] == es[..k];
      } else {
        assert es[..k] == init;
      }
    }
  }

  /** Where an event stands, its fields can be read off the buffer. */
  lemma EventFields(b: seq<byte>, at: nat, e: Event, sizes: Option<Sizes>)
    requires EventOk(e, sizes)
    ensures var n := |EncodeDigests(e.digests)|;
            Stands(b, at, EncodeEvent(e)) <==>
              && at + 8 + n + 4 <= |b|
              && U32(b, at) == e.pcr && U32(b, at + 4) == e.kind
              && Stands(b, at + 8, EncodeDigests(e.digests))
              && U32(b, at + 8 + n) == |e.data|
              && Stands(b, at + 12 + n, e.data)
  {
    hide Stands, U32, LE, EncodeDigests, DigestsOk;
    var p, k, d, l := LE(4, e.pcr), LE(4, e.kind), EncodeDigests(e.digests), LE(4, |e.data|);
    StandsSplit(b, at, p + k + d + l, e.data);
    StandsSplit(b, at, p + k + d, l);
    StandsSplit(b, at, p + k, d);
    StandsSplit(b, at, p, k);
    StandsU32(b, at, e.pcr);
    StandsU32(b, at + 4, e.kind);
    StandsU32(b, at + 8 + |d|, |e.data|);
  }

  // The record reader.

  method ReadU32(b: seq<byte>, at: nat) returns (r: Result<(nat, nat)>)
    ensures r.Ok? <==> at + 4 <= |b|
    ensures r.Ok? ==> r.value == (U32(b, at), at + 4)
  {
    if at + 4 > |b| {
      return Err("Truncated measured boot log");
    }
    return Ok((U32(b, at), at + 4));
  }

  method Skip(b: seq<byte>, at: nat, count: nat) returns (r: Result<nat>)
    requires at <= |b|
    ensures r.Ok? <==> at + count <= |b|
    ensures r.Ok? ==> r.value == at + count
  {
    if count > |b| - at {
      return Err("Measured boot event exceeds its buffer");
    }
    return Ok(at + count);
  }

  /** Any list of digests that could stand at the table begins with the items read so far. */
  ghost predicate OnlyWay(b: seq<byte>, at: nat, count: nat, sizes: Sizes, read: seq<Digest>) {
    forall items: seq<Digest> | |items| == count && ItemsOk(items, sizes) && Stands(b, at, EncodeItems(items)) ::
      |read| <= count && items[..|read|] == read
  }

  lemma NextDigest(b: seq<byte>, at: nat, count: nat, sizes: Sizes, read: seq<Digest>, items: seq<Digest>)
    requires |read| < count == |items| && ItemsOk(items, sizes) && Stands(b, at, EncodeItems(items))
    requires OnlyWay(b, at, count, sizes, read)
    ensures var p, d := at + |EncodeItems(read)|, items[|read|];
            && p + 2 <= |b| && U16(b, p) == d.algorithm && Stands(b, p + 2, d.value) && DigestOk(d, sizes)
            && forall i | 0 <= i < |read| :: read[i].algorithm != d.algorithm
  {
    hide EncodeItems, Stands, LE16, U16;
    var p, d := at + |EncodeItems(read)|, items[|read|];
    assert items[..|read|] == read;
    hide OnlyWay;
    ItemsStand(b, at, items, |read|);
    assert EncodeDigest(d) == LE16(d.algorithm) + d.value;
    StandsSplit(b, p, LE16(d.algorithm), d.value);
    StandsU16(b, p, d.algorithm);
    hide EncodeDigest;
    forall i | 0 <= i < |read|
      ensures read[i].algorithm != d.algorithm
    {
      assert read[i] == items[i];
    }
  }

  lemma TakeDigest(b: seq<byte>, at: nat, count: nat, sizes: Sizes, read: seq<Digest>, d: Digest)
    requires |read| < count && OnlyWay(b, at, count, sizes, read)
    requires var p := at + |EncodeItems(read)|;
             p + 2 <= |b| && U16(b, p) == d.algorithm && Stands(b, p + 2, d.value)
    requires d.algorithm in sizes && |d.value| == sizes[d.algorithm]
    ensures OnlyWay(b, at, count, sizes, read + [d])
  {
    hide EncodeItems, Stands, U16;
    forall items: seq<Digest> | |items| == count && ItemsOk(items, sizes) && Stands(b, at, EncodeItems(items))
      ensures items[..|read| + 1] == read + [d]
    {
      NextDigest(b, at, count, sizes, read, items);
      StandsUnique(b, at + |EncodeItems(read)| + 2, items[|read|].value, d.value);
      assert items[..|read|] == read by { assert OnlyWay(b, at, count, sizes, read); }
      assert items[|read|] == d;
      assert items[..|read| + 1] == items[..|read|] + [items[|read|]];
    }
  }

  lemma AppendStands(b: seq<byte>, at: nat, read: seq<Digest>, d: Digest)
    requires d.algorithm < 0x1_0000
    requires Stands(b, at, EncodeItems(read))
    requires var p := at + |EncodeItems(read)|;
             p + 2 <= |b| && U16(b, p) == d.algorithm && Stands(b, p + 2, d.value)
    ensures Stands(b, at, EncodeItems(read + [d]))
    ensures |EncodeItems(read + [d])| == |EncodeItems(read)| + 2 + |d.value|
  {
    hide Stands, EncodeItems, LE16, U16;
    var p := at + |EncodeItems(read)|;
    EncodeItemsAppend(read, d);
    StandsU16(b, p, d.algorithm);
    StandsSplit(b, p, LE16(d.algorithm), d.value);
    StandsSplit(b, at, EncodeItems(read), EncodeDigest(d));
  }

  /** A tagged digest of a known, unseen algorithm stands at the cursor. */
  predicate DigestAhead(b: seq<byte>, at: nat, sizes: Sizes, seen: set<nat>) {
    && at + 2 <= |b| && U16(b, at) in sizes && U16(b, at) !in seen
    && at + 2 + sizes[U16(b, at)] <= |b|
  }

  method ReadItem(b: seq<byte>, at: nat, sizes: Sizes, seen: set<nat>) returns (r: Result<(Digest, nat)>)
    requires at <= |b|
    ensures r.Ok? <==> DigestAhead(b, at, sizes, seen)
    ensures r.Ok? ==> && r.value.1 == at + 2 + sizes[U16(b, at)]
                      && r.value.0.algorithm == U16(b, at) && |r.value.0.value| == sizes[U16(b, at)]
                      && Stands(b, at + 2, r.value.0.value)
  {
    if at > |b| - 2 {
      return Err("Truncated digest algorithm");
    }
    var algorithm := U16(b, at);
    if algorithm !in sizes || algorithm in seen {
      return Err("Unknown or duplicate measured boot digest");
    }
    var next := Skip(b, at + 2, sizes[algorithm]);
    if next.Err? {
      return Err(next.message);
    }
    return Ok((Digest(algorithm, b[at + 2..next.value]), next.value));
  }

  function Algorithms(items: seq<Digest>): set<nat> {
    set d | d in items :: d.algorithm
  }

  lemma DigestMustStand(b: seq<byte>, start: nat, count: nat, sizes: Sizes, items: seq<Digest>)
    requires |items| < count && OnlyWay(b, start, count, sizes, items)
    ensures DigestAhead(b, start + |EncodeItems(items)|, sizes, Algorithms(items))
         || forall other | |other| == count && ItemsOk(other, sizes) :: !Stands(b, start, EncodeItems(other))
  {
    hide EncodeItems, U16, OnlyWay, ItemsOk;
    if other: seq<Digest> :| |other| == count && ItemsOk(other, sizes) && Stands(b, start, EncodeItems(other)) {
      NextDigest(b, start, count, sizes, items, other);
    }
  }

  lemma ItemsOkAppend(items: seq<Digest>, d: Digest, sizes: Sizes)
    requires ItemsOk(items, sizes) && DigestOk(d, sizes) && d.algorithm !in Algorithms(items)
    ensures ItemsOk(items + [d], sizes)
    ensures Algorithms(items + [d]) == Algorithms(items) + {d.algorithm}
  {
    assert forall x :: x in items + [d] <==> x in items || x == d;
    forall i | 0 <= i < |items|
      ensures items[i].algorithm != d.algorithm
    {
      assert items[i].algorithm in Algorithms(items);
    }
  }

  lemma NothingReadYet(b: seq<byte>, at: nat, count: nat, sizes: Sizes)
    requires at <= |b|
    ensures EncodeItems([]) == [] && Stands(b, at, EncodeItems([])) && OnlyWay(b, at, count, sizes, [])
    ensures ItemsOk([], sizes) && Algorithms([]) == {}
  {
  }

  /** Reads count tagged digests; refuses only when no well-formed list of that length stands there. */
  method ReadItems(b: seq<byte>, start: nat, count: nat, sizes: Sizes)
    returns (r: Result<nat>, ghost items: seq<Digest>)
    requires start <= |b|
    ensures r.Ok? ==> |items| == count && ItemsOk(items, sizes) && Stands(b, start, EncodeItems(items))
                      && r.value == start + |EncodeItems(items)| && OnlyWay(b, start, count, sizes, items)
    ensures r.Err? ==> forall other | |other| == count && ItemsOk(other, sizes) :: !Stands(b, start, EncodeItems(other))
  {
    hide Stands, EncodeItems, OnlyWay, ItemsOk, Algorithms, U16;
    items := [];
    NothingReadYet(b, start, count, sizes);
    var at, i, seen: set<nat> := start, 0, {};
    while i < count
      invariant 0 <= i == |items| <= count && at <= |b| && seen == Algorithms(items)
      invariant ItemsOk(items, sizes) && Stands(b, start, EncodeItems(items)) && at == start + |EncodeItems(items)|
      invariant OnlyWay(b, start, count, sizes, items)
    {
      DigestMustStand(b, start, count, sizes, items);
      var item := ReadItem(b, at, sizes, seen);
      if item.Err? {
        return Err(item.message), items;
      }
      ghost var d := item.value.0;
      TakeDigest(b, start, count, sizes, items, d);
      AppendStands(b, start, items, d);
      ItemsOkAppend(items, d, sizes);
      items, seen, at, i := items + [d], seen + {item.value.0.algorithm}, item.value.1, i + 1;
    }
    return Ok(at), items;
  }

  /** Digests read at the cursor are the only well-formed ones that stand there. */
  ghost predicate OnlyDigests(b: seq<byte>, at: nat, sizes: Option<Sizes>, found: Option<Digests>) {
    forall other: Digests | DigestsOk(other, sizes) && Stands(b, at, EncodeDigests(other)) :: found == Some(other)
  }

  method ReadAgile(b: seq<byte>, at: nat, m: Sizes) returns (r: Result<nat>, ghost ds: Digests)
    requires at <= |b|
    ensures r.Ok? ==> DigestsOk(ds, Some(m)) && Stands(b, at, EncodeDigests(ds)) && r.value == at + |EncodeDigests(ds)|
    ensures OnlyDigests(b, at, Some(m), if r.Ok? then Some(ds) else None)
  {
    hide Stands, EncodeItems, ItemsOk, U32, LE;
    ds := Agile([]);
    forall other: Digests | DigestsOk(other, Some(m)) && Stands(b, at, EncodeDigests(other))
      ensures at + 4 <= |b| && U32(b, at) == |other.items| && Stands(b, at + 4, EncodeItems(other.items))
    {
      StandsSplit(b, at, LE(4, |other.items|), EncodeItems(other.items));
      StandsU32(b, at, |other.items|);
    }
    var head := ReadU32(b, at);
    if head.Err? {
      return Err(head.message), ds;
    }
    var (count, start) := head.value;
    if count == 0 || count > |m| {
      return Err("Invalid measured boot digest count"), ds;
    }
    var body; ghost var items;
    body, items := ReadItems(b, start, count, m);
    if body.Err? {
      return Err(body.message), ds;
    }
    ds := Agile(items);
    StandsU32(b, at, count);
    StandsSplit(b, at, LE(4, count), EncodeItems(items));
    forall other: Digests | DigestsOk(other, Some(m)) && Stands(b, at, EncodeDigests(other))
      ensures other == ds
    {
      assert |other.items| == count && other.items[..count] == items;
    }
    return Ok(body.value), ds;
  }

  method ReadDigests(b: seq<byte>, at: nat, sizes: Option<Sizes>) returns (r: Result<nat>, ghost ds: Digests)
    requires at <= |b|
    ensures r.Ok? ==> DigestsOk(ds, sizes) && Stands(b, at, EncodeDigests(ds)) && r.value == at + |EncodeDigests(ds)|
    ensures OnlyDigests(b, at, sizes, if r.Ok? then Some(ds) else None)
  {
    if sizes.Some? {
      r, ds := ReadAgile(b, at, sizes.value);
    } else {
      r := Skip(b, at, 20);
      ds := Sha1(if at + 20 <= |b| then b[at..at + 20] else []);
    }
  }

  /** Where the fields of a record are. */
  datatype Record = Record(pcr: nat, kind: nat, digests: nat, data: nat, size: nat, next: nat)

  ghost predicate RecordOf(rec: Record, at: nat, e: Event) {
    && rec.pcr == e.pcr && rec.kind == e.kind && rec.digests == at + 8
    && rec.size == |e.data| && rec.data + rec.size == rec.next
    && rec.next == at + |EncodeEvent(e)|
  }

  ghost predicate OnlyEvent(b: seq<byte>, at: nat, sizes: Option<Sizes>, found: Option<Event>) {
    forall other: Event | EventOk(other, sizes) && Stands(b, at, EncodeEvent(other)) :: found == Some(other)
  }

  lemma EventLength(e: Event)
    ensures |EncodeEvent(e)| == 12 + |EncodeDigests(e.digests)| + |e.data|
  {
  }

  lemma EventMustStand(b: seq<byte>, at: nat, sizes: Option<Sizes>, other: Event)
    requires EventOk(other, sizes) && Stands(b, at, EncodeEvent(other))
    ensures at + 8 <= |b| && U32(b, at) == other.pcr <= 23 && U32(b, at + 4) == other.kind
    ensures Stands(b, at + 8, EncodeDigests(other.digests))
    ensures var n := at + 8 + |EncodeDigests(other.digests)|;
            n + 4 <= |b| && U32(b, n) == |other.data| && Stands(b, n + 4, other.data)
  {
    EventFields(b, at, other, sizes);
    hide Stands, EncodeDigests, U32;
  }

  /** Reads one record; refuses only when no well-formed event stands at the cursor. */
  method ReadEvent(b: seq<byte>, at: nat, sizes: Option<Sizes>) returns (r: Result<Record>, ghost e: Event)
    requires at <= |b|
    ensures r.Ok? ==> EventOk(e, sizes) && Stands(b, at, EncodeEvent(e)) && RecordOf(r.value, at, e)
    ensures OnlyEvent(b, at, sizes, if r.Ok? then Some(e) else None)
  {
    hide Stands, EncodeDigests, U32, EncodeEvent, DigestsOk;
    e := Event(0, 0, Sha1([]), []);
    forall other: Event | EventOk(other, sizes) && Stands(b, at, EncodeEvent(other))
      ensures at + 8 <= |b| && U32(b, at) == other.pcr <= 23 && U32(b, at + 4) == other.kind
      ensures Stands(b, at + 8, EncodeDigests(other.digests))
      ensures var n := at + 8 + |EncodeDigests(other.digests)|;
              n + 4 <= |b| && U32(b, n) == |other.data| && Stands(b, n + 4, other.data)
    {
      EventMustStand(b, at, sizes, other);
    }
    var p := ReadU32(b, at);
    if p.Err? {
      return Err(p.message), e;
    }
    var k := ReadU32(b, p.value.1);
    if k.Err? {
      return Err(k.message), e;
    }
    if p.value.0 > 23 {
      return Err("Invalid measured boot PCR index"), e;
    }
    var d; ghost var ds;
    d, ds := ReadDigests(b, at + 8, sizes);
    if d.Err? {
      return Err(d.message), e;
    }
    r, e := ReadData(b, at, sizes, p.value.0, k.value.0, d.value, ds);
  }

  /** The tail of a record: its length field and its data. */
  method ReadData(b: seq<byte>, at: nat, sizes: Option<Sizes>, pcr: nat, kind: nat, from: nat, ghost ds: Digests)
    returns (r: Result<Record>, ghost e: Event)
    requires at + 8 <= from <= |b| && pcr == U32(b, at) <= 23 && kind == U32(b, at + 4)
    requires DigestsOk(ds, sizes) && Stands(b, at + 8, EncodeDigests(ds)) && from == at + 8 + |EncodeDigests(ds)|
    requires OnlyDigests(b, at + 8, sizes, Some(ds))
    ensures r.Ok? ==> EventOk(e, sizes) && Stands(b, at, EncodeEvent(e)) && RecordOf(r.value, at, e)
    ensures OnlyEvent(b, at, sizes, if r.Ok? then Some(e) else None)
  {
    hide Stands, EncodeDigests, U32, EncodeEvent, DigestsOk;
    e := Event(pcr, kind, ds, []);
    forall other: Event | EventOk(other, sizes) && Stands(b, at, EncodeEvent(other))
      ensures other.pcr == pcr && other.kind == kind && other.digests == ds
      ensures from + 4 <= |b| && U32(b, from) == |other.data| && Stands(b, from + 4, other.data)
    {
      EventMustStand(b, at, sizes, other);
    }
    var s := ReadU32(b, from);
    if s.Err? {
      return Err(s.message), e;
    }
    var (size, data) := s.value;
    var next := Skip(b, data, size);
    forall other: Event | EventOk(other, sizes) && Stands(b, at, EncodeEvent(other))
      ensures next.Ok? && other.data == b[data..data + size]
    {
      StandsMeans(b, data, other.data);
    }
    if next.Err? {
      return Err(next.message), e;
    }
    e := Event(pcr, kind, ds, b[data..data + size]);
    StandsSlice(b, data, size);
    EventFields(b, at, e, sizes);
    EventLength(e);
    return Ok(Record(pcr, kind, at + 8, data, size, next.value)), e;
  }
}
