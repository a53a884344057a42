// The journal file with its two rotating head anchors, and the journal opened on it.
module JournalStore {
  import opened Bytes
  import opened JournalReplay
  import opened JournalTheorems

  const U64_LIMIT := 0x1_0000_0000_0000_0000

  /** What the serialization and the digest are relied on for. */
  ghost predicate Sound(c: Codec) {
    && (forall e :: c.decode(c.encode(e)) == Some(e) && NEWLINE !in c.encode(e) && c.encode(e) != [])
    && (forall a :: c.decodeAnchor(c.encodeAnchor(a)) == Some(a))
    && (forall m :: |c.digest(m)| == 64)
  }

  /** The log and the two anchor files; a missing file is None. */
  datatype Disk = Disk(log: Option<seq<byte>>, slot0: Option<seq<byte>>, slot1: Option<seq<byte>>)

  function ReadAnchor(c: Codec, raw: Option<seq<byte>>): Option<Anchor> {
    if raw.Some? && c.decodeAnchor(raw.value).Some? && ValidAnchor(c, c.decodeAnchor(raw.value).value)
    then c.decodeAnchor(raw.value) else None
  }

  /** The anchor of the later generation; the second file wins a tie. */
  function Newest(a: Option<Anchor>, b: Option<Anchor>): Option<Anchor> {
    if a.None? then b else if b.None? then a
    else if b.value.generation >= a.value.generation then b else a
  }

  /** The anchor that is found: the second file's if it reads and the first one's does not or is no later. */
  lemma NewestExact(c: Codec, d: Disk, a: Anchor)
    ensures AnchorOf(c, d) == Some(a) <==>
            || (Reads(c, d.slot1, a) && forall b | Reads(c, d.slot0, b) :: b.generation <= a.generation)
            || (Reads(c, d.slot0, a) && forall b | Reads(c, d.slot1, b) :: b.generation < a.generation)
  {
    assert ReadAnchor(c, d.slot0).Some? ==> Reads(c, d.slot0, ReadAnchor(c, d.slot0).value);
    assert ReadAnchor(c, d.slot1).Some? ==> Reads(c, d.slot1, ReadAnchor(c, d.slot1).value);
  }

  /** The file holds this anchor, of version 1 and under its digest. */
  predicate Reads(c: Codec, raw: Option<seq<byte>>, a: Anchor) {
    && raw.Some? && c.decodeAnchor(raw.value) == Some(a)
    && a.schema == 1 && |a.head| == 64 && a.hash == c.digestAnchor(1, a.generation, a.count, a.head)
  }

  function LogOf(d: Disk): seq<byte> {
    if d.log.Some? then d.log.value else []
  }

  function AnchorOf(c: Codec, d: Disk): Option<Anchor> {
    Newest(ReadAnchor(c, d.slot0), ReadAnchor(c, d.slot1))
  }

  function Reopened(c: Codec, d: Disk): Result<Progress> {
    Replay(c, LogOf(d), AnchorOf(c, d))
  }

  function NewAnchor(c: Codec, generation: nat, count: nat, head: string): Anchor {
    Anchor(SCHEMA_VERSION, generation, count, head, c.digestAnchor(SCHEMA_VERSION, generation, count, head))
  }

  function NewEntry(c: Codec, sequence: nat, operation: Id, plan: Id, previous: Option<string>, event: Event, now: nat)
    : Entry
  {
    var m := Material(SCHEMA_VERSION, sequence, operation, plan, now, previous, event);
    Entry(m, c.digest(m))
  }

  /**
   * Where a commit stops, by an error or because the machine does. Before the log is synced, any
   * tail may stand behind its old content; before the anchor file is synced, it may hold anything.
   */
  datatype Fault = Fine | InLog(tail: seq<byte>) | BeforeHead | InHead(raw: seq<byte>)

  /** A torn anchor file reads as no anchor, unless it is the new one after all. */
  predicate Tears(c: Codec, a: Anchor, f: Fault) {
    f.InHead? ==> ReadAnchor(c, Some(f.raw)).None? || ReadAnchor(c, Some(f.raw)) == Some(a)
  }

  function WithSlot(d: Disk, slot: nat, raw: seq<byte>): Disk {
    if slot == 0 then d.(slot0 := Some(raw)) else d.(slot1 := Some(raw))
  }

  /** The files after a commit that stopped there. */
  function Committed(c: Codec, d: Disk, record: seq<byte>, a: Anchor, f: Fault): Disk {
    var slot, raw := a.generation % 2, c.encodeAnchor(a);
    var logged := d.(log := Some(LogOf(d) + record));
    match f
    case InLog(tail) => d.(log := Some(LogOf(d) + tail))
    case BeforeHead => logged
    case InHead(torn) => WithSlot(logged, slot, torn)
    case Fine => WithSlot(logged, slot, raw)
  }

  class FileStorage {
    var disk: Disk
    var generation: Option<nat>

    constructor (disk: Disk)
      ensures this.disk == disk && generation == None
    {
      this.disk, generation := disk, None;
    }

    method Load(c: Codec) returns (bytes: seq<byte>, anchor: Option<Anchor>)
      modifies `generation
      ensures bytes == LogOf(disk) && anchor == AnchorOf(c, disk)
      ensures generation == if anchor.Some? then Some(anchor.value.generation) else None
    {
      bytes := if disk.log.Some? then disk.log.value else [];
      anchor := Newest(ReadAnchor(c, disk.slot0), ReadAnchor(c, disk.slot1));
      generation := if anchor.Some? then Some(anchor.value.generation) else None;
    }

    method Commit(c: Codec, record: seq<byte>, a: Anchor, f: Fault) returns (ok: bool)
      modifies this
      ensures ok <==> f.Fine?
      ensures disk == Committed(c, old(disk), record, a, f)
      ensures ok ==> disk.log == Some(LogOf(old(disk)) + record)
      ensures ok && a.generation % 2 == 0 ==> disk.slot0 == Some(c.encodeAnchor(a)) && disk.slot1 == old(disk).slot1
      ensures ok && a.generation % 2 == 1 ==> disk.slot1 == Some(c.encodeAnchor(a)) && disk.slot0 == old(disk).slot0
    {
      disk := disk.(log := Some(LogOf(disk)));
      if f.InLog? {
        disk := disk.(log := Some(disk.log.value + f.tail));
        return false;
      }
      disk := disk.(log := Some(disk.log.value + record));
      if f.BeforeHead? {
        return false;
      }
      var slot, encoded := a.generation % 2, c.encodeAnchor(a);
      disk := WithSlot(disk, slot, []);
      disk := WithSlot(disk, slot, if f.InHead? then f.raw else encoded);
      if f.InHead? {
        return false;
      }
      generation := Some(a.generation);
      return true;
    }
  }

  // Logs laid one behind the other.

  lemma {:induction false} LineEndInside(b: seq<byte>, t: seq<byte>, i: nat)
    requires b != [] && b[|b| - 1] == NEWLINE && i < |b|
    ensures LineEnd(b + t, i) == LineEnd(b, i) < |b|
    decreases |b| - i
  {
    if b[i] != NEWLINE {
      LineEndInside(b, t, i + 1);
    }
  }

  lemma {:induction false} LineEndBehind(b: seq<byte>, t: seq<byte>, i: nat)
    requires i <= |t|
    ensures LineEnd(b + t, |b| + i) == |b| + LineEnd(t, i)
    decreases |t| - i
  {
    if i < |t| && t[i] != NEWLINE {
      LineEndBehind(b, t, i + 1);
    }
  }

  lemma SliceBehind<T>(b: seq<T>, t: seq<T>, i: nat, e: nat)
    requires i <= e <= |t|
    ensures (b + t)[|b| + i..|b| + e] == t[i..e]
  {
  }

  lemma SliceInside<T>(b: seq<T>, t: seq<T>, i: nat, e: nat)
    requires i <= e <= |b|
    ensures (b + t)[i..e] == b[i..e]
  {
  }

  lemma {:induction false} LinesBehind(b: seq<byte>, t: seq<byte>, i: nat)
    requires i <= |t|
    ensures Lines(b + t, |b| + i) == Lines(t, i)
    decreases |t| - i
  {
    hide Lines, LineEnd;
    if i == |t| {
      NoLine(t);
      NoLine(b + t);
    } else {
      LineEndBehind(b, t, i);
      FirstLine(b + t, |b| + i);
      FirstLine(t, i);
      var e := LineEnd(t, i);
      SliceBehind(b, t, i, e);
      if e < |t| {
        LinesBehind(b, t, e + 1);
      }
    }
  }

  predicate Complete(b: seq<byte>) {
    b == [] || b[|b| - 1] == NEWLINE
  }

  lemma {:induction false} LinesInside(b: seq<byte>, t: seq<byte>, i: nat)
    requires Complete(b) && i <= |b|
    ensures Lines(b + t, i) == Lines(b, i) + Lines(t, 0)
    decreases |b| - i
  {
    hide Lines, LineEnd;
    if i == |b| {
      NoLine(b);
      LinesBehind(b, t, 0);
    } else {
      LineEndInside(b, t, i);
      FirstLine(b + t, i);
      FirstLine(b, i);
      var e := LineEnd(b, i);
      SliceInside(b, t, i, e);
      LinesInside(b, t, e + 1);
      Regroup([b[i..e]], Lines(b, e + 1), Lines(t, 0));
    }
  }

  lemma {:induction false} OneLineEnd(line: seq<byte>, i: nat)
    requires NEWLINE !in line && i <= |line|
    ensures LineEnd(line + [NEWLINE], i) == |line|
    decreases |line| - i
  {
    if i < |line| {
      OneLineEnd(line, i + 1);
    }
  }

  lemma OneLine(line: seq<byte>)
    requires NEWLINE !in line
    ensures Lines(line + [NEWLINE], 0) == [line]
  {
    OneLineEnd(line, 0);
    assert (line + [NEWLINE])[0..|line|] == line;
  }

  /** Appending the record of an entry that may come next replays to the progress with that entry. */
  lemma RecordExtends(c: Codec, b: seq<byte>, p: Progress, e: Entry)
    requires Sound(c) && Complete(b) && Fold(c, Lines(b, 0)) == Ok(p)
    requires TakeEntry(c, p, e).Ok? && |c.encode(e)| <= MAX_ENTRY_BYTES
    ensures var next := b + (c.encode(e) + [NEWLINE]);
            Complete(next) && next != [] && Fold(c, Lines(next, 0)) == TakeEntry(c, p, e)
  {
    var line := c.encode(e);
    OneLine(line);
    LinesInside(b, line + [NEWLINE], 0);
    hide Lines, TakeEntry, Fold;
    FoldNext(c, Lines(b, 0), line);
  }

  // Agreement of memory and disk.

  /** A disk that replays, whatever its size, to this report under an anchor of this generation. */
  ghost predicate Agree(c: Codec, d: Disk, p: Progress, generation: nat) {
    && AnchorOf(c, d).Some? && AnchorOf(c, d).value.generation == generation
    && ReplayAnySize(c, LogOf(d), AnchorOf(c, d)) == Ok(p)
  }

  /** Every anchor on the disk is one generation behind its entry count. */
  predicate Counted(c: Codec, d: Disk) {
    && (ReadAnchor(c, d.slot0).Some? ==> ReadAnchor(c, d.slot0).value.generation + 1 == ReadAnchor(c, d.slot0).value.count)
    && (ReadAnchor(c, d.slot1).Some? ==> ReadAnchor(c, d.slot1).value.generation + 1 == ReadAnchor(c, d.slot1).value.count)
  }

  /** Reopening yields the report in memory, up to the size limit that only opening checks. */
  lemma ReopensAlike(c: Codec, d: Disk, p: Progress, generation: nat)
    requires Agree(c, d, p, generation)
    ensures Reopened(c, d) == if |LogOf(d)| > MAX_JOURNAL_BYTES then Err("too large") else Ok(p)
  {
  }

  /** The old report behind a log: none for an empty log. */
  predicate Stands(c: Codec, d: Disk, p: Progress) {
    Complete(LogOf(d)) && Fold(c, Lines(LogOf(d), 0)) == Ok(p)
  }

  predicate Extension(c: Codec, p: Progress, e: Entry, q: Progress) {
    TakeEntry(c, p, e) == Ok(q) && |c.encode(e)| <= MAX_ENTRY_BYTES && |e.hash| == 64
  }

  function RecordOf(c: Codec, e: Entry): seq<byte> {
    c.encode(e) + [NEWLINE]
  }

  lemma LogAfter(c: Codec, d: Disk, record: seq<byte>, a: Anchor, f: Fault)
    requires !f.InLog?
    ensures LogOf(Committed(c, d, record, a, f)) == LogOf(d) + record
  {
  }

  lemma TakenLast(c: Codec, p: Progress, e: Entry, q: Progress)
    requires TakeEntry(c, p, e) == Ok(q)
    ensures q.entries == p.entries + [e]
  {
  }

  /** A newer anchor that was written whole is the one found. */
  lemma AnchorAfter(c: Codec, d: Disk, record: seq<byte>, generation: nat, count: nat, head: string)
    requires Sound(c) && |head| == 64
    requires AnchorOf(c, d).Some? ==> AnchorOf(c, d).value.generation < generation
    ensures var a := NewAnchor(c, generation, count, head);
            AnchorOf(c, Committed(c, d, record, a, Fine)) == Some(a)
            && a.generation == generation && a.count == count && a.head == head
  {
  }

  lemma CommitAgrees(c: Codec, d: Disk, p: Progress, e: Entry, q: Progress, generation: nat)
    requires Sound(c) && Stands(c, d, p) && Extension(c, p, e, q)
    requires AnchorOf(c, d).Some? ==> AnchorOf(c, d).value.generation < generation
    ensures var a := NewAnchor(c, generation, |q.entries|, e.hash);
            Agree(c, Committed(c, d, RecordOf(c, e), a, Fine), q, generation)
  {
    hide Lines, Fold, TakeEntry, Committed, AnchorOf;
    var a := NewAnchor(c, generation, |q.entries|, e.hash);
    RecordExtends(c, LogOf(d), p, e);
    LogAfter(c, d, RecordOf(c, e), a, Fine);
    AnchorAfter(c, d, RecordOf(c, e), generation, |q.entries|, e.hash);
    TakenLast(c, p, e, q);
  }

  /** The files a crash leaves replay to the old report, to the new one, or not at all. */
  lemma CrashIsSafe(c: Codec, d: Disk, p: Progress, e: Entry, q: Progress, a: Anchor, f: Fault)
    requires Sound(c) && Stands(c, d, p) && Extension(c, p, e, q)
    requires LogOf(d) != [] ==> AnchorOf(c, d).Some? && AnchorOf(c, d).value.count == |p.entries|
    requires LogOf(d) == [] ==> AnchorOf(c, d).None?
    ensures var r := Reopened(c, Committed(c, d, RecordOf(c, e), a, f));
            r.Ok? ==> r.value == q || (r.value == p && p.entries != [])
  {
    if f.InLog? {
      TornLog(c, d, p, f.tail);
    } else {
      RecordExtends(c, LogOf(d), p, e);
      hide Lines, Fold, TakeEntry, Sound, Anchored;
    }
  }

  /** No readable anchor counts more than n entries. */
  predicate NoneAhead(c: Codec, d: Disk, n: nat) {
    && (ReadAnchor(c, d.slot0).Some? ==> ReadAnchor(c, d.slot0).value.count <= n)
    && (ReadAnchor(c, d.slot1).Some? ==> ReadAnchor(c, d.slot1).value.count <= n)
  }

  /** The anchor of this commit is in its file, whether or not the commit was told so. */
  predicate Arrived(c: Codec, a: Anchor, f: Fault) {
    f.Fine? || (f.InHead? && ReadAnchor(c, Some(f.raw)) == Some(a))
  }

  /** What a journal with this report, or a blank one, opens with after a commit of e that stopped there. */
  predicate Survives(c: Codec, d: Disk, e: Entry, a: Anchor, f: Fault) {
    if f.InLog? then f.tail == [] && 0 < |LogOf(d)| <= MAX_JOURNAL_BYTES
    else Arrived(c, a, f) && |LogOf(d)| + |RecordOf(c, e)| <= MAX_JOURNAL_BYTES
  }

  lemma AnchorsBehind(c: Codec, d: Disk, record: seq<byte>, n: nat, a: Anchor, f: Fault)
    requires Sound(c) && NoneAhead(c, d, n) && a.count == n + 1 && ValidAnchor(c, a) && Tears(c, a, f) && !f.InLog?
    requires AnchorOf(c, d).Some? ==> AnchorOf(c, d).value.generation < a.generation
    ensures var found := AnchorOf(c, Committed(c, d, record, a, f));
            if Arrived(c, a, f) then found == Some(a) else found.None? || found.value.count <= n
  {
    hide ValidAnchor;
  }

  /**
   * After a commit that stopped anywhere, the journal opens exactly if no byte reached the log, and then with
   * the old report, or if the anchor arrived, and then with the new one; in between it never does.
   */
  lemma CrashExact(c: Codec, d: Disk, p: Progress, e: Entry, q: Progress, generation: nat, f: Fault)
    requires Sound(c) && Stands(c, d, p) && Extension(c, p, e, q) && NoneAhead(c, d, |p.entries|)
    requires LogOf(d) == [] ==> AnchorOf(c, d).None?
    requires LogOf(d) != [] ==> ReplayAnySize(c, LogOf(d), AnchorOf(c, d)) == Ok(p)
    requires AnchorOf(c, d).Some? ==> AnchorOf(c, d).value.generation < generation
    requires Tears(c, NewAnchor(c, generation, |q.entries|, e.hash), f)
    ensures var a := NewAnchor(c, generation, |q.entries|, e.hash);
            var r := Reopened(c, Committed(c, d, RecordOf(c, e), a, f));
            && (r.Ok? <==> Survives(c, d, e, a, f))
            && (r.Ok? ==> r.value == if f.InLog? then p else q)
  {
    var a := NewAnchor(c, generation, |q.entries|, e.hash);
    if f.InLog? {
      TornLog(c, d, p, f.tail);
      hide Sound, Lines, Fold, TakeEntry, Anchored;
      assert LogOf(d) + [] == LogOf(d);
    } else {
      hide Sound, Lines, Fold, TakeEntry, Committed;
      TakenLast(c, p, e, q);
      RecordExtends(c, LogOf(d), p, e);
      LogAfter(c, d, RecordOf(c, e), a, f);
      AnchorsBehind(c, d, RecordOf(c, e), |p.entries|, a, f);
    }
  }

  /** No bytes behind a log fit its anchor. */
  lemma TornLog(c: Codec, d: Disk, p: Progress, tail: seq<byte>)
    requires Stands(c, d, p)
    requires LogOf(d) != [] ==> AnchorOf(c, d).Some? && AnchorOf(c, d).value.count == |p.entries|
    requires LogOf(d) == [] ==> AnchorOf(c, d).None?
    ensures var r := Replay(c, LogOf(d) + tail, AnchorOf(c, d)); r.Ok? ==> r.value == p && p.entries != [] && tail == []
  {
    var b := LogOf(d);
    var r := Replay(c, b + tail, AnchorOf(c, d));
    if r.Ok? {
      LinesInside(b, tail, 0);
      FoldSound(c, Lines(b, 0));
      FoldSound(c, Lines(b + tail, 0));
      assert |r.value.entries| == |p.entries| + |Lines(tail, 0)|;
      assert tail == [];
      assert b + tail == b;
    }
  }

  lemma DuplicateRefused(c: Codec, b: seq<byte>, q: Progress, e: Entry)
    requires Sound(c) && Complete(b) && Fold(c, Lines(b, 0)) == Ok(q) && e.content.sequence + 1 == |q.entries|
    ensures Fold(c, Lines(b + RecordOf(c, e), 0)).Err?
  {
    hide Lines, Fold;
    OneLine(c.encode(e));
    LinesInside(b, RecordOf(c, e), 0);
    FoldNext(c, Lines(b, 0), c.encode(e));
  }

  /** The beginning of one record and another record do not parse as one. */
  ghost predicate NeverJoins(c: Codec) {
    forall e, e', n | 0 < n <= |c.encode(e)| :: c.decode(c.encode(e)[..n] + c.encode(e')) == None
  }

  lemma JoinedRefused(c: Codec, b: seq<byte>, p: Progress, e: Entry, n: nat, e': Entry)
    requires Sound(c) && NeverJoins(c) && Complete(b) && Fold(c, Lines(b, 0)) == Ok(p) && 0 < n <= |c.encode(e)|
    ensures Fold(c, Lines(b + (c.encode(e)[..n] + RecordOf(c, e')), 0)).Err?
  {
    var line := c.encode(e)[..n] + c.encode(e');
    assert c.encode(e)[..n] + RecordOf(c, e') == line + [NEWLINE];
    assert NEWLINE !in c.encode(e)[..n];
    assert line != [];
    OneLine(line);
    LinesInside(b, line + [NEWLINE], 0);
    FoldNext(c, Lines(b, 0), line);
    hide Lines, Fold, Sound;
  }

  /** After a commit of e that stopped there, the log replays no entry in the place of e. */
  lemma TornRefuses(c: Codec, d: Disk, p: Progress, e: Entry, q: Progress, a: Anchor, f: Fault, e': Entry)
    requires Sound(c) && NeverJoins(c) && Stands(c, d, p) && Extension(c, p, e, q) && e'.content.sequence == |p.entries|
    requires f.InLog? ==> f.tail <= RecordOf(c, e) && f.tail != []
    ensures Fold(c, Lines(LogOf(Committed(c, d, RecordOf(c, e), a, f)) + RecordOf(c, e'), 0)).Err?
  {
    var b := LogOf(d);
    if f.InLog? && |f.tail| <= |c.encode(e)| {
      assert f.tail == c.encode(e)[..|f.tail|];
      assert b + f.tail + RecordOf(c, e') == b + (f.tail + RecordOf(c, e'));
      JoinedRefused(c, b, p, e, |f.tail|, e');
    } else {
      assert f.InLog? ==> f.tail == RecordOf(c, e);
      assert LogOf(Committed(c, d, RecordOf(c, e), a, f)) == b + RecordOf(c, e);
      RecordExtends(c, b, p, e);
      hide Lines, Fold, Sound;
      DuplicateRefused(c, b + RecordOf(c, e), q, e');
    }
  }

  /**
   * Why a failed commit ends the run: appending another entry in its place makes a journal that opens again
   * exactly if not one byte of the failed record reached the log (and the log is within its limit).
   */
  lemma RetryExact(c: Codec, d: Disk, p: Progress, e: Entry, q: Progress, a: Anchor, f: Fault,
                   e': Entry, q': Progress, generation: nat)
    requires Sound(c) && NeverJoins(c) && Stands(c, d, p) && Extension(c, p, e, q) && Extension(c, p, e', q')
    requires AnchorOf(c, d).Some? ==> AnchorOf(c, d).value.generation < generation
    requires !f.Fine? && (f.InLog? ==> f.tail <= RecordOf(c, e))
    ensures var torn := Committed(c, d, RecordOf(c, e), a, f);
            var after := Committed(c, torn, RecordOf(c, e'), NewAnchor(c, generation, |q'.entries|, e'.hash), Fine);
            && (Reopened(c, after).Ok? <==> f == InLog([]) && |LogOf(d)| + |RecordOf(c, e')| <= MAX_JOURNAL_BYTES)
            && (Reopened(c, after).Ok? ==> Reopened(c, after) == Ok(q'))
  {
    var torn := Committed(c, d, RecordOf(c, e), a, f);
    var a' := NewAnchor(c, generation, |q'.entries|, e'.hash);
    LogAfter(c, torn, RecordOf(c, e'), a', Fine);
    if f == InLog([]) {
      assert LogOf(torn) == LogOf(d) && AnchorOf(c, torn) == AnchorOf(c, d);
      CommitAgrees(c, torn, p, e', q', generation);
      hide Sound, Lines, Fold, TakeEntry, Committed, ReplayAnySize;
      ReopensAlike(c, Committed(c, torn, RecordOf(c, e'), a', Fine), q', generation);
    } else {
      TornRefuses(c, d, p, e, q, a, f, e');
      hide Sound, Lines, Fold, TakeEntry, Committed;
    }
  }
}
