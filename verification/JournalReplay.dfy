// The operation journal: hash-chained entries, the replay that accepts them, and their head anchor.
module JournalReplay {
  import opened Bytes

  const SCHEMA_VERSION := 1
  const MAX_ENTRY_BYTES := 16 * 1024
  const MAX_JOURNAL_BYTES := 64 * 1024 * 1024
  const NEWLINE: byte := 10

  type Code = string

  predicate ValidIdentifier(value: string) {
    && 1 <= |value| <= 96
    && forall i | 0 <= i < |value| :: IdentifierChar(value[i])
  }

  predicate IdentifierChar(c: char) {
    'a' <= c <= 'z' || 'A' <= c <= 'Z' || '0' <= c <= '9' || c in {'.', '_', ':', '-'}
  }

  datatype CheckpointState = Prepared | Applied | Verified

  const LIFECYCLE := [Prepared, Applied, Verified]

  function Ordinal(s: CheckpointState): (o: nat)
    ensures o < 3 && LIFECYCLE[o] == s
  {
    match s case Prepared => 0 case Applied => 1 case Verified => 2
  }

  datatype TerminalState = Succeeded | Failed(code: Code) | Cancelled(code: Code)

  datatype Event = Started | Checkpoint(step: Code, state: CheckpointState) | Terminal(end: TerminalState)

  predicate ValidEvent(e: Event) {
    match e
    case Started => true
    case Checkpoint(step, _) => ValidIdentifier(step)
    case Terminal(end) => end.Succeeded? || ValidIdentifier(end.code)
  }

  type Id = nat

  /** What the digest of an entry covers. */
  datatype Material = Material(schema: nat, sequence: nat, operation: Id, plan: Id, recorded: nat,
                               previous: Option<string>, event: Event)

  datatype Entry = Entry(content: Material, hash: string)

  datatype Anchor = Anchor(schema: nat, generation: nat, count: nat, head: string, hash: string)

  /** The serialization and the digest, which are not modelled further. */
  datatype Codec = Codec(
    encode: Entry -> seq<byte>,
    decode: seq<byte> -> Option<Entry>,
    digest: Material -> string,
    encodeAnchor: Anchor -> seq<byte>,
    decodeAnchor: seq<byte> -> Option<Anchor>,
    digestAnchor: (nat, nat, nat, string) -> string)

  // Lines.

  /** The first newline at or after i, or the end. */
  function LineEnd(b: seq<byte>, i: nat): (e: nat)
    requires i <= |b|
    ensures i <= e <= |b| && (e < |b| ==> b[e] == NEWLINE)
    decreases |b| - i
  {
    if i == |b| || b[i] == NEWLINE then i else LineEnd(b, i + 1)
  }

  lemma {:induction false} LineEndsAt(b: seq<byte>, i: nat, k: nat)
    requires i <= k < |b| && b[k] == NEWLINE
    ensures LineEnd(b, i) <= k
    decreases k - i
  {
    if b[i] != NEWLINE {
      LineEndsAt(b, i + 1, k);
    }
  }

  /** The newline-terminated lines of b from i on, without their newlines. */
  function Lines(b: seq<byte>, i: nat): seq<seq<byte>>
    requires i <= |b|
    decreases |b| - i
  {
    if i == |b| then []
    else
      var e := LineEnd(b, i);
      [b[i..e]] + if e == |b| then [] else Lines(b, e + 1)
  }

  lemma NoLine(b: seq<byte>)
    ensures Lines(b, |b|) == []
  {
  }

  lemma FirstLine(b: seq<byte>, i: nat)
    requires i < |b|
    ensures LineEnd(b, i) == |b| ==> Lines(b, i) == [b[i..LineEnd(b, i)]]
    ensures LineEnd(b, i) < |b| ==> Lines(b, i) == [b[i..LineEnd(b, i)]] + Lines(b, LineEnd(b, i) + 1)
  {
    hide LineEnd;
    var line := [b[i..LineEnd(b, i)]];
    assert line + [] == line;
  }

  // Replay.

  datatype State = Active | Ended(end: TerminalState)

  datatype Progress = Progress(entries: seq<Entry>, checkpoints: map<Code, CheckpointState>, state: State)

  const NOTHING := Progress([], map[], Active)

  function Apply(e: Event, checkpoints: map<Code, CheckpointState>, state: State)
    : Result<(map<Code, CheckpointState>, State)>
  {
    match e
    case Started => Ok((checkpoints, state))
    case Checkpoint(step, next) =>
      if Ordinal(next) != (if step in checkpoints then Ordinal(checkpoints[step]) + 1 else 0)
      then Err("checkpoint") else Ok((checkpoints[step := next], state))
    case Terminal(end) => Ok((checkpoints, Ended(end)))
  }

  function Head(entries: seq<Entry>): Option<string> {
    if entries == [] then None else Some(entries[|entries| - 1].hash)
  }

  /** The entry may come next. */
  function Check(c: Codec, p: Progress, e: Entry): Result<()> {
    var m := e.content;
    if !ValidEvent(m.event) then Err("identifier")
    else if m.schema != SCHEMA_VERSION then Err("schema")
    else if m.sequence != |p.entries| then Err("sequence")
    else if p.entries == [] && (m.previous.Some? || !m.event.Started?) then Err("start")
    else if p.entries != [] && (m.operation != p.entries[0].content.operation || m.plan != p.entries[0].content.plan)
    then Err("identity")
    else if p.entries != [] && m.event.Started? then Err("start")
    else if p.entries != [] && p.state.Ended? then Err("after end")
    else if m.previous != Head(p.entries) || c.digest(m) != e.hash then Err("hash")
    else Ok(())
  }

  function TakeEntry(c: Codec, p: Progress, e: Entry): Result<Progress> {
    match Check(c, p, e)
    case Err(m) => Err(m)
    case Ok(_) =>
      match Apply(e.content.event, p.checkpoints, p.state)
      case Err(m) => Err(m)
      case Ok(applied) => Ok(Progress(p.entries + [e], applied.0, applied.1))
  }

  function TakeLine(c: Codec, p: Progress, line: seq<byte>): Result<Progress> {
    if line == [] then Err("empty entry")
    else if |line| > MAX_ENTRY_BYTES then Err("entry too large")
    else
      match c.decode(line)
      case None => Err("encoding")
      case Some(e) => TakeEntry(c, p, e)
  }

  function Fold(c: Codec, lines: seq<seq<byte>>): Result<Progress> {
    if lines == [] then Ok(NOTHING) else Resume(c, Fold(c, lines[..|lines| - 1]), lines[|lines| - 1])
  }

  function Resume(c: Codec, r: Result<Progress>, line: seq<byte>): Result<Progress> {
    if r.Err? then r else TakeLine(c, r.value, line)
  }

  predicate ValidAnchor(c: Codec, a: Anchor) {
    && a.schema == SCHEMA_VERSION && |a.head| == 64
    && a.hash == c.digestAnchor(a.schema, a.generation, a.count, a.head)
  }

  predicate Anchored(c: Codec, a: Option<Anchor>, p: Progress) {
    a.Some? && ValidAnchor(c, a.value) && a.value.count == |p.entries| && Some(a.value.head) == Head(p.entries)
  }

  /** Replay of a complete log of any size under its anchor. */
  function ReplayAnySize(c: Codec, b: seq<byte>, a: Option<Anchor>): Result<Progress> {
    if b == [] then Err("empty")
    else if b[|b| - 1] != NEWLINE then Err("truncated")
    else
      match Fold(c, Lines(b, 0))
      case Err(m) => Err(m)
      case Ok(p) => if Anchored(c, a, p) then Ok(p) else Err("anchor")
  }

  function Replay(c: Codec, b: seq<byte>, a: Option<Anchor>): Result<Progress> {
    if |b| > MAX_JOURNAL_BYTES then Err("too large") else ReplayAnySize(c, b, a)
  }

  lemma {:induction false} FoldStops(c: Codec, lines: seq<seq<byte>>, more: seq<seq<byte>>)
    requires Fold(c, lines).Err?
    ensures Fold(c, lines + more) == Fold(c, lines)
    decreases |more|
  {
    if more == [] {
      assert lines + more == lines;
    } else {
      FoldStops(c, lines, more[..|more| - 1]);
      assert (lines + more)[..|lines + more| - 1] == lines + more[..|more| - 1];
    }
  }

  lemma FoldNext(c: Codec, lines: seq<seq<byte>>, line: seq<byte>)
    ensures Fold(c, lines + [line]) == Resume(c, Fold(c, lines), line)
  {
    assert (lines + [line])[..|lines|] == lines;
  }

  method FindLineEnd(b: seq<byte>, i: nat) returns (e: nat)
    requires i <= |b|
    ensures e == LineEnd(b, i)
  {
    e := i;
    while e < |b| && b[e] != NEWLINE
      invariant i <= e <= |b| && LineEnd(b, e) == LineEnd(b, i)
    {
      e := e + 1;
    }
  }

  /** replay_inner with an anchor required. */
  method ReplayInner(c: Codec, b: seq<byte>, a: Option<Anchor>) returns (r: Result<Progress>)
    ensures r == Replay(c, b, a)
  {
    hide TakeLine, LineEnd, Anchored, Lines;
    if b == [] {
      return Err("empty");
    }
    if |b| > MAX_JOURNAL_BYTES {
      return Err("too large");
    }
    if b[|b| - 1] != NEWLINE {
      return Err("truncated");
    }
    var at, p := 0, NOTHING;
    ghost var read: seq<seq<byte>> := [];
    while at < |b|
      invariant at <= |b| && Fold(c, read) == Ok(p) && Lines(b, 0) == read + Lines(b, at)
    {
      var e := FindLineEnd(b, at);
      LineEndsAt(b, at, |b| - 1);
      ghost var more := Lines(b, e + 1);
      FirstLine(b, at);
      Regroup(read, [b[at..e]], more);
      FoldNext(c, read, b[at..e]);
      read := read + [b[at..e]];
      var next := TakeLine(c, p, b[at..e]);
      if next.Err? {
        FoldStops(c, read, more);
        return next;
      }
      p := next.value;
      at := e + 1;
    }
    NoLine(b);
    assert Lines(b, 0) == read;
    return if Anchored(c, a, p) then Ok(p) else Err("anchor");
  }
}
