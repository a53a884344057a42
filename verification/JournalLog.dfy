// A journal in use: creating, opening and appending, with crashes inside the commit.
module JournalLog {
  import opened Bytes
  import opened JournalReplay
  import opened JournalTheorems
  import opened JournalStore

  /** A crash inside a commit leaves the old report, the new one, or a journal that does not open. */
  predicate CrashSafe(c: Codec, after: Disk, p: Progress, q: Progress) {
    Reopened(c, after).Ok? ==> Reopened(c, after).value == p || Reopened(c, after).value == q
  }

  /** A disk on which a journal can be created. */
  predicate Blank(c: Codec, d: Disk) {
    LogOf(d) == [] && AnchorOf(c, d).None?
  }

  /** The entry that this event becomes, and the report with it. */
  function Next(c: Codec, p: Progress, event: Event, now: nat): Entry
    requires p.entries != []
  {
    var m := p.entries[0].content;
    NewEntry(c, |p.entries|, m.operation, m.plan, Head(p.entries), event, now)
  }

  lemma RecordEnds(c: Codec, e: Entry, b: seq<byte>)
    ensures b + RecordOf(c, e) == b + c.encode(e) + [10]
  {
  }

  predicate CanAppend(c: Codec, p: Progress, generation: nat, event: Event, now: Option<nat>)
    requires p.entries != []
  {
    && p.state.Active? && ValidEvent(event) && Apply(event, p.checkpoints, p.state).Ok?
    && now.Some? && |c.encode(Next(c, p, event, now.value))| <= MAX_ENTRY_BYTES
    && generation + 1 < U64_LIMIT
  }

  function Grown(c: Codec, p: Progress, event: Event, now: nat): Progress
    requires p.entries != [] && Apply(event, p.checkpoints, p.state).Ok?
  {
    var applied := Apply(event, p.checkpoints, p.state).value;
    Progress(p.entries + [Next(c, p, event, now)], applied.0, applied.1)
  }

  function First(c: Codec, operation: Id, plan: Id, now: nat): Progress {
    Progress([NewEntry(c, 0, operation, plan, None, Started, now)], map[], Active)
  }

  /** The report of a journal with this one entry, in which no step has run. */
  predicate Opens(c: Codec, p: Progress, m: Material) {
    p == Progress([Entry(m, c.digest(m))], map[], Active)
  }

  lemma AgreeStands(c: Codec, d: Disk, p: Progress, generation: nat)
    requires Agree(c, d, p, generation)
    ensures Stands(c, d, p) && LogOf(d) != [] && p.entries != []
    ensures AnchorOf(c, d).Some? && AnchorOf(c, d).value.count == |p.entries|
  {
    hide Lines, Fold;
  }

  lemma BlankStands(c: Codec, d: Disk)
    requires Blank(c, d)
    ensures Stands(c, d, NOTHING) && Counted(c, d)
  {
  }

  /** What may be appended replays: the entry passes every guard of the replay. */
  lemma AppendedReplays(c: Codec, p: Progress, generation: nat, event: Event, now: nat, lines: seq<seq<byte>>)
    requires Sound(c) && Fold(c, lines) == Ok(p) && p.entries != []
    requires CanAppend(c, p, generation, event, Some(now)) && !event.Started?
    ensures Extension(c, p, Next(c, p, event, now), Grown(c, p, event, now))
  {
    hide Fold, Apply;
  }

  lemma FirstReplays(c: Codec, operation: Id, plan: Id, now: nat)
    requires Sound(c)
    requires |c.encode(First(c, operation, plan, now).entries[0])| <= MAX_ENTRY_BYTES
    ensures Extension(c, NOTHING, First(c, operation, plan, now).entries[0], First(c, operation, plan, now))
  {
    assert [] + First(c, operation, plan, now).entries == First(c, operation, plan, now).entries;
  }

  lemma CommittedCounted(c: Codec, d: Disk, record: seq<byte>, generation: nat, head: string, f: Fault)
    requires Sound(c) && Counted(c, d) && |head| == 64
    requires Tears(c, NewAnchor(c, generation, generation + 1, head), f)
    ensures Counted(c, Committed(c, d, record, NewAnchor(c, generation, generation + 1, head), f))
  {
    hide ValidAnchor;
  }

  /**
   * An append goes through whatever the length of the log, and the journal opens again exactly if log and
   * record together are within the limit.
   */
  lemma AppendPastLimit(c: Codec, d: Disk, p: Progress, generation: nat, event: Event, now: nat)
    requires Sound(c) && Agree(c, d, p, generation) && p.entries != []
    requires CanAppend(c, p, generation, event, Some(now)) && !event.Started?
    ensures var e, q := Next(c, p, event, now), Grown(c, p, event, now);
            var after := Committed(c, d, RecordOf(c, e), NewAnchor(c, generation + 1, |q.entries|, e.hash), Fine);
            && Agree(c, after, q, generation + 1)
            && Reopened(c, after) == if |LogOf(d)| + |RecordOf(c, e)| > MAX_JOURNAL_BYTES then Err("too large") else Ok(q)
  {
    var e, q := Next(c, p, event, now), Grown(c, p, event, now);
    var a := NewAnchor(c, generation + 1, |q.entries|, e.hash);
    AgreeStands(c, d, p, generation);
    AppendedReplays(c, p, generation, event, now, Lines(LogOf(d), 0));
    hide Sound, Lines, Fold, TakeEntry, ReplayAnySize, Apply;
    CommitAgrees(c, d, p, e, q, generation + 1);
    LogAfter(c, d, RecordOf(c, e), a, Fine);
    hide Committed;
    ReopensAlike(c, Committed(c, d, RecordOf(c, e), a, Fine), q, generation + 1);
  }

  lemma CountedNoneAhead(c: Codec, d: Disk, n: nat)
    requires Counted(c, d) && (AnchorOf(c, d).Some? ==> AnchorOf(c, d).value.generation + 1 == n)
    ensures NoneAhead(c, d, n)
  {
    hide ValidAnchor;
  }

  /** The anchor that goes with the entry of this event. */
  function NextAnchor(c: Codec, p: Progress, generation: nat, event: Event, now: nat): Anchor
    requires p.entries != []
  {
    NewAnchor(c, generation + 1, |p.entries| + 1, Next(c, p, event, now).hash)
  }

  /** When a journal in step opens again after an append that stopped anywhere, and with what. */
  lemma AppendSurvives(c: Codec, d: Disk, p: Progress, generation: nat, event: Event, now: nat, f: Fault)
    requires Sound(c) && Agree(c, d, p, generation) && p.entries != []
    requires Counted(c, d) && generation + 1 == |p.entries|
    requires CanAppend(c, p, generation, event, Some(now)) && !event.Started?
    requires Tears(c, NextAnchor(c, p, generation, event, now), f)
    ensures var e, a := Next(c, p, event, now), NextAnchor(c, p, generation, event, now);
            var r := Reopened(c, Committed(c, d, RecordOf(c, e), a, f));
            && (r.Ok? <==> Survives(c, d, e, a, f))
            && (r.Ok? ==> r.value == if f.InLog? then p else Grown(c, p, event, now))
  {
    hide Sound, Lines, Fold, TakeEntry, Apply, Committed, Survives, NewAnchor, Counted, ValidAnchor;
    AgreeStands(c, d, p, generation);
    AppendedReplays(c, p, generation, event, now, Lines(LogOf(d), 0));
    CountedNoneAhead(c, d, |p.entries|);
    CrashExact(c, d, p, Next(c, p, event, now), Grown(c, p, event, now), generation + 1, f);
  }

  /** Everything that Append promises about the disk it leaves. */
  lemma AppendOutcome(c: Codec, d: Disk, p: Progress, generation: nat, event: Event, now: nat, f: Fault)
    requires Sound(c) && Agree(c, d, p, generation) && p.entries != []
    requires CanAppend(c, p, generation, event, Some(now)) && !event.Started?
    ensures var e, q, a := Next(c, p, event, now), Grown(c, p, event, now), NextAnchor(c, p, generation, event, now);
            var after := Committed(c, d, RecordOf(c, e), a, f);
            && CrashSafe(c, after, p, q)
            && (f.Fine? ==> Agree(c, after, q, generation + 1))
            && (f.Fine? ==> (Reopened(c, after).Ok? <==> |LogOf(d)| + |RecordOf(c, e)| <= MAX_JOURNAL_BYTES))
            && (generation + 1 == |p.entries| && Counted(c, d) && Tears(c, a, f) ==>
                  (Reopened(c, after).Ok? <==> Survives(c, d, e, a, f)) && Counted(c, after))
  {
    hide Sound, Lines, Fold, TakeEntry, ReplayAnySize, Committed, ValidAnchor, Counted, Apply, NewAnchor, RecordOf, LogOf,
         AnchorOf, Survives, Tears, Reopened, ValidEvent;
    var e, a := Next(c, p, event, now), NextAnchor(c, p, generation, event, now);
    AgreeStands(c, d, p, generation);
    AppendedReplays(c, p, generation, event, now, Lines(LogOf(d), 0));
    CrashIsSafe(c, d, p, e, Grown(c, p, event, now), a, f);
    AppendPastLimit(c, d, p, generation, event, now);
    if generation + 1 == |p.entries| && Counted(c, d) && Tears(c, a, f) {
      AppendSurvives(c, d, p, generation, event, now, f);
      CommittedCounted(c, d, RecordOf(c, e), generation + 1, e.hash, f);
    }
  }

  class Journal {
    const storage: FileStorage
    const codec: Codec
    var report: Progress
    var generation: nat

    /** The report in memory is what the disk replays to. */
    ghost predicate Agrees()
      reads this, storage
    {
      Sound(codec) && Agree(codec, storage.disk, report, generation)
    }

    /** The invariant of journals that began with a creation on a blank disk. */
    ghost predicate InStep()
      reads this, storage
    {
      generation + 1 == |report.entries| && Counted(codec, storage.disk)
    }

    constructor (storage: FileStorage, codec: Codec, report: Progress, generation: nat)
      ensures this.storage == storage && this.codec == codec
      ensures this.report == report && this.generation == generation
    {
      this.storage, this.codec, this.report, this.generation := storage, codec, report, generation;
    }

    static method Create(storage: FileStorage, c: Codec, operation: Id, plan: Id, now: Option<nat>, f: Fault)
      returns (r: Result<Journal>)
      requires Sound(c)
      modifies storage
      ensures r.Ok? <==> Blank(c, old(storage.disk)) && now.Some? && f.Fine?
                         && |c.encode(First(c, operation, plan, now.value).entries[0])| <= MAX_ENTRY_BYTES
      ensures r.Ok? ==> fresh(r.value) && r.value.storage == storage && r.value.codec == c
      ensures r.Ok? ==> r.value.report == First(c, operation, plan, now.value)
      ensures r.Ok? ==> Opens(c, r.value.report, Material(1, 0, operation, plan, now.value, None, Started))
      ensures r.Ok? ==> r.value.Agrees() && r.value.InStep()
      ensures r.Err? && storage.disk != old(storage.disk) ==>
                now.Some? && CrashSafe(c, storage.disk, First(c, operation, plan, now.value), First(c, operation, plan, now.value))
    {
      hide Sound, Lines, Fold, TakeEntry, ReplayAnySize, Committed, ValidAnchor;
      ghost var before := storage.disk;
      var bytes, anchor := storage.Load(c);
      if bytes != [] || anchor.Some? {
        return Err("start");
      }
      if now.None? {
        return Err("clock");
      }
      var first := First(c, operation, plan, now.value);
      var e := first.entries[0];
      if |c.encode(e)| > MAX_ENTRY_BYTES {
        return Err("entry too large");
      }
      FirstReplays(c, operation, plan, now.value);
      var a := NewAnchor(c, 0, 1, e.hash);
      var ok := storage.Commit(c, RecordOf(c, e), a, f);
      BlankStands(c, before);
      CrashIsSafe(c, before, NOTHING, e, first, a, f);
      if !ok {
        return Err("storage");
      }
      CommitAgrees(c, before, NOTHING, e, first, 0);
      CommittedCounted(c, before, RecordOf(c, e), 0, e.hash, f);
      var journal := new Journal(storage, c, first, 0);
      return Ok(journal);
    }

    static method Open(storage: FileStorage, c: Codec) returns (r: Result<Journal>)
      requires Sound(c)
      modifies storage`generation
      ensures r.Ok? <==> Reopened(c, storage.disk).Ok?
      ensures r.Ok? ==> fresh(r.value) && r.value.storage == storage && r.value.codec == c
      ensures r.Ok? ==> r.value.Agrees() && r.value.report == Reopened(c, storage.disk).value
      ensures r.Ok? && Counted(c, storage.disk) ==> r.value.InStep()
    {
      hide Sound, Lines, Fold, ValidAnchor;
      var bytes, anchor := storage.Load(c);
      var report := ReplayInner(c, bytes, anchor);
      if report.Err? {
        return Err(report.message);
      }
      var journal := new Journal(storage, c, report.value, if anchor.Some? then anchor.value.generation else 0);
      return Ok(journal);
    }

    /** Appends a checkpoint or the terminal event. */
    method Append(event: Event, now: Option<nat>, f: Fault) returns (r: Result<Entry>)
      requires Agrees() && report.entries != [] && !event.Started?
      modifies this, storage
      ensures r.Ok? <==> CanAppend(codec, old(report), old(generation), event, now) && f.Fine?
      ensures r.Ok? ==> report == Grown(codec, old(report), event, now.value) && generation == old(generation) + 1
      ensures r.Ok? ==> r.value == Next(codec, old(report), event, now.value)
      ensures r.Ok? ==> report.entries == old(report.entries) + [r.value] && r.value.hash == codec.digest(r.value.content)
      ensures r.Ok? ==>
                var es := old(report.entries);
                var first := es[0].content;
                r.value.content
                == Material(1, |es|, first.operation, first.plan, now.value, Some(es[|es| - 1].hash), event)
      ensures r.Ok? ==> storage.disk.log == Some(LogOf(old(storage.disk)) + codec.encode(r.value) + [10])
      ensures r.Ok? ==> Agrees() && (old(InStep()) ==> InStep())
      ensures r.Ok? ==> (Reopened(codec, storage.disk).Ok? <==>
                           |LogOf(old(storage.disk))| + |RecordOf(codec, r.value)| <= MAX_JOURNAL_BYTES)
      ensures r.Err? ==> report == old(report) && generation == old(generation)
      ensures r.Err? && storage.disk != old(storage.disk) ==>
                CanAppend(codec, report, generation, event, now)
                && CrashSafe(codec, storage.disk, report, Grown(codec, report, event, now.value))
      ensures old(InStep()) && CanAppend(codec, old(report), old(generation), event, now)
              && Tears(codec, NextAnchor(codec, old(report), old(generation), event, now.value), f) ==>
                (Reopened(codec, storage.disk).Ok? <==>
                   Survives(codec, old(storage.disk), Next(codec, old(report), event, now.value),
                            NextAnchor(codec, old(report), old(generation), event, now.value), f))
    {
      hide Sound, Agree, Committed, Counted, Apply, NextAnchor, RecordOf, LogOf, ValidEvent, Survives, Reopened, CrashSafe;
      ghost var before := storage.disk;
      if report.state.Ended? {
        return Err("already terminal");
      }
      if !ValidEvent(event) {
        return Err("identifier");
      }
      var applied := Apply(event, report.checkpoints, report.state);
      if applied.Err? {
        return Err(applied.message);
      }
      if now.None? {
        return Err("clock");
      }
      var e := Next(codec, report, event, now.value);
      if |codec.encode(e)| > MAX_ENTRY_BYTES {
        return Err("entry too large");
      }
      if generation + 1 >= U64_LIMIT {
        return Err("too large");
      }
      var a := NextAnchor(codec, report, generation, event, now.value);
      var ok := storage.Commit(codec, RecordOf(codec, e), a, f);
      RecordEnds(codec, e, LogOf(before));
      AppendOutcome(codec, before, report, generation, event, now.value, f);
      if !ok {
        return Err("storage");
      }
      generation := generation + 1;
      report := Progress(report.entries + [e], applied.value.0, applied.value.1);
      return Ok(e);
    }
  }
}
