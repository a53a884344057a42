// What an accepted journal is, and what its head pins down.
module JournalTheorems {
  import opened Bytes
  import opened JournalReplay

  /** The states recorded for a step, in order. */
  function StatesOf(es: seq<Entry>, step: Code): seq<CheckpointState> {
    if es == [] then []
    else
      var n := |es| - 1;
      StatesOf(es[..n], step) + if es[n].content.event.Checkpoint? && es[n].content.event.step == step
                                then [es[n].content.event.state] else []
  }

  /** What entry i of a journal must be, told from the entries before it. */
  predicate EntryOk(c: Codec, es: seq<Entry>, i: nat)
    requires i < |es|
  {
    var m, e := es[i].content, es[i].content.event;
    && ValidEvent(e) && m.schema == SCHEMA_VERSION && m.sequence == i
    && m.operation == es[0].content.operation && m.plan == es[0].content.plan
    && (e.Started? <==> i == 0)
    && (i > 0 ==> !es[i - 1].content.event.Terminal?)
    && m.previous == Head(es[..i]) && es[i].hash == c.digest(m)
    && (e.Checkpoint? ==> Ordinal(e.state) == |StatesOf(es[..i], e.step)|)
  }

  predicate Chain(c: Codec, es: seq<Entry>) {
    forall i | 0 <= i < |es| :: EntryOk(c, es, i)
  }

  function EndState(es: seq<Entry>): State {
    if es != [] && es[|es| - 1].content.event.Terminal? then Ended(es[|es| - 1].content.event.end) else Active
  }

  /** The recorded state of a step is the last of its lifecycle so far. */
  predicate StepMirrors(checkpoints: map<Code, CheckpointState>, step: Code, states: seq<CheckpointState>) {
    states == if step in checkpoints then LIFECYCLE[..Ordinal(checkpoints[step]) + 1] else []
  }

  ghost predicate Mirrors(p: Progress, es: seq<Entry>) {
    && p.entries == es && p.state == EndState(es)
    && forall step :: StepMirrors(p.checkpoints, step, StatesOf(es, step))
  }

  lemma EntryOkKept(c: Codec, es: seq<Entry>, more: seq<Entry>, i: nat)
    requires i < |es|
    ensures EntryOk(c, es + more, i) <==> EntryOk(c, es, i)
  {
    assert (es + more)[..i] == es[..i];
  }

  lemma ChainNext(c: Codec, es: seq<Entry>, e: Entry)
    ensures Chain(c, es + [e]) <==> Chain(c, es) && EntryOk(c, es + [e], |es|)
  {
    forall i | 0 <= i < |es|
      ensures EntryOk(c, es + [e], i) <==> EntryOk(c, es, i)
    {
      EntryOkKept(c, es, [e], i);
    }
    hide EntryOk;
    if Chain(c, es) && EntryOk(c, es + [e], |es|) {
      forall i | 0 <= i < |es + [e]|
        ensures EntryOk(c, es + [e], i)
      {
        if i < |es| {
          assert EntryOk(c, es, i);
        }
      }
    }
    if Chain(c, es + [e]) {
      forall i | 0 <= i < |es|
        ensures EntryOk(c, es, i)
      {
        assert EntryOk(c, es + [e], i);
      }
    }
  }

  /** The replay's guards are exactly the guards told from the entries. */
  lemma CheckExact(c: Codec, p: Progress, es: seq<Entry>, e: Entry)
    requires Mirrors(p, es) && (es != [] ==> EntryOk(c, es, 0))
    ensures TakeEntry(c, p, e).Ok? <==> EntryOk(c, es + [e], |es|)
  {
    var all := es + [e];
    assert all[..|es|] == es && all[|es|] == e;
    if e.content.event.Checkpoint? {
      var step := e.content.event.step;
      assert StepMirrors(p.checkpoints, step, StatesOf(es, step));
      hide StatesOf;
    }
  }

  lemma TakeMirrors(c: Codec, p: Progress, es: seq<Entry>, e: Entry)
    requires Mirrors(p, es) && TakeEntry(c, p, e).Ok?
    ensures Mirrors(TakeEntry(c, p, e).value, es + [e])
  {
    hide StatesOf, Check, Head;
    var q := TakeEntry(c, p, e).value;
    ActiveBefore(c, p, es, e);
    forall step
      ensures StepMirrors(q.checkpoints, step, StatesOf(es + [e], step))
    {
      StatesNext(es, e, step);
      assert StepMirrors(p.checkpoints, step, StatesOf(es, step));
    }
  }

  lemma StatesNext(es: seq<Entry>, e: Entry, step: Code)
    ensures StatesOf(es + [e], step) == StatesOf(es, step) +
              if e.content.event.Checkpoint? && e.content.event.step == step then [e.content.event.state] else []
  {
    assert (es + [e])[..|es|] == es;
  }

  lemma ActiveBefore(c: Codec, p: Progress, es: seq<Entry>, e: Entry)
    requires Mirrors(p, es) && TakeEntry(c, p, e).Ok?
    ensures p.state.Active?
  {
  }

  predicate LineOk(c: Codec, line: seq<byte>, e: Entry) {
    1 <= |line| <= MAX_ENTRY_BYTES && c.decode(line) == Some(e)
  }

  predicate Decodes(c: Codec, lines: seq<seq<byte>>, es: seq<Entry>) {
    |es| == |lines| && forall i | 0 <= i < |es| :: LineOk(c, lines[i], es[i])
  }

  lemma FirstOk(c: Codec, es: seq<Entry>)
    requires Chain(c, es) && es != []
    ensures EntryOk(c, es, 0)
  {
  }

  lemma {:induction false} FoldSound(c: Codec, lines: seq<seq<byte>>)
    requires Fold(c, lines).Ok?
    ensures var p := Fold(c, lines).value;
            Decodes(c, lines, p.entries) && Chain(c, p.entries) && Mirrors(p, p.entries)
    decreases |lines|
  {
    if lines == [] {
      assert forall step :: StatesOf([], step) == [];
    } else {
      hide Chain, Mirrors, Check, Apply, StatesOf, EntryOk;
      var n := |lines| - 1;
      FoldSound(c, lines[..n]);
      var p, e := Fold(c, lines[..n]).value, c.decode(lines[n]).value;
      if n > 0 {
        FirstOk(c, p.entries);
      }
      CheckExact(c, p, p.entries, e);
      TakeMirrors(c, p, p.entries, e);
      ChainNext(c, p.entries, e);
      forall i | 0 <= i < |lines|
        ensures LineOk(c, lines[i], (p.entries + [e])[i])
      {
        assert i < n ==> LineOk(c, lines[..n][i], p.entries[i]);
      }
    }
  }

  lemma {:induction false} FoldComplete(c: Codec, lines: seq<seq<byte>>, es: seq<Entry>)
    requires Decodes(c, lines, es) && Chain(c, es)
    ensures Fold(c, lines).Ok? && Fold(c, lines).value.entries == es
    decreases |lines|
  {
    if lines != [] {
      var n := |lines| - 1;
      assert es == es[..n] + [es[n]];
      ChainNext(c, es[..n], es[n]);
      assert LineOk(c, lines[n], es[n]);
      forall i | 0 <= i < n
        ensures LineOk(c, lines[..n][i], es[..n][i])
      {
        assert LineOk(c, lines[i], es[i]);
      }
      FoldComplete(c, lines[..n], es[..n]);
      FoldSound(c, lines[..n]);
      CheckExact(c, Fold(c, lines[..n]).value, es[..n], es[n]);
      hide Chain, Mirrors, Check, EntryOk;
    }
  }

  /** An anchor of version 1, under its digest, that names the number and the last hash of these entries. */
  predicate Heads(c: Codec, a: Option<Anchor>, es: seq<Entry>) {
    && a.Some? && es != [] && a.value.schema == 1 && |a.value.head| == 64
    && a.value.hash == c.digestAnchor(1, a.value.generation, a.value.count, a.value.head)
    && a.value.count == |es| && a.value.head == es[|es| - 1].hash
  }

  /** The replay accepts a log exactly when its lines decode to a chain whose head the anchor names. */
  lemma ReplayExact(c: Codec, b: seq<byte>, a: Option<Anchor>)
    ensures Replay(c, b, a).Ok? <==>
            && 0 < |b| <= MAX_JOURNAL_BYTES && b[|b| - 1] == NEWLINE
            && exists es :: Decodes(c, Lines(b, 0), es) && Chain(c, es) && Heads(c, a, es)
  {
    hide Lines, Chain, Decodes, Fold, Mirrors;
    if 0 < |b| <= MAX_JOURNAL_BYTES && b[|b| - 1] == NEWLINE {
      if Fold(c, Lines(b, 0)).Ok? {
        FoldSound(c, Lines(b, 0));
      }
      forall es | Decodes(c, Lines(b, 0), es) && Chain(c, es)
        ensures Fold(c, Lines(b, 0)).Ok? && Fold(c, Lines(b, 0)).value.entries == es
      {
        FoldComplete(c, Lines(b, 0), es);
      }
    }
  }

  /** In a chain every step has run through a prefix of its lifecycle. */
  lemma {:induction false} LifecyclePrefix(c: Codec, es: seq<Entry>, step: Code)
    requires Chain(c, es)
    ensures |StatesOf(es, step)| <= 3 && StatesOf(es, step) == LIFECYCLE[..|StatesOf(es, step)|]
    decreases |es|
  {
    if es != [] {
      var n := |es| - 1;
      assert es == es[..n] + [es[n]];
      ChainNext(c, es[..n], es[n]);
      LifecyclePrefix(c, es[..n], step);
    }
  }

  /** In an accepted log nothing stands behind a terminal entry, and the report has ended exactly if the last one is. */
  lemma NothingAfterTerminal(c: Codec, b: seq<byte>, a: Option<Anchor>, i: nat, j: nat)
    requires Replay(c, b, a).Ok? && i < j < |Replay(c, b, a).value.entries|
    ensures var p := Replay(c, b, a).value; !p.entries[i].content.event.Terminal? && p.state == EndState(p.entries)
  {
    hide Lines, Fold, StatesOf, Decodes;
    FoldSound(c, Lines(b, 0));
    var es := Replay(c, b, a).value.entries;
    assert EntryOk(c, es, i + 1);
  }

  /** Two different contents with one digest. */
  ghost predicate Collision(c: Codec, x: Material, y: Material) {
    x != y && c.digest(x) == c.digest(y)
  }

  ghost predicate Collides(c: Codec, a: seq<Entry>, b: seq<Entry>) {
    exists i | 0 <= i < |a| && i < |b| :: Collision(c, a[i].content, b[i].content)
  }

  /** Chains of one length under one head are the same, or exhibit a collision of the digest. */
  lemma {:induction false} HeadDetermines(c: Codec, a: seq<Entry>, b: seq<Entry>)
    requires Chain(c, a) && Chain(c, b) && |a| == |b| && Head(a) == Head(b)
    ensures a == b || Collides(c, a, b)
    decreases |a|
  {
    if a != [] {
      var n := |a| - 1;
      assert a == a[..n] + [a[n]] && b == b[..n] + [b[n]];
      assert EntryOk(c, a, n) && EntryOk(c, b, n);
      hide EntryOk;
      ChainNext(c, a[..n], a[n]);
      ChainNext(c, b[..n], b[n]);
      if a[n].content != b[n].content {
        assert Collision(c, a[n].content, b[n].content);
      } else {
        HeadDetermines(c, a[..n], b[..n]);
        if Collides(c, a[..n], b[..n]) {
          var i :| 0 <= i < n && Collision(c, a[..n][i].content, b[..n][i].content);
          assert Collision(c, a[i].content, b[i].content);
        }
      }
    }
  }

  lemma SameProgress(p: Progress, q: Progress, es: seq<Entry>)
    requires Mirrors(p, es) && Mirrors(q, es)
    ensures p == q
  {
    hide StatesOf, EndState;
    forall step
      ensures step in p.checkpoints <==> step in q.checkpoints
      ensures step in p.checkpoints ==> p.checkpoints[step] == q.checkpoints[step]
    {
      var s := StatesOf(es, step);
      assert StepMirrors(p.checkpoints, step, s) && StepMirrors(q.checkpoints, step, s);
      assert step in p.checkpoints ==> |s| == Ordinal(p.checkpoints[step]) + 1;
      assert step in q.checkpoints ==> |s| == Ordinal(q.checkpoints[step]) + 1;
    }
    assert p.checkpoints == q.checkpoints;
  }

  /** Whatever else is accepted under an anchor tells the same history, or exhibits a collision. */
  lemma AnchorDetermines(c: Codec, b: seq<byte>, b': seq<byte>, a: Option<Anchor>)
    requires ReplayAnySize(c, b, a).Ok? && ReplayAnySize(c, b', a).Ok?
    ensures var p, p' := ReplayAnySize(c, b, a).value, ReplayAnySize(c, b', a).value;
            p == p' || Collides(c, p.entries, p'.entries)
  {
    FoldSound(c, Lines(b, 0));
    FoldSound(c, Lines(b', 0));
    hide Lines, Fold, Chain, Mirrors, Decodes, Collides;
    var p, p' := ReplayAnySize(c, b, a).value, ReplayAnySize(c, b', a).value;
    HeadDetermines(c, p.entries, p'.entries);
    if p.entries == p'.entries {
      SameProgress(p, p', p.entries);
    }
  }
}
