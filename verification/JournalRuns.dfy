// What a journal tells after its creation and any sequence of appends, told without its code.
module JournalRuns {
  import opened Bytes
  import opened JournalReplay
  import opened JournalTheorems
  import opened JournalStore
  import opened JournalLog

  /** One call of append and the clock it reads. */
  datatype Call = Call(event: Event, now: Option<nat>)

  /** A letter or a digit, or one of - . : _ */
  predicate Plain(code: int) {
    97 <= code <= 122 || 65 <= code <= 90 || 48 <= code <= 57 || code == 45 || code == 46 || code == 58 || code == 95
  }

  predicate Named(name: string) {
    1 <= |name| <= 96 && forall i | 0 <= i < |name| :: Plain(name[i] as int)
  }

  /** The event may stand behind these entries. */
  predicate Follows(es: seq<Entry>, event: Event)
    requires es != []
  {
    && !es[|es| - 1].content.event.Terminal?
    && (event.Checkpoint? ==> Named(event.step))
    && (event.Terminal? && !event.end.Succeeded? ==> Named(event.end.code))
    && (event.Checkpoint? ==> StatesOf(es, event.step) + [event.state] <= [Prepared, Applied, Verified])
  }

  /** The entry of an event behind these entries. */
  function Entered(c: Codec, es: seq<Entry>, event: Event, now: nat): Entry
    requires es != []
  {
    var m := Material(1, |es|, es[0].content.operation, es[0].content.plan, now, Some(es[|es| - 1].hash), event);
    Entry(m, c.digest(m))
  }

  predicate Fits(c: Codec, e: Entry) {
    |c.encode(e)| <= 16384
  }

  lemma NamedExact(name: string)
    ensures ValidIdentifier(name) <==> Named(name)
  {
    forall i | 0 <= i < |name|
      ensures IdentifierChar(name[i]) <==> Plain(name[i] as int)
    {
      var x := name[i];
      assert 'a' as int == 97 && 'z' as int == 122 && 'A' as int == 65 && 'Z' as int == 90;
      assert '0' as int == 48 && '9' as int == 57;
      assert '.' as int == 46 && '_' as int == 95 && ':' as int == 58 && '-' as int == 45;
    }
    hide IdentifierChar, Plain;
  }

  /** A step may be recorded in a state exactly if that is the next one of its lifecycle. */
  lemma NextOfLifecycle(c: Codec, p: Progress, step: Code, state: CheckpointState)
    requires Mirrors(p, p.entries)
    ensures Apply(Checkpoint(step, state), p.checkpoints, p.state).Ok? <==>
            StatesOf(p.entries, step) + [state] <= [Prepared, Applied, Verified]
  {
    hide StatesOf, EndState;
    var states := StatesOf(p.entries, step);
    assert StepMirrors(p.checkpoints, step, states);
    var n := if step in p.checkpoints then Ordinal(p.checkpoints[step]) + 1 else 0;
    assert states == LIFECYCLE[..n];
    assert Ordinal(state) == n ==> states + [state] == LIFECYCLE[..n + 1];
    assert states + [state] <= LIFECYCLE ==> LIFECYCLE[n] == (states + [state])[n] == state;
  }

  /** When a journal that agrees with its disk may append, told from its entries. */
  lemma MayAppend(c: Codec, d: Disk, p: Progress, generation: nat, event: Event, now: Option<nat>)
    requires Agree(c, d, p, generation) && p.entries != [] && generation + 1 == |p.entries|
    ensures CanAppend(c, p, generation, event, now) <==>
            && Follows(p.entries, event) && now.Some? && Fits(c, Entered(c, p.entries, event, now.value))
            && |p.entries| < 18446744073709551616
  {
    hide Lines, Fold, StatesOf;
    FoldSound(c, Lines(LogOf(d), 0));
    hide Chain, Decodes, ValidIdentifier, Named;
    match event {
      case Started =>
      case Checkpoint(step, state) =>
        NamedExact(step);
        NextOfLifecycle(c, p, step, state);
        hide Apply, Mirrors;
      case Terminal(end) =>
        if !end.Succeeded? {
          NamedExact(end.code);
        }
    }
  }

  /** The entries after one call: the event is recorded if it may be, and a refused call leaves no trace. */
  function Grow(c: Codec, es: seq<Entry>, call: Call): seq<Entry>
    requires es != []
  {
    if Follows(es, call.event) && call.now.Some? && Fits(c, Entered(c, es, call.event, call.now.value))
       && |es| < 18446744073709551616
    then es + [Entered(c, es, call.event, call.now.value)] else es
  }

  function History(c: Codec, es: seq<Entry>, calls: seq<Call>): (r: seq<Entry>)
    requires es != []
    ensures r != []
  {
    if calls == [] then es else Grow(c, History(c, es, calls[..|calls| - 1]), calls[|calls| - 1])
  }

  /** The first entry of a journal: the creation, told by its arguments. */
  function Opening(c: Codec, operation: Id, plan: Id, now: nat): Entry {
    var m := Material(1, 0, operation, plan, now, None, Started);
    Entry(m, c.digest(m))
  }

  /** Entries numbered from zero that tell of this operation and plan and of these events. */
  predicate Tells(es: seq<Entry>, operation: Id, plan: Id, events: seq<Event>) {
    && |es| == |events|
    && forall k | 0 <= k < |es| ::
         && es[k].content.operation == operation && es[k].content.plan == plan
         && es[k].content.sequence == k && es[k].content.event == events[k]
  }

  lemma HistoryNext(c: Codec, es: seq<Entry>, calls: seq<Call>, call: Call)
    requires es != []
    ensures History(c, es, calls + [call]) == Grow(c, History(c, es, calls), call)
  {
    hide Grow;
    assert (calls + [call])[..|calls|] == calls;
  }

  /** The next append of a journal in step does to its entries what is told of it. */
  lemma AppendGrows(c: Codec, d: Disk, p: Progress, generation: nat, call: Call)
    requires Agree(c, d, p, generation) && p.entries != [] && generation + 1 == |p.entries|
    ensures Grow(c, p.entries, call) ==
            if CanAppend(c, p, generation, call.event, call.now)
            then p.entries + [Entered(c, p.entries, call.event, call.now.value)] else p.entries
  {
    MayAppend(c, d, p, generation, call.event, call.now);
    hide CanAppend, Follows, Fits, Entered, Agree;
  }

  /**
   * A journal is created, called any number of times while the storage works, and opened again. Within the
   * size limit it then opens, with exactly the history of these calls: its operation, its plan, and the start
   * followed by the events that were recorded, in their order.
   */
  method CreateAppendOpen(storage: FileStorage, c: Codec, operation: Id, plan: Id, now: nat, calls: seq<Call>)
    returns (created: bool, events: seq<Event>, reopened: Result<Journal>)
    requires Sound(c) && forall k | 0 <= k < |calls| :: !calls[k].event.Started?
    modifies storage
    ensures created <==> LogOf(old(storage.disk)) == [] && AnchorOf(c, old(storage.disk)).None?
                         && Fits(c, Opening(c, operation, plan, now))
    ensures created ==> (reopened.Ok? <==> |LogOf(storage.disk)| <= 67108864)
    ensures created && reopened.Ok? ==>
              && reopened.value.report.entries == History(c, [Opening(c, operation, plan, now)], calls)
              && Tells(reopened.value.report.entries, operation, plan, [Started] + events)
  {
    hide Sound, Agree, Counted, Grow, Apply, LogOf, AnchorOf, Reopened, CanAppend, CrashSafe, Survives, Tears, RecordOf,
         NextAnchor, Grown;
    events := [];
    var made := Journal.Create(storage, c, operation, plan, Some(now), Fine);
    if made.Err? {
      return false, [], Err(made.message);
    }
    var journal := made.value;
    ghost var first := [Opening(c, operation, plan, now)];
    for k := 0 to |calls|
      invariant fresh(journal) && journal.storage == storage && journal.codec == c
      invariant journal.Agrees() && journal.InStep()
      invariant journal.report.entries == History(c, first, calls[..k])
      invariant Tells(journal.report.entries, operation, plan, [Started] + events)
    {
      var call := calls[k];
      HistoryNext(c, first, calls[..k], call);
      assert calls[..k] + [call] == calls[..k + 1];
      AppendGrows(c, storage.disk, journal.report, journal.generation, call);
      ghost var before := storage.disk;
      var r := journal.Append(call.event, call.now, Fine);
      if r.Ok? {
        events := events + [call.event];
      }
    }
    assert calls[..|calls|] == calls;
    ReopensAlike(c, storage.disk, journal.report, journal.generation);
    reopened := Journal.Open(storage, c);
    created := true;
  }
}
