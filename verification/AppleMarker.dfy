// The marker that guards a native installation: the worker, the readers and the interface of the
// desktop application step by step, with crashes and restarts between any two steps.
module AppleMarker {
  import opened Bytes

  type Id = nat

  /** The record of an operation in flight; one that could not be completed is torn. */
  datatype Marker = Absent | Torn | Marked(token: Id)

  /** A reader takes a reply in three steps: it removes the request, clears the flag and passes the reply on. */
  datatype Reader = Reading | Removed(id: Id, ok: bool) | Cleared(id: Id, ok: bool) | Ended

  datatype Connection = Connection(
    alive: bool, inputOpen: bool, exited: bool, generation: nat,
    pending: Option<Id>, mutationPending: bool, reader: Reader)

  /** How far the worker is with an execute or retry request. */
  datatype Stage =
    | Idle
    | Other
    | Confirming(conn: nat)
    | Marking(conn: nat, token: Id)
    | Calling(conn: nat, token: Id)
    | Inserted(conn: nat, token: Id, id: Id)
    | Flagged(conn: nat, token: Id, id: Id)
    | Broken(conn: nat, token: Id, id: Id)
    | Waiting(conn: nat, token: Id, id: Id)
    | Refused(conn: nat, token: Id)
    | Returned(conn: nat, token: Id, id: Id, ok: bool)
    | Settling(conn: nat, token: Id)
    | Finishing

  /** The worker holds the marker. */
  predicate Owns(s: Stage) {
    !s.Idle? && !s.Other? && !s.Confirming? && !s.Finishing?
  }

  /** The worker has given its request an identifier. */
  predicate HasId(s: Stage) {
    s.Inserted? || s.Flagged? || s.Broken? || s.Waiting? || s.Returned?
  }

  /** The request may be in the companion's hands. */
  predicate Sent(s: Stage) {
    s.Broken? || s.Waiting? || s.Returned?
  }

  /** Everything that lasts or is shared: the marker file, what was written to companions, and the process. */
  datatype State = State(
    marker: Marker,
    written: set<Id>,
    settled: set<Id>,
    next: Id,
    busy: bool,
    unknown: bool,
    checked: bool,
    generation: nat,
    conns: seq<Connection>,
    inbox: map<Id, bool>,
    stage: Stage)

  // The invariant.

  /** Requests written whose replies were not taken. */
  function Unsettled(s: State): set<Id> {
    s.written - s.settled
  }

  predicate MarkerOk(s: State) {
    && (Unsettled(s) != {} ==> !s.marker.Absent?)
    && (Owns(s.stage) ==> s.marker == if s.stage.Marking? then Torn else Marked(s.stage.token))
    && (!s.stage.Idle? ==> s.busy)
  }

  /** The only request in the air is the worker's own. */
  predicate OnlyOwn(s: State) {
    && (Owns(s.stage) && !Sent(s.stage) ==> Unsettled(s) == {})
    && (Sent(s.stage) ==> Unsettled(s) <= {s.stage.id})
    && (s.stage.Inserted? || s.stage.Flagged? ==> s.stage.id !in s.written)
  }

  predicate FlagOk(s: State) {
    && (Owns(s.stage) || s.stage.Confirming? ==> s.stage.conn < |s.conns|)
    && (s.stage.Flagged? || Sent(s.stage) ==> s.conns[s.stage.conn].mutationPending || s.stage.id in s.settled)
    && (s.stage.Returned? && s.stage.ok ==> s.stage.id in s.settled && s.stage.id in s.inbox)
  }

  predicate ConnectionOk(s: State, c: Connection, i: nat) {
    && (c.pending.Some? ==> HasId(s.stage) && !s.stage.Returned? && s.stage.conn == i && s.stage.id == c.pending.value
                            && c.pending.value !in s.inbox && c.pending.value !in s.settled)
    && (c.reader.Removed? ==>
          && c.reader.id in s.settled && c.reader.id !in s.inbox
          && (if Owns(s.stage) then Sent(s.stage) && s.stage.conn == i && s.stage.id == c.reader.id && c.mutationPending
              else !s.marker.Absent?))
    && (c.reader.Cleared? ==> c.reader.id in s.settled && c.reader.id < s.next)
  }

  predicate FreshOk(s: State) {
    && (forall r | r in s.written :: r < s.next)
    && (forall r | r in s.inbox :: r < s.next && (s.inbox[r] ==> r in s.settled))
    && s.settled <= s.written
    && (HasId(s.stage) ==> s.stage.id < s.next)
  }

  ghost predicate Inv(s: State) {
    && MarkerOk(s) && OnlyOwn(s) && FlagOk(s) && FreshOk(s) && OneHolder(s.conns)
    && forall i | 0 <= i < |s.conns| :: ConnectionOk(s, s.conns[i], i)
  }

  /** The request whose reply a reader has in hand. */
  function Held(c: Connection): Option<Id> {
    if c.reader.Removed? || c.reader.Cleared? then Some(c.reader.id) else None
  }

  /** No two readers have the reply to one request. */
  predicate OneHolder(conns: seq<Connection>) {
    forall i, j | 0 <= i < |conns| && 0 <= j < |conns| && Held(conns[i]).Some? && Held(conns[i]) == Held(conns[j]) :: i == j
  }

  const START := State(Absent, {}, {}, 0, false, false, false, 0, [], map[], Idle)

  lemma StartOk()
    ensures Inv(START)
  {
  }

  // The steps.

  datatype Step =
    | CheckMarker
    | StartOther
    | Connect(started: bool)
    | StartMutating(conn: nat)
    | Decline
    | CreateMarker
    | Record(works: bool)
    | Check(fits: bool)
    | Flag
    | Write(works: bool)
    | CloseBroken
    | Receive
    | Decide
    | Settle(works: bool)
    | Finish(failed: bool)
    | Disconnect(conn: nat)
    | CloseInput(conn: nat)
    | Drain(conn: nat)
    | Reply(conn: nat, id: Id, ok: bool)
    | Clear(conn: nat)
    | Pass(conn: nat)
    | EndReader(conn: nat)
    | Exit(conn: nat)
    | CrashAndRestart

  function SetConn(s: State, i: nat, c: Connection): State
    requires i < |s.conns|
  {
    s.(conns := s.conns[i := c])
  }

  /** The state after a step; a step that is not possible changes nothing. */
  function Next(s: State, a: Step): State {
    match a
    // The interface.
    case CheckMarker =>
      if s.checked then s else s.(checked := true, unknown := s.unknown || !s.marker.Absent?)
    case StartOther =>
      if s.busy || s.unknown || !s.checked then s else s.(busy := true, stage := Other)
    case StartMutating(i) =>
      if s.busy || s.unknown || !s.checked || i >= |s.conns| then s else s.(busy := true, stage := Confirming(i))
    // The worker.
    case Connect(started) =>
      if !s.stage.Other? then s
      else if s.conns != [] && (s.conns[|s.conns| - 1].alive || !s.conns[|s.conns| - 1].exited || started) then s
      else s.(generation := s.generation + 1,
              conns := s.conns + [Connection(true, true, false, s.generation + 1, None, false, Reading)])
    case Decline => if s.stage.Confirming? then s.(stage := Finishing) else s
    case CreateMarker =>
      if !s.stage.Confirming? then s
      else if !s.marker.Absent? then s.(stage := Finishing)
      else s.(marker := Torn, next := s.next + 1, stage := Marking(s.stage.conn, s.next))
    case Record(works) =>
      if !s.stage.Marking? then s
      else if works then s.(marker := Marked(s.stage.token), stage := Calling(s.stage.conn, s.stage.token))
      else s.(stage := Finishing)
    case Check(fits) =>
      if !s.stage.Calling? || s.stage.conn >= |s.conns| then s
      else if !s.conns[s.stage.conn].alive || !fits then s.(stage := Refused(s.stage.conn, s.stage.token))
      else
        var c := s.conns[s.stage.conn].(pending := Some(s.next));
        SetConn(s, s.stage.conn, c).(next := s.next + 1, stage := Inserted(s.stage.conn, s.stage.token, s.next))
    case Flag =>
      if !s.stage.Inserted? || s.stage.conn >= |s.conns| then s
      else SetConn(s, s.stage.conn, s.conns[s.stage.conn].(mutationPending := true))
           .(stage := Flagged(s.stage.conn, s.stage.token, s.stage.id))
    case Write(works) =>
      if !s.stage.Flagged? || s.stage.conn >= |s.conns| then s
      else if !s.conns[s.stage.conn].inputOpen then s.(stage := Broken(s.stage.conn, s.stage.token, s.stage.id))
      else s.(written := s.written + {s.stage.id},
              stage := if works then Waiting(s.stage.conn, s.stage.token, s.stage.id)
                       else Broken(s.stage.conn, s.stage.token, s.stage.id))
    case CloseBroken =>
      if !s.stage.Broken? || s.stage.conn >= |s.conns| then s
      else
        var c := s.conns[s.stage.conn];
        var closed := SetConn(s, s.stage.conn, c.(alive := false, inputOpen := false, pending := None));
        closed.(inbox := if c.pending.Some? then s.inbox[c.pending.value := false] else s.inbox,
                stage := Returned(s.stage.conn, s.stage.token, s.stage.id, false))
    case Receive =>
      if !s.stage.Waiting? || s.stage.id !in s.inbox then s
      else s.(stage := Returned(s.stage.conn, s.stage.token, s.stage.id, s.inbox[s.stage.id]))
    case Decide =>
      if (!s.stage.Returned? && !s.stage.Refused?) || s.stage.conn >= |s.conns| then s
      else if (s.stage.Returned? && s.stage.ok) || !s.conns[s.stage.conn].mutationPending
      then s.(stage := Settling(s.stage.conn, s.stage.token))
      else s.(unknown := true, stage := Finishing)
    case Settle(works) =>
      if !s.stage.Settling? then s
      else if s.marker == Marked(s.stage.token) && works then s.(marker := Absent, stage := Finishing)
      else s.(stage := Finishing)
    case Finish(_) =>
      if s.stage.Finishing? || s.stage.Other? then s.(busy := false, stage := Idle) else s
    // Closing a connection, in three steps that may come at any time.
    case Disconnect(i) => if i < |s.conns| then SetConn(s, i, s.conns[i].(alive := false)) else s
    case CloseInput(i) => if i < |s.conns| then SetConn(s, i, s.conns[i].(inputOpen := false)) else s
    case Drain(i) =>
      if i >= |s.conns| || s.conns[i].pending.None? then s
      else SetConn(s, i, s.conns[i].(pending := None)).(inbox := s.inbox[s.conns[i].pending.value := false])
    // The readers; a companion answers only what was written to it.
    case Reply(i, id, ok) =>
      if i >= |s.conns| || !s.conns[i].reader.Reading? || id !in s.written || s.conns[i].pending != Some(id) then s
      else SetConn(s, i, s.conns[i].(pending := None, reader := Removed(id, ok))).(settled := s.settled + {id})
    case Clear(i) =>
      if i >= |s.conns| || !s.conns[i].reader.Removed? then s
      else SetConn(s, i, s.conns[i].(mutationPending := false, reader := Cleared(s.conns[i].reader.id, s.conns[i].reader.ok)))
    case Pass(i) =>
      if i >= |s.conns| || !s.conns[i].reader.Cleared? then s
      else SetConn(s, i, s.conns[i].(reader := Reading)).(inbox := s.inbox[s.conns[i].reader.id := s.conns[i].reader.ok])
    case EndReader(i) =>
      if i >= |s.conns| || !s.conns[i].reader.Reading? then s
      else SetConn(s, i, s.conns[i].(reader := Ended))
           .(unknown := s.unknown || (s.conns[i].generation == s.generation && s.conns[i].mutationPending))
    case Exit(i) => if i < |s.conns| then SetConn(s, i, s.conns[i].(exited := true)) else s
    case CrashAndRestart =>
      s.(busy := false, unknown := false, checked := false, generation := 0, conns := [], inbox := map[], stage := Idle)
  }

  /** Steps that change neither the marker, the requests, the connections nor what the worker holds. */
  lemma Same(s: State, t: State)
    requires Inv(s) && (!t.stage.Idle? ==> t.busy) && (t.stage.Confirming? ==> t.stage.conn < |t.conns|)
    requires t.marker == s.marker && t.written == s.written && t.settled == s.settled && t.next == s.next
    requires t.conns == s.conns && t.inbox == s.inbox
    requires t.stage == s.stage || (!Owns(s.stage) && !Owns(t.stage))
    ensures Inv(t)
  {
    forall i | 0 <= i < |t.conns|
      ensures ConnectionOk(t, t.conns[i], i)
    {
      assert ConnectionOk(s, s.conns[i], i);
    }
  }

  /** Whether a connection lives does not matter to the invariant, nor that its idle reader ends. */
  lemma ConnectionKeeps(s: State, i: nat, c: Connection)
    requires Inv(s) && i < |s.conns|
    requires c.pending == s.conns[i].pending && c.mutationPending == s.conns[i].mutationPending
    requires c.reader == s.conns[i].reader || (Held(c).None? && Held(s.conns[i]).None?)
    ensures Inv(SetConn(s, i, c))
  {
    var t := SetConn(s, i, c);
    forall k | 0 <= k < |t.conns|
      ensures ConnectionOk(t, t.conns[k], k)
      ensures Held(t.conns[k]) == Held(s.conns[k]) && t.conns[k].mutationPending == s.conns[k].mutationPending
    {
      assert ConnectionOk(s, s.conns[k], k);
    }
    hide ConnectionOk, Held;
  }

  lemma ConnectKeeps(s: State, started: bool)
    requires Inv(s)
    ensures Inv(Next(s, Connect(started)))
  {
  }

  lemma CreateMarkerKeeps(s: State)
    requires Inv(s)
    ensures Inv(Next(s, CreateMarker))
  {
  }

  lemma RecordKeeps(s: State, works: bool)
    requires Inv(s)
    ensures Inv(Next(s, Record(works)))
  {
  }

  lemma CheckKeeps(s: State, fits: bool)
    requires Inv(s)
    ensures Inv(Next(s, Check(fits)))
  {
  }

  lemma FlagKeeps(s: State)
    requires Inv(s)
    ensures Inv(Next(s, Flag))
  {
  }

  lemma WriteParts(s: State, works: bool)
    requires Inv(s)
    ensures var t := Next(s, Write(works)); MarkerOk(t) && OnlyOwn(t) && FlagOk(t) && FreshOk(t)
  {
    hide OneHolder;
  }

  lemma WriteKeeps(s: State, works: bool)
    requires Inv(s)
    ensures Inv(Next(s, Write(works)))
  {
    WriteParts(s, works);
    hide MarkerOk, OnlyOwn, FlagOk;
  }

  lemma CloseBrokenKeeps(s: State)
    requires Inv(s)
    ensures Inv(Next(s, CloseBroken))
  {
  }

  lemma ReceiveKeeps(s: State)
    requires Inv(s)
    ensures Inv(Next(s, Receive))
  {
  }

  lemma DecideKeeps(s: State)
    requires Inv(s)
    ensures Inv(Next(s, Decide))
  {
    var t := Next(s, Decide);
    assert MarkerOk(t) && OnlyOwn(t) && FlagOk(t) && FreshOk(t);
    hide MarkerOk, OnlyOwn, FlagOk, FreshOk, OneHolder;
  }

  lemma SettleKeeps(s: State, works: bool)
    requires Inv(s)
    ensures Inv(Next(s, Settle(works)))
  {
  }

  lemma ClearParts(s: State, i: nat)
    requires Inv(s)
    ensures var t := Next(s, Clear(i)); MarkerOk(t) && OnlyOwn(t) && FlagOk(t) && FreshOk(t)
  {
    assert i < |s.conns| ==> ConnectionOk(s, s.conns[i], i);
    hide OneHolder;
  }

  lemma ClearKeeps(s: State, i: nat)
    requires Inv(s)
    ensures Inv(Next(s, Clear(i)))
  {
    ClearParts(s, i);
    hide MarkerOk, OnlyOwn, FlagOk;
  }

  lemma PassParts(s: State, i: nat)
    requires Inv(s)
    ensures var t := Next(s, Pass(i)); MarkerOk(t) && OnlyOwn(t) && FlagOk(t) && FreshOk(t)
  {
    assert i < |s.conns| ==> ConnectionOk(s, s.conns[i], i);
    hide OneHolder;
  }

  lemma PassKeeps(s: State, i: nat)
    requires Inv(s)
    ensures Inv(Next(s, Pass(i)))
  {
    PassParts(s, i);
    hide MarkerOk, OnlyOwn, FlagOk;
  }

  lemma EndReaderKeeps(s: State, i: nat)
    requires Inv(s)
    ensures Inv(Next(s, EndReader(i)))
  {
    hide Inv;
    if i < |s.conns| && s.conns[i].reader.Reading? {
      var ended := SetConn(s, i, s.conns[i].(reader := Ended));
      ConnectionKeeps(s, i, ended.conns[i]);
      StillBusy(s);
      Same(ended, Next(s, EndReader(i)));
    }
  }

  lemma StillBusy(s: State)
    requires Inv(s)
    ensures (!s.stage.Idle? ==> s.busy) && (s.stage.Confirming? ==> s.stage.conn < |s.conns|)
  {
  }

  lemma ReplyParts(s: State, i: nat, id: Id, ok: bool)
    requires Inv(s)
    ensures var t := Next(s, Reply(i, id, ok)); MarkerOk(t) && OnlyOwn(t) && FlagOk(t) && FreshOk(t)
  {
    hide OneHolder;
  }

  lemma ReplyKeeps(s: State, i: nat, id: Id, ok: bool)
    requires Inv(s)
    ensures Inv(Next(s, Reply(i, id, ok)))
  {
    ReplyParts(s, i, id, ok);
    hide MarkerOk, OnlyOwn, FlagOk;
  }

  lemma DrainKeeps(s: State, i: nat)
    requires Inv(s)
    ensures Inv(Next(s, Drain(i)))
  {
  }

  lemma ClosingKeeps(s: State, a: Step)
    requires Inv(s) && (a.Disconnect? || a.CloseInput? || a.Exit?)
    ensures Inv(Next(s, a))
  {
    hide Inv;
    if a.conn < |s.conns| {
      ConnectionKeeps(s, a.conn, Next(s, a).conns[a.conn]);
    }
  }

  /** Every step keeps the invariant. */
  lemma StepKeeps(s: State, a: Step)
    requires Inv(s)
    ensures Inv(Next(s, a))
  {
    hide Inv, Next;
    match a {
      case CheckMarker | StartOther | StartMutating(_) | Decline | Finish(_) => InterfaceKeeps(s, a);
      case Connect(started) => ConnectKeeps(s, started);
      case CreateMarker => CreateMarkerKeeps(s);
      case Record(works) => RecordKeeps(s, works);
      case Check(fits) => CheckKeeps(s, fits);
      case Flag => FlagKeeps(s);
      case Write(works) => WriteKeeps(s, works);
      case CloseBroken => CloseBrokenKeeps(s);
      case Receive => ReceiveKeeps(s);
      case Decide => DecideKeeps(s);
      case Settle(works) => SettleKeeps(s, works);
      case Disconnect(_) | CloseInput(_) | Exit(_) => ClosingKeeps(s, a);
      case Drain(i) => DrainKeeps(s, i);
      case Reply(i, id, ok) => ReplyKeeps(s, i, id, ok);
      case Clear(i) => ClearKeeps(s, i);
      case Pass(i) => PassKeeps(s, i);
      case EndReader(i) => EndReaderKeeps(s, i);
      case CrashAndRestart => CrashKeeps(s);
    }
  }

  lemma InterfaceKeeps(s: State, a: Step)
    requires Inv(s) && (a.CheckMarker? || a.StartOther? || a.StartMutating? || a.Decline? || a.Finish?)
    ensures Inv(Next(s, a))
  {
    Same(s, Next(s, a));
  }

  lemma CrashKeeps(s: State)
    requires Inv(s)
    ensures Inv(Next(s, CrashAndRestart))
  {
  }

  // Whole runs.

  function Run(s: State, steps: seq<Step>): State
    decreases |steps|
  {
    if steps == [] then s else Run(Next(s, steps[0]), steps[1..])
  }

  lemma {:induction false} RunKeeps(s: State, steps: seq<Step>)
    requires Inv(s)
    ensures Inv(Run(s, steps))
    decreases |steps|
  {
    hide Inv, Next;
    if steps != [] {
      StepKeeps(s, steps[0]);
      RunKeeps(Next(s, steps[0]), steps[1..]);
    }
  }

  /** While a request was written and its reply not taken, its marker exists. */
  lemma UnsettledIsMarked(steps: seq<Step>)
    ensures var s := Run(START, steps); Unsettled(s) != {} ==> !s.marker.Absent?
  {
    StartOk();
    RunKeeps(START, steps);
    hide Run;
  }

  lemma OnlyWriteWrites(s: State, a: Step)
    requires !a.Write?
    ensures Next(s, a).written == s.written
  {
    match a {
      case CloseBroken | Drain(_) | Reply(_, _, _) | Clear(_) | Pass(_) | EndReader(_) =>
      case Check(_) | Flag | Connect(_) | Decide | Settle(_) | Receive =>
      case _ =>
    }
  }

  lemma WritesAlone(s: State, a: Step)
    requires OnlyOwn(s) && a.Write? && Next(s, a).written != s.written
    ensures s.stage.Flagged? && Unsettled(s) == {} && s.stage.id !in s.written
    ensures Next(s, a).written == s.written + {s.stage.id} && Next(s, a).settled == s.settled
  {
  }

  /** No request is written while another one is unsettled. */
  lemma NeverTwo(steps: seq<Step>, a: Step)
    ensures var s := Run(START, steps);
            Next(s, a).written != s.written ==> Unsettled(s) == {} && |Unsettled(Next(s, a))| == 1
  {
    StartOk();
    RunKeeps(START, steps);
    var s := Run(START, steps);
    hide Run, Next, FlagOk, FreshOk, OneHolder, ConnectionOk, MarkerOk;
    if !a.Write? {
      OnlyWriteWrites(s, a);
    } else if Next(s, a).written != s.written {
      WritesAlone(s, a);
      hide OnlyOwn;
      assert s.stage.id !in s.settled ==> Unsettled(Next(s, a)) == {s.stage.id};
    }
  }

  /** A process that has not started anything and, once it looked, knows of an operation before it. */
  predicate Refusing(t: State, written: set<Id>) {
    t.stage.Idle? && !t.marker.Absent? && (t.checked ==> t.unknown) && t.written == written
  }

  lemma {:induction false} StaysRefusing(t: State, later: seq<Step>)
    requires Refusing(t, t.written) && forall k | 0 <= k < |later| :: !later[k].CrashAndRestart?
    ensures Refusing(Run(t, later), t.written)
    decreases |later|
  {
    if later != [] {
      StillRefusing(t, later[0]);
      hide Refusing, Next;
      StaysRefusing(Next(t, later[0]), later[1..]);
    }
  }

  lemma StillRefusing(t: State, a: Step)
    requires Refusing(t, t.written) && !a.CrashAndRestart?
    ensures Next(t, a).written == t.written && Refusing(Next(t, a), t.written)
  {
  }

  /**
   * While a request of an earlier run is unsettled, a process that was started since then never starts
   * anything and writes nothing, however long it runs.
   */
  lemma RestartRefuses(steps: seq<Step>, later: seq<Step>, a: Step)
    requires forall k | 0 <= k < |later| :: !later[k].CrashAndRestart?
    ensures var s := Run(START, steps); Unsettled(s) != {} ==>
              var t := Run(Next(s, CrashAndRestart), later);
              && t.stage.Idle? && t.written == s.written
              && (a.StartOther? || a.StartMutating? ==> Next(t, a) == t)
  {
    var s := Run(START, steps);
    UnsettledIsMarked(steps);
    if Unsettled(s) != {} {
      var restarted := Next(s, CrashAndRestart);
      assert Refusing(restarted, s.written);
      StaysRefusing(restarted, later);
    }
  }
}
