// What the marker does not block: a request that was answered is settled, and the next one may follow.
module AppleProgress {
  import opened Bytes
  import opened AppleMarker

  /** Neither recording the marker nor settling it fails in this step. */
  predicate FilesWork(a: Step) {
    (a.Record? ==> a.works) && (a.Settle? ==> a.works)
  }

  /** A worker that does not own the marker has left none, unless the process has seen or met an unknown outcome. */
  predicate Settled(s: State) {
    && (s.checked && !s.unknown && !Owns(s.stage) ==> s.marker.Absent?)
    && (!s.checked ==> s.stage.Idle?)
  }

  /** A worker at rest leaves the process free. */
  predicate AtRest(s: State) {
    s.stage.Idle? ==> !s.busy
  }

  lemma SettledStep(s: State, a: Step)
    requires Settled(s) && MarkerOk(s) && FilesWork(a)
    ensures Settled(Next(s, a))
  {
    match a {
      case CheckMarker | StartOther | StartMutating(_) | Decline | Finish(_) =>
      case CreateMarker | Record(_) | Check(_) | Flag | Write(_) | CloseBroken | Receive | Decide | Settle(_) =>
      case _ =>
    }
  }

  lemma RestStep(s: State, a: Step)
    requires AtRest(s)
    ensures AtRest(Next(s, a))
  {
    match a {
      case CheckMarker | StartOther | StartMutating(_) | Decline | Finish(_) =>
      case CreateMarker | Record(_) | Check(_) | Flag | Write(_) | CloseBroken | Receive | Decide | Settle(_) =>
      case _ =>
    }
  }

  lemma {:induction false} RunSettled(s: State, steps: seq<Step>)
    requires Inv(s) && Settled(s) && forall k | 0 <= k < |steps| :: FilesWork(steps[k])
    ensures Settled(Run(s, steps))
    decreases |steps|
  {
    hide Next, Settled, MarkerOk, OnlyOwn, FlagOk, FreshOk, OneHolder, ConnectionOk, FilesWork;
    if steps != [] {
      SettledStep(s, steps[0]);
      StepKeeps(s, steps[0]);
      RunSettled(Next(s, steps[0]), steps[1..]);
    }
  }

  lemma {:induction false} RunRests(s: State, steps: seq<Step>)
    requires AtRest(s)
    ensures AtRest(Run(s, steps))
    decreases |steps|
  {
    hide Next, AtRest;
    if steps != [] {
      RestStep(s, steps[0]);
      RunRests(Next(s, steps[0]), steps[1..]);
    }
  }

  /**
   * Over every run in which the marker file can be recorded and removed, a process that has looked, knows of no
   * unknown outcome and whose worker holds no marker finds none on the disk.
   */
  lemma NoneLeftBehind(steps: seq<Step>)
    requires forall k | 0 <= k < |steps| :: FilesWork(steps[k])
    ensures var s := Run(START, steps); s.checked && !s.unknown && !Owns(s.stage) ==> s.marker.Absent?
  {
    StartOk();
    hide Run, Next, Inv;
    RunSettled(START, steps);
  }

  // A reader that ends over a pending request.

  /** The process knows of an unknown outcome; a worker at rest stays there and writes nothing. */
  predicate Knows(t: State, idle: bool, written: set<Id>) {
    t.unknown && (idle ==> t.stage.Idle? && t.written == written)
  }

  lemma StillKnows(t: State, idle: bool, written: set<Id>, a: Step)
    requires Knows(t, idle, written) && !a.CrashAndRestart?
    ensures Knows(Next(t, a), idle, written)
  {
  }

  lemma {:induction false} StaysKnown(t: State, idle: bool, written: set<Id>, later: seq<Step>)
    requires Knows(t, idle, written) && forall k | 0 <= k < |later| :: !later[k].CrashAndRestart?
    ensures Knows(Run(t, later), idle, written)
    decreases |later|
  {
    hide Knows, Next;
    if later != [] {
      StillKnows(t, idle, written, later[0]);
      StaysKnown(Next(t, later[0]), idle, written, later[1..]);
    }
  }

  /**
   * When the reader of the current connection ends over a mutating request, the outcome is unknown to the process
   * from then on: it starts nothing again, and writes nothing if its worker was at rest.
   */
  lemma LossIsKnown(s: State, i: nat, later: seq<Step>, a: Step)
    requires i < |s.conns| && s.conns[i].reader.Reading? && s.conns[i].mutationPending
    requires s.conns[i].generation == s.generation && forall k | 0 <= k < |later| :: !later[k].CrashAndRestart?
    ensures var t := Run(Next(s, EndReader(i)), later);
            && t.unknown && (s.stage.Idle? ==> t.stage.Idle? && t.written == s.written)
            && (a.StartOther? || a.StartMutating? ==> Next(t, a) == t)
  {
    StaysKnown(Next(s, EndReader(i)), s.stage.Idle?, s.written, later);
    hide Run;
  }

  // One request, undisturbed.

  /** From the click to the companion's standard input. */
  function Sending(i: nat): seq<Step> {
    [StartMutating(i), CreateMarker, Record(true), Check(true), Flag, Write(true)]
  }

  /** From the answer back to rest. */
  function Answering(i: nat, id: Id, ok: bool): seq<Step> {
    [Reply(i, id, ok), Clear(i), Pass(i), Receive, Decide, Settle(true), Finish(false)]
  }

  /** A process that may start a request on connection i, whose reader listens. */
  predicate Ready(s: State, i: nat) {
    && s.stage.Idle? && s.checked && !s.unknown && s.marker.Absent?
    && i < |s.conns| && s.conns[i].alive && s.conns[i].inputOpen && s.conns[i].reader.Reading?
  }

  /** The connection with the request written and pending. */
  function Asked(c: Connection, id: Id): Connection {
    c.(pending := Some(id), mutationPending := true)
  }

  lemma RunTwo(s: State, a: Step, rest: seq<Step>)
    ensures Run(s, [a] + rest) == Run(Next(s, a), rest)
  {
    hide Next;
    assert ([a] + rest)[1..] == rest;
  }

  lemma {:induction false} RunAppend(s: State, a: seq<Step>, b: seq<Step>)
    ensures Run(s, a + b) == Run(Run(s, a), b)
    decreases |a|
  {
    hide Next;
    if a == [] {
      assert a + b == b;
    } else {
      assert (a + b)[1..] == a[1..] + b;
      RunAppend(Next(s, a[0]), a[1..], b);
    }
  }

  lemma RunThree(s: State, a: Step, b: Step, c: Step)
    ensures Run(s, [a, b, c]) == Next(Next(Next(s, a), b), c)
  {
    hide Next;
    assert [a, b, c] == [a] + [b, c];
    assert [b, c] == [b] + [c];
    assert [c] == [c] + [];
    RunTwo(s, a, [b, c]);
    RunTwo(Next(s, a), b, [c]);
    RunTwo(Next(Next(s, a), b), c, []);
  }

  lemma Checks(s: State, i: nat, token: Id)
    requires s.stage == Calling(i, token) && i < |s.conns| && s.conns[i].alive
    ensures Next(s, Check(true)) ==
            s.(conns := s.conns[i := s.conns[i].(pending := Some(s.next))], next := s.next + 1,
               stage := Inserted(i, token, s.next))
  {
  }

  lemma Flags(s: State, i: nat, c: Connection, token: Id, id: Id)
    requires s.stage == Inserted(i, token, id) && i < |s.conns| && s.conns[i] == c.(pending := Some(id))
    ensures Next(s, Flag) == s.(conns := s.conns[i := Asked(c, id)], stage := Flagged(i, token, id))
  {
  }

  lemma Asks(s: State, i: nat, token: Id)
    requires s.stage == Calling(i, token) && i < |s.conns| && s.conns[i].alive
    ensures Run(s, [Check(true), Flag]) ==
            s.(conns := s.conns[i := Asked(s.conns[i], s.next)], next := s.next + 1, stage := Flagged(i, token, s.next))
  {
    hide Next;
    assert [Check(true), Flag] == [Check(true)] + [Flag];
    assert [Flag] == [Flag] + [];
    RunTwo(s, Check(true), [Flag]);
    Checks(s, i, token);
    var t := Next(s, Check(true));
    RunTwo(t, Flag, []);
    Flags(t, i, s.conns[i], token, s.next);
    hide Run;
    assert s.conns[i := s.conns[i].(pending := Some(s.next))][i := Asked(s.conns[i], s.next)]
        == s.conns[i := Asked(s.conns[i], s.next)];
  }

  lemma Writes(s: State, i: nat, token: Id, id: Id)
    requires s.stage == Flagged(i, token, id) && i < |s.conns| && s.conns[i].inputOpen
    ensures Run(s, [Write(true)]) == s.(written := s.written + {id}, stage := Waiting(i, token, id))
  {
    assert [Write(true)] == [Write(true)] + [];
    RunTwo(s, Write(true), []);
  }

  lemma Sends(s: State, i: nat)
    requires Ready(s, i) && !s.busy
    ensures Run(s, Sending(i)) ==
            s.(busy := true, marker := Marked(s.next), next := s.next + 2,
               conns := s.conns[i := Asked(s.conns[i], s.next + 1)], written := s.written + {s.next + 1},
               stage := Waiting(i, s.next, s.next + 1))
  {
    hide Next, Run;
    var marking := [StartMutating(i), CreateMarker, Record(true)];
    assert Sending(i) == (marking + [Check(true), Flag]) + [Write(true)];
    RunAppend(s, marking + [Check(true), Flag], [Write(true)]);
    RunAppend(s, marking, [Check(true), Flag]);
    Marks(s, i);
    Asks(Run(s, marking), i, s.next);
    Writes(Run(Run(s, marking), [Check(true), Flag]), i, s.next, s.next + 1);
  }

  /** The reader takes the reply: it removes the request, clears the flag and passes the reply on. */
  lemma Takes(s: State, i: nat, id: Id, ok: bool)
    requires id in s.written && i < |s.conns| && s.conns[i].pending == Some(id) && s.conns[i].reader.Reading?
    ensures Run(s, [Reply(i, id, ok), Clear(i), Pass(i)]) ==
            s.(settled := s.settled + {id}, inbox := s.inbox[id := ok],
               conns := s.conns[i := s.conns[i].(pending := None, mutationPending := false)])
  {
    hide Next, Run;
    RunThree(s, Reply(i, id, ok), Clear(i), Pass(i));
    var c := s.conns[i].(pending := None);
    Replies(s, i, id, ok);
    var t := Next(s, Reply(i, id, ok));
    Clears(t, i, c, id, ok);
    Passes(Next(t, Clear(i)), i, c.(mutationPending := false), id, ok);
    var u := s.conns[i := c.(reader := Removed(id, ok))];
    var v := u[i := c.(mutationPending := false, reader := Cleared(id, ok))];
    assert v[i := c.(mutationPending := false)] == s.conns[i := c.(mutationPending := false)];
  }

  lemma Replies(s: State, i: nat, id: Id, ok: bool)
    requires id in s.written && i < |s.conns| && s.conns[i].pending == Some(id) && s.conns[i].reader.Reading?
    ensures Next(s, Reply(i, id, ok)) ==
            s.(settled := s.settled + {id}, conns := s.conns[i := s.conns[i].(pending := None, reader := Removed(id, ok))])
  {
  }

  lemma Clears(s: State, i: nat, c: Connection, id: Id, ok: bool)
    requires i < |s.conns| && s.conns[i] == c.(reader := Removed(id, ok))
    ensures Next(s, Clear(i)) == s.(conns := s.conns[i := c.(mutationPending := false, reader := Cleared(id, ok))])
  {
  }

  lemma Passes(s: State, i: nat, c: Connection, id: Id, ok: bool)
    requires i < |s.conns| && s.conns[i] == c.(reader := Cleared(id, ok)) && c.reader.Reading?
    ensures Next(s, Pass(i)) == s.(conns := s.conns[i := c], inbox := s.inbox[id := ok])
  {
  }

  /** The worker finds the reply, settles its marker and is done. */
  lemma Ends(s: State, i: nat, token: Id, id: Id)
    requires s.stage == Waiting(i, token, id) && s.marker == Marked(token) && i < |s.conns|
    requires id in s.inbox && !s.conns[i].mutationPending
    ensures Run(s, [Receive, Decide, Settle(true)]) == s.(marker := Absent, stage := Finishing)
  {
    RunThree(s, Receive, Decide, Settle(true));
    hide Run;
  }

  lemma Answers(s: State, i: nat, token: Id, id: Id, ok: bool)
    requires s.stage == Waiting(i, token, id) && s.marker == Marked(token) && id in s.written && i < |s.conns|
    requires s.conns[i].pending == Some(id) && s.conns[i].reader.Reading?
    ensures Run(s, Answering(i, id, ok)) ==
            s.(busy := false, marker := Absent, settled := s.settled + {id}, inbox := s.inbox[id := ok], stage := Idle,
               conns := s.conns[i := s.conns[i].(pending := None, mutationPending := false)])
  {
    hide Next, Run;
    var taking := [Reply(i, id, ok), Clear(i), Pass(i)];
    var ending := [Receive, Decide, Settle(true)];
    assert Answering(i, id, ok) == (taking + ending) + [Finish(false)];
    RunAppend(s, taking + ending, [Finish(false)]);
    RunAppend(s, taking, ending);
    Takes(s, i, id, ok);
    Ends(Run(s, taking), i, token, id);
    Finishes(Run(Run(s, taking), ending), false);
  }

  /**
   * From every reachable state in which a process may start a request, an undisturbed request writes exactly one
   * identifier, a new one, and whatever the answer the process is then ready again with no marker left.
   */
  lemma RequestSettles(steps: seq<Step>, i: nat, ok: bool)
    requires Ready(Run(START, steps), i)
    ensures var s := Run(START, steps);
            var id := s.next + 1;
            var t := Run(s, Sending(i) + Answering(i, id, ok));
            && id !in s.written && t.written == s.written + {id} && t.settled == s.settled + {id}
            && t.marker.Absent? && t.stage.Idle? && Ready(t, i) && id in t.inbox && t.inbox[id] == ok
  {
    hide Run, Next;
    var s := Run(START, steps);
    StartOk();
    RunKeeps(START, steps);
    RunRests(START, steps);
    RunAppend(s, Sending(i), Answering(i, s.next + 1, ok));
    Sends(s, i);
    hide MarkerOk, OnlyOwn, FlagOk, OneHolder, ConnectionOk, Owns;
    Answers(Run(s, Sending(i)), i, s.next, s.next + 1, ok);
  }

  // One request that does not get through.

  /** From the click to the refusal before anything is sent, and back to rest. */
  function Refusing(i: nat, fits: bool): seq<Step> {
    [StartMutating(i), CreateMarker, Record(true), Check(fits), Decide, Settle(true), Finish(true)]
  }

  lemma Refuses(s: State, i: nat, token: Id, fits: bool)
    requires s.stage == Calling(i, token) && s.marker == Marked(token) && i < |s.conns|
    requires !s.conns[i].mutationPending && (!s.conns[i].alive || !fits)
    ensures Run(s, [Check(fits), Decide, Settle(true)]) == s.(marker := Absent, stage := Finishing)
  {
    RunThree(s, Check(fits), Decide, Settle(true));
    hide Run;
  }

  lemma Finishes(s: State, failed: bool)
    requires s.stage.Finishing?
    ensures Run(s, [Finish(failed)]) == s.(busy := false, stage := Idle)
  {
    assert [Finish(failed)] == [Finish(failed)] + [];
    RunTwo(s, Finish(failed), []);
  }

  /** On a closed connection, or if it is too large, a request is never written, and the process is as it was. */
  lemma RefusalSettles(s: State, i: nat, fits: bool)
    requires s.stage.Idle? && s.checked && !s.unknown && !s.busy && s.marker.Absent? && i < |s.conns|
    requires !s.conns[i].mutationPending && (!s.conns[i].alive || !fits)
    ensures Run(s, Refusing(i, fits)) == s.(next := s.next + 1)
  {
    hide Next, Run;
    var marking := [StartMutating(i), CreateMarker, Record(true)];
    var refusing := [Check(fits), Decide, Settle(true)];
    assert Refusing(i, fits) == (marking + refusing) + [Finish(true)];
    RunAppend(s, marking + refusing, [Finish(true)]);
    RunAppend(s, marking, refusing);
    Marks(s, i);
    Refuses(Run(s, marking), i, s.next, fits);
    Finishes(Run(Run(s, marking), refusing), true);
  }

  lemma Marks(s: State, i: nat)
    requires s.stage.Idle? && s.checked && !s.unknown && !s.busy && s.marker.Absent? && i < |s.conns|
    ensures Run(s, [StartMutating(i), CreateMarker, Record(true)]) ==
            s.(busy := true, marker := Marked(s.next), next := s.next + 1, stage := Calling(i, s.next))
  {
    RunThree(s, StartMutating(i), CreateMarker, Record(true));
    hide Run;
  }

  /** Closing the connection under a request, and the worker's way back to rest. */
  function Losing(i: nat): seq<Step> {
    [Disconnect(i), CloseInput(i), Drain(i), Receive, Decide, Finish(true)]
  }

  lemma Closes(s: State, i: nat, token: Id, id: Id)
    requires s.stage == Waiting(i, token, id) && i < |s.conns| && s.conns[i].pending == Some(id)
    ensures Run(s, [Disconnect(i), CloseInput(i), Drain(i)]) ==
            s.(conns := s.conns[i := s.conns[i].(alive := false, inputOpen := false, pending := None)],
               inbox := s.inbox[id := false])
  {
    hide Next, Run;
    RunThree(s, Disconnect(i), CloseInput(i), Drain(i));
    var c := s.conns[i];
    Disconnects(s, i, c);
    var t := Next(s, Disconnect(i));
    Shuts(t, i, c.(alive := false));
    var u := Next(t, CloseInput(i));
    Drains(u, i, c.(alive := false, inputOpen := false), id);
    var shut := s.conns[i := c.(alive := false)][i := c.(alive := false, inputOpen := false)];
    assert shut[i := c.(alive := false, inputOpen := false, pending := None)]
        == s.conns[i := c.(alive := false, inputOpen := false, pending := None)];
  }

  lemma Disconnects(s: State, i: nat, c: Connection)
    requires i < |s.conns| && s.conns[i] == c
    ensures Next(s, Disconnect(i)) == s.(conns := s.conns[i := c.(alive := false)])
  {
  }

  lemma Shuts(s: State, i: nat, c: Connection)
    requires i < |s.conns| && s.conns[i] == c
    ensures Next(s, CloseInput(i)) == s.(conns := s.conns[i := c.(inputOpen := false)])
  {
  }

  lemma Drains(s: State, i: nat, c: Connection, id: Id)
    requires i < |s.conns| && s.conns[i] == c && c.pending == Some(id)
    ensures Next(s, Drain(i)) == s.(conns := s.conns[i := c.(pending := None)], inbox := s.inbox[id := false])
  {
  }

  lemma GivesUp(s: State, i: nat, token: Id, id: Id)
    requires s.stage == Waiting(i, token, id) && i < |s.conns| && id in s.inbox && !s.inbox[id]
    requires s.conns[i].mutationPending
    ensures Run(s, [Receive, Decide, Finish(true)]) == s.(unknown := true, busy := false, stage := Idle)
  {
    RunThree(s, Receive, Decide, Finish(true));
    hide Run;
  }

  /** A connection that is closed under a request ends the wait: the outcome is then unknown and the marker stays. */
  lemma LossSettles(s: State, i: nat, token: Id, id: Id)
    requires s.stage == Waiting(i, token, id) && i < |s.conns|
    requires s.conns[i].pending == Some(id) && s.conns[i].mutationPending
    ensures var t := Run(s, Losing(i));
            t.stage.Idle? && !t.busy && t.unknown && t.marker == s.marker && t.written == s.written && t.settled == s.settled
  {
    hide Next, Run;
    var closing := [Disconnect(i), CloseInput(i), Drain(i)];
    assert Losing(i) == closing + [Receive, Decide, Finish(true)];
    RunAppend(s, closing, [Receive, Decide, Finish(true)]);
    Closes(s, i, token, id);
    GivesUp(Run(s, closing), i, token, id);
  }

  lemma Breaks(s: State, i: nat, token: Id, id: Id)
    requires s.stage == Flagged(i, token, id) && i < |s.conns| && s.conns[i].inputOpen
    requires s.conns[i].pending == Some(id) && s.conns[i].mutationPending
    ensures Run(s, [Write(false), CloseBroken, Decide]) ==
            s.(written := s.written + {id}, unknown := true, stage := Finishing, inbox := s.inbox[id := false],
               conns := s.conns[i := s.conns[i].(alive := false, inputOpen := false, pending := None)])
  {
    hide Run;
    RunThree(s, Write(false), CloseBroken, Decide);
  }

  /** A write that fails ends the request too: it may have arrived, so that the outcome is unknown and the marker stays. */
  lemma BrokenSettles(s: State, i: nat, token: Id, id: Id)
    requires s.stage == Flagged(i, token, id) && i < |s.conns| && s.conns[i].inputOpen
    requires s.conns[i].pending == Some(id) && s.conns[i].mutationPending
    ensures var t := Run(s, [Write(false), CloseBroken, Decide] + [Finish(true)]);
            t.stage.Idle? && !t.busy && t.unknown && t.marker == s.marker && t.written == s.written + {id}
  {
    hide Next, Run;
    RunAppend(s, [Write(false), CloseBroken, Decide], [Finish(true)]);
    Breaks(s, i, token, id);
    Finishes(Run(s, [Write(false), CloseBroken, Decide]), true);
  }

  /** A fresh process gets ready on its own: it looks, connects, and rests. */
  lemma FreshIsReady()
    ensures Ready(Run(START, [CheckMarker, StartOther, Connect(false), Finish(false)]), 0)
  {
    assert [CheckMarker, StartOther, Connect(false), Finish(false)] == [CheckMarker] + [StartOther, Connect(false), Finish(false)];
    RunTwo(START, CheckMarker, [StartOther, Connect(false), Finish(false)]);
    RunThree(Next(START, CheckMarker), StartOther, Connect(false), Finish(false));
  }
}
