// How an operation stands, told from the requests that were accepted for it.
module OperationFate {
  import opened Bytes
  import opened PlanHash
  import opened OperationTracker

  /** The hashes that accepted cancellations of an operation named. */
  function StopsOf(log: seq<Request>, op: OperationId): seq<Digest> {
    if log == [] then []
    else
      var n := |log| - 1;
      StopsOf(log[..n], op) + if log[n].Cancel? && OperationOf(log[n]) == op then [log[n].hash] else []
  }

  /** What the last event says; running while there is none. */
  function LastOf(events: seq<Event>): Disposition {
    if events == [] then IsRunning else events[|events| - 1].disposition
  }

  /** Each state of an operation and exactly when it is in it. */
  predicate Fate(t: Tracked, executions: seq<Binding>, last: Disposition, stops: seq<Digest>) {
    && (t.state.Prepared? <==> executions == [] && stops == [])
    && (t.state.Executing? <==> executions != [] && stops == [] && last.IsRunning?)
    && (t.state.Completed? <==> last.IsCompleted?)
    && (t.state.Failed? <==> last.IsFailed?)
    && (t.state.Cancelled? <==> last.IsCancelled? || stops != [])
    && (stops == [] || (stops == [t.binding.hash] && last.IsRunning?))
  }

  predicate Fated(ops: Operations, log: seq<Request>, op: OperationId) {
    if op !in ops then ExecutionsOf(log, op) == [] && EventsOf(log, op) == [] && StopsOf(log, op) == []
    else Fate(ops[op], ExecutionsOf(log, op), LastOf(EventsOf(log, op)), StopsOf(log, op))
  }

  lemma OneMoreStop(log: seq<Request>, r: Request, op: OperationId)
    ensures StopsOf(log + [r], op) == StopsOf(log, op) + if r.Cancel? && OperationOf(r) == op then [r.hash] else []
  {
    assert (log + [r])[..|log|] == log;
  }

  lemma FateNext(ops: Operations, log: seq<Request>, r: Request, op: OperationId, hash: Hash)
    requires Accept(ops, r, hash).Some? && Fated(ops, log, op)
    ensures Fated(ops[OperationOf(r) := Accept(ops, r, hash).value], log + [r], op)
  {
    OneMore(log, r, op);
    OneMoreStop(log, r, op);
    hide PlansOf, ExecutionsOf, EventsOf, StopsOf, ValidPlan, ValidEvent;
    var executions, events, stops := ExecutionsOf(log, op), EventsOf(log, op), StopsOf(log, op);
    assert executions + [] == executions && events + [] == events && stops + [] == stops;
  }

  /**
   * Over every run an operation completed, failed or was cancelled exactly if its last event says so or, for the
   * latter, a cancellation naming its plan was accepted; it executes exactly from its execution until then.
   */
  lemma {:induction false} LogDecides(log: seq<Request>, op: OperationId, hash: Hash)
    requires Operated(log, hash).Some?
    ensures Fated(Operated(log, hash).value, log, op)
    decreases |log|
  {
    if log != [] {
      var n := |log| - 1;
      LogDecides(log[..n], op, hash);
      assert log[..n] + [log[n]] == log;
      hide Fated, Accept;
      FateNext(Operated(log[..n], hash).value, log[..n], log[n], op, hash);
    }
  }
}
