// The state validator shared by both ends of the protocol, and its replay guard.
module OperationTracker {
  import opened Bytes
  import opened PlanHash

  /** The digest that plans are hashed with. */
  type Hash = seq<byte> -> Digest

  datatype Binding = Binding(operation: OperationId, hash: Digest, artifact: Artifact, target: Target)

  datatype OperationState = Prepared | Executing | Completed | Cancelled | Failed

  predicate Terminal(s: OperationState) {
    s.Completed? || s.Cancelled? || s.Failed?
  }

  datatype Disposition = IsRunning | IsCompleted | IsCancelled | IsFailed

  datatype Event = Event(operation: OperationId, sequence: nat, completed: nat, total: nat, disposition: Disposition)

  datatype Request =
    | Prepare(plan: Plan)
    | Execute(binding: Binding)
    | Progress(event: Event)
    | Cancel(operation: OperationId, hash: Digest)

  datatype Tracked = Tracked(binding: Binding, state: OperationState, next: nat, completed: nat)

  type Operations = map<OperationId, Tracked>

  function BindingOf(p: Plan): Binding {
    Binding(p.content.operation, p.hash, p.content.artifact, p.content.target)
  }

  predicate ValidPlan(p: Plan, hash: Hash) {
    var c := p.content;
    && 1 <= |c.steps| <= MAX_PLAN_STEPS && p.hash == hash(HashInput(c))
    && c.artifact.byteLength != 0 && c.target.capacity != 0
    && (c.action.WriteUsb? ==> (c.target.kind.RemovableUsb? || c.target.kind.Simulation?)
                               && c.artifact.byteLength <= c.target.capacity)
  }

  predicate ValidEvent(e: Event) {
    e.total != 0 && e.completed <= e.total && (e.disposition.IsCompleted? ==> e.completed == e.total)
  }

  function After(d: Disposition): OperationState {
    match d
    case IsRunning => Executing
    case IsCompleted => Completed
    case IsCancelled => Cancelled
    case IsFailed => Failed
  }

  function OperationOf(r: Request): OperationId {
    match r
    case Prepare(plan) => plan.content.operation
    case Execute(binding) => binding.operation
    case Progress(event) => event.operation
    case Cancel(operation, _) => operation
  }

  /** What an accepted request makes of its operation; None when it is refused. */
  function Accept(ops: Operations, r: Request, hash: Hash): Option<Tracked> {
    var op := OperationOf(r);
    match r
    case Prepare(plan) =>
      if !ValidPlan(plan, hash) || op in ops then None else Some(Tracked(BindingOf(plan), Prepared, 0, 0))
    case Execute(binding) =>
      if op !in ops || !ops[op].state.Prepared? || ops[op].binding != binding then None
      else Some(ops[op].(state := Executing))
    case Progress(e) =>
      if !ValidEvent(e) || op !in ops || !ops[op].state.Executing? || e.sequence != ops[op].next
         || e.completed < ops[op].completed || ops[op].next + 1 >= U64_LIMIT then None
      else Some(ops[op].(next := ops[op].next + 1, completed := e.completed, state := After(e.disposition)))
    case Cancel(_, h) =>
      if op !in ops || ops[op].binding.hash != h || !(ops[op].state.Prepared? || ops[op].state.Executing?) then None
      else Some(ops[op].(state := Cancelled))
  }

  /** The operations after a log of requests that were all accepted. */
  function Operated(log: seq<Request>, hash: Hash): Option<Operations> {
    if log == [] then Some(map[])
    else
      var n := |log| - 1;
      var before := Operated(log[..n], hash);
      if before.None? then None
      else
        var t := Accept(before.value, log[n], hash);
        if t.None? then None else Some(before.value[OperationOf(log[n]) := t.value])
  }

  lemma OperatedNext(log: seq<Request>, r: Request, before: Operations, hash: Hash)
    requires Operated(log, hash) == Some(before) && Accept(before, r, hash).Some?
    ensures Operated(log + [r], hash) == Some(before[OperationOf(r) := Accept(before, r, hash).value])
  {
    hide Accept;
    assert (log + [r])[..|log|] == log;
  }

  class Tracker {
    const hash: Hash
    var operations: Operations
    /** The requests accepted so far. */
    ghost var log: seq<Request>

    ghost predicate Valid()
      reads this
    {
      Operated(log, hash) == Some(operations)
    }

    constructor (hash: Hash)
      ensures Valid() && this.hash == hash && log == []
    {
      this.hash := hash;
      operations, log := map[], [];
    }

    /** Any request; a refused one changes nothing. */
    method Handle(r: Request) returns (ok: bool)
      requires Valid()
      modifies this
      ensures Valid()
      ensures ok <==> Accept(old(operations), r, hash).Some?
      ensures log == if ok then old(log) + [r] else old(log)
      ensures ok ==> operations == old(operations)[OperationOf(r) := Accept(old(operations), r, hash).value]
      ensures !ok ==> operations == old(operations)
    {
      match r {
        case Prepare(plan) => ok := PreparePlan(plan);
        case Execute(binding) => ok := ExecutePlan(binding);
        case Progress(event) => ok := Report(event);
        case Cancel(operation, h) => ok := CancelOperation(operation, h);
      }
    }

    ghost method Log(r: Request, before: Operations)
      requires Operated(log, hash) == Some(before) && Accept(before, r, hash).Some?
      requires operations == before[OperationOf(r) := Accept(before, r, hash).value]
      modifies `log
      ensures log == old(log) + [r] && Valid()
    {
      OperatedNext(log, r, before, hash);
      hide Operated, Accept;
      log := log + [r];
    }

    method PreparePlan(plan: Plan) returns (ok: bool)
      requires Valid()
      modifies this
      ensures Valid() && (ok <==> Accept(old(operations), Prepare(plan), hash).Some?)
      ensures var c := plan.content;
              ok <==> && c.operation !in old(operations) && 0 < |c.steps| < 65 && plan.hash == hash(HashInput(c))
                      && c.artifact.byteLength > 0 && c.target.capacity > 0
                      && !(c.action.WriteUsb? && (c.target.kind.InternalDisk? || c.target.kind.VirtualDisk?
                                                  || c.target.capacity < c.artifact.byteLength))
      ensures ok ==>
                var c := plan.content;
                c.operation in operations
                && operations[c.operation] == Tracked(Binding(c.operation, plan.hash, c.artifact, c.target), Prepared, 0, 0)
      ensures ok ==> log == old(log) + [Prepare(plan)]
      ensures ok ==> operations == old(operations)[plan.content.operation := Accept(old(operations), Prepare(plan), hash).value]
      ensures !ok ==> operations == old(operations) && log == old(log)
    {
      if !ValidPlan(plan, hash) || plan.content.operation in operations {
        return false;
      }
      ghost var before := operations;
      operations := operations[plan.content.operation := Tracked(BindingOf(plan), Prepared, 0, 0)];
      Log(Prepare(plan), before);
      return true;
    }

    method ExecutePlan(binding: Binding) returns (ok: bool)
      requires Valid()
      modifies this
      ensures Valid() && (ok <==> Accept(old(operations), Execute(binding), hash).Some?)
      ensures ok ==> log == old(log) + [Execute(binding)]
      ensures ok ==> operations == old(operations)[binding.operation := Accept(old(operations), Execute(binding), hash).value]
      ensures !ok ==> operations == old(operations) && log == old(log)
    {
      if binding.operation !in operations {
        return false;
      }
      var tracked := operations[binding.operation];
      if !tracked.state.Prepared? || tracked.binding != binding {
        return false;
      }
      ghost var before := operations;
      operations := operations[binding.operation := tracked.(state := Executing)];
      Log(Execute(binding), before);
      return true;
    }

    method Report(e: Event) returns (ok: bool)
      requires Valid()
      modifies this
      ensures Valid() && (ok <==> Accept(old(operations), Progress(e), hash).Some?)
      ensures ok <==> && e.operation in old(operations) && old(operations)[e.operation].state.Executing?
                      && e.sequence == old(operations)[e.operation].next < 0xffff_ffff_ffff_ffff
                      && old(operations)[e.operation].completed <= e.completed <= e.total && 0 < e.total
                      && (e.disposition.IsCompleted? ==> e.total <= e.completed)
      ensures ok ==> log == old(log) + [Progress(e)]
      ensures ok ==> operations == old(operations)[e.operation := Accept(old(operations), Progress(e), hash).value]
      ensures !ok ==> operations == old(operations) && log == old(log)
    {
      if !ValidEvent(e) || e.operation !in operations {
        return false;
      }
      var tracked := operations[e.operation];
      if !tracked.state.Executing? || e.sequence != tracked.next || e.completed < tracked.completed
         || tracked.next + 1 >= U64_LIMIT {
        return false;
      }
      ghost var before := operations;
      operations := operations[e.operation :=
        tracked.(next := tracked.next + 1, completed := e.completed, state := After(e.disposition))];
      Log(Progress(e), before);
      return true;
    }

    method CancelOperation(operation: OperationId, h: Digest) returns (ok: bool)
      requires Valid()
      modifies this
      ensures Valid() && (ok <==> Accept(old(operations), Cancel(operation, h), hash).Some?)
      ensures ok ==> log == old(log) + [Cancel(operation, h)]
      ensures ok ==> operations == old(operations)[operation := Accept(old(operations), Cancel(operation, h), hash).value]
      ensures !ok ==> operations == old(operations) && log == old(log)
    {
      if operation !in operations || operations[operation].binding.hash != h {
        return false;
      }
      var tracked := operations[operation];
      if !tracked.state.Prepared? && !tracked.state.Executing? {
        return false;
      }
      ghost var before := operations;
      operations := operations[operation := tracked.(state := Cancelled)];
      Log(Cancel(operation, h), before);
      return true;
    }
  }

  // What accepted logs look like.

  function PlansOf(log: seq<Request>, op: OperationId): seq<Plan> {
    if log == [] then []
    else
      var n := |log| - 1;
      PlansOf(log[..n], op) + if log[n].Prepare? && OperationOf(log[n]) == op then [log[n].plan] else []
  }

  function ExecutionsOf(log: seq<Request>, op: OperationId): seq<Binding> {
    if log == [] then []
    else
      var n := |log| - 1;
      ExecutionsOf(log[..n], op) + if log[n].Execute? && OperationOf(log[n]) == op then [log[n].binding] else []
  }

  function EventsOf(log: seq<Request>, op: OperationId): seq<Event> {
    if log == [] then []
    else
      var n := |log| - 1;
      EventsOf(log[..n], op) + if log[n].Progress? && OperationOf(log[n]) == op then [log[n].event] else []
  }

  /** Numbered from 0 without gaps, never going back, and valid one by one; only the last may end the operation. */
  predicate Orderly(es: seq<Event>) {
    && (forall k | 0 <= k < |es| :: es[k].sequence == k && ValidEvent(es[k]))
    && (forall j, k | 0 <= j < k < |es| :: es[j].completed <= es[k].completed && es[j].disposition.IsRunning?)
  }

  /** What the log tells of one operation. */
  predicate Told(ops: Operations, plans: seq<Plan>, executions: seq<Binding>, events: seq<Event>, op: OperationId, hash: Hash) {
    if op !in ops then plans == [] && executions == [] && events == []
    else
      var t := ops[op];
      && |plans| == 1 && plans[0].content.operation == op && ValidPlan(plans[0], hash) && t.binding == BindingOf(plans[0])
      && (executions == [] || executions == [t.binding])
      && (t.state.Prepared? ==> executions == [])
      && (events != [] || t.state.Executing? || t.state.Completed? || t.state.Failed? ==> executions != [])
      && Orderly(events) && t.next == |events|
      && t.completed == (if events == [] then 0 else events[|events| - 1].completed)
      && (t.state.Executing? && events != [] ==> events[|events| - 1].disposition.IsRunning?)
  }

  lemma TellOther(ops: Operations, log: seq<Request>, r: Request, t: Tracked, op: OperationId, hash: Hash)
    requires OperationOf(r) != op
    requires Told(ops, PlansOf(log, op), ExecutionsOf(log, op), EventsOf(log, op), op, hash)
    ensures Told(ops[OperationOf(r) := t], PlansOf(log + [r], op), ExecutionsOf(log + [r], op), EventsOf(log + [r], op), op, hash)
  {
    assert (log + [r])[..|log|] == log;
  }

  lemma OneMore(log: seq<Request>, r: Request, op: OperationId)
    ensures PlansOf(log + [r], op) == PlansOf(log, op) + if r.Prepare? && OperationOf(r) == op then [r.plan] else []
    ensures ExecutionsOf(log + [r], op)
         == ExecutionsOf(log, op) + if r.Execute? && OperationOf(r) == op then [r.binding] else []
    ensures EventsOf(log + [r], op) == EventsOf(log, op) + if r.Progress? && OperationOf(r) == op then [r.event] else []
  {
    assert (log + [r])[..|log|] == log;
  }

  lemma TellProgress(ops: Operations, plans: seq<Plan>, executions: seq<Binding>, es: seq<Event>, e: Event, hash: Hash)
    requires Accept(ops, Progress(e), hash).Some? && Told(ops, plans, executions, es, e.operation, hash)
    ensures Told(ops[e.operation := Accept(ops, Progress(e), hash).value], plans, executions, es + [e], e.operation, hash)
  {
    EventIsValid(ops, Progress(e), hash);
    hide ValidPlan, ValidEvent;
    hide Orderly;
  }

  lemma TellStop(ops: Operations, plans: seq<Plan>, executions: seq<Binding>, es: seq<Event>, op: OperationId, h: Digest, hash: Hash)
    requires Accept(ops, Cancel(op, h), hash).Some? && Told(ops, plans, executions, es, op, hash)
    ensures Told(ops[op := Accept(ops, Cancel(op, h), hash).value], plans, executions, es, op, hash)
  {
    hide ValidPlan, Orderly;
  }

  lemma TellExecute(ops: Operations, plans: seq<Plan>, executions: seq<Binding>, es: seq<Event>, b: Binding, hash: Hash)
    requires Accept(ops, Execute(b), hash).Some? && Told(ops, plans, executions, es, b.operation, hash)
    ensures Told(ops[b.operation := Accept(ops, Execute(b), hash).value], plans, executions + [b], es, b.operation, hash)
  {
    hide ValidPlan, Orderly;
  }

  lemma TellOwn(ops: Operations, log: seq<Request>, r: Request, hash: Hash)
    requires Accept(ops, r, hash).Some?
    requires var op := OperationOf(r); Told(ops, PlansOf(log, op), ExecutionsOf(log, op), EventsOf(log, op), op, hash)
    ensures var op := OperationOf(r);
            Told(ops[op := Accept(ops, r, hash).value], PlansOf(log + [r], op), ExecutionsOf(log + [r], op),
                 EventsOf(log + [r], op), op, hash)
  {
    var op := OperationOf(r);
    OneMore(log, r, op);
    hide PlansOf, ExecutionsOf, EventsOf;
    var plans, executions, events := PlansOf(log, op), ExecutionsOf(log, op), EventsOf(log, op);
    assert plans + [] == plans && executions + [] == executions && events + [] == events;
    match r {
      case Prepare(plan) =>
      case Execute(b) => TellExecute(ops, plans, executions, events, b, hash);
      case Progress(e) => TellProgress(ops, plans, executions, events, e, hash);
      case Cancel(_, h) => TellStop(ops, plans, executions, events, op, h, hash);
    }
  }

  lemma EventIsValid(ops: Operations, r: Request, hash: Hash)
    requires r.Progress? && Accept(ops, r, hash).Some?
    ensures ValidEvent(r.event)
  {
  }

  /**
   * Over every run: an operation is prepared at most once, executes at most once and then exactly the
   * plan it was prepared with, and its progress events are numbered from 0 with units never going back.
   */
  lemma {:induction false} LogTells(log: seq<Request>, op: OperationId, hash: Hash)
    requires Operated(log, hash).Some?
    ensures Told(Operated(log, hash).value, PlansOf(log, op), ExecutionsOf(log, op), EventsOf(log, op), op, hash)
    decreases |log|
  {
    if log != [] {
      var n := |log| - 1;
      LogTells(log[..n], op, hash);
      assert log[..n] + [log[n]] == log;
      hide Told, Accept, PlansOf, ExecutionsOf, EventsOf;
      if OperationOf(log[n]) == op {
        TellOwn(Operated(log[..n], hash).value, log[..n], log[n], hash);
      } else {
        var t := Accept(Operated(log[..n], hash).value, log[n], hash).value;
        TellOther(Operated(log[..n], hash).value, log[..n], log[n], t, op, hash);
      }
    }
  }

  /** Two different byte streams with one digest. */
  predicate Collide(x: seq<byte>, y: seq<byte>, hash: Hash) {
    x != y && hash(x) == hash(y)
  }

  /** Valid plans of one hash are one plan: their streams would collide otherwise. */
  lemma SameHashSamePlan(p: Plan, q: Plan, hash: Hash)
    requires ValidPlan(p, hash) && ValidPlan(q, hash) && p.hash == q.hash
    ensures p == q || Collide(HashInput(p.content), HashInput(q.content), hash)
  {
    if HashInput(p.content) == HashInput(q.content) {
      HashInputInjective(p.content, q.content);
    }
  }

  /** An accepted execution names exactly the plan it was drawn from, or two streams with one digest are at hand. */
  lemma ExecutesThePlan(log: seq<Request>, plan: Plan, hash: Hash)
    requires Operated(log + [Execute(BindingOf(plan))], hash).Some? && ValidPlan(plan, hash)
    ensures var plans := PlansOf(log, plan.content.operation);
            && |plans| == 1 && |plans[0].content.steps| <= MAX_PLAN_STEPS
            && (plans[0] == plan || Collide(HashInput(plans[0].content), HashInput(plan.content), hash))
  {
    var op := plan.content.operation;
    var all := log + [Execute(BindingOf(plan))];
    assert all[..|log|] == log;
    LogTells(log, op, hash);
    hide PlansOf, ExecutionsOf, EventsOf, Orderly;
    SameHashSamePlan(PlansOf(log, op)[0], plan, hash);
  }

  lemma {:induction false} PrefixAccepted(log: seq<Request>, more: seq<Request>, hash: Hash)
    requires Operated(log + more, hash).Some?
    ensures Operated(log, hash).Some?
    decreases |more|
  {
    if more == [] {
      assert log + more == log;
    } else {
      assert (log + more)[..|log + more| - 1] == log + more[..|more| - 1];
      PrefixAccepted(log, more[..|more| - 1], hash);
    }
  }

  /** Whatever is accepted later, an operation that ended stays as it is. */
  lemma {:induction false} TerminalIsFinal(log: seq<Request>, more: seq<Request>, op: OperationId, hash: Hash)
    requires Operated(log + more, hash).Some?
    ensures Operated(log, hash).Some?
    ensures op in Operated(log, hash).value && Terminal(Operated(log, hash).value[op].state) ==>
              op in Operated(log + more, hash).value
              && Operated(log + more, hash).value[op] == Operated(log, hash).value[op]
    decreases |more|
  {
    PrefixAccepted(log, more, hash);
    if more == [] {
      assert log + more == log;
    } else {
      var all := log + more;
      assert all[..|all| - 1] == log + more[..|more| - 1];
      TerminalIsFinal(log, more[..|more| - 1], op, hash);
    }
  }

  // The replay guard of a session.

  datatype Envelope = Envelope(version: nat, nonce: Digest, sequence: nat)

  const PROTOCOL_VERSION := 1

  class ReplayGuard {
    const nonce: Digest
    var next: nat
    ghost var accepted: seq<Envelope>

    ghost predicate Valid()
      reads this
    {
      && next == |accepted| < U64_LIMIT
      && forall k | 0 <= k < |accepted| :: accepted[k] == Envelope(PROTOCOL_VERSION, nonce, k)
    }

    constructor (nonce: Digest)
      ensures Valid() && this.nonce == nonce && accepted == []
    {
      this.nonce, next, accepted := nonce, 0, [];
    }

    /** What is accepted is exactly the next envelope of this session, so that none is accepted twice. */
    method Accept(e: Envelope) returns (ok: bool)
      requires Valid()
      modifies this
      ensures Valid()
      ensures ok <==> e == Envelope(1, nonce, |old(accepted)|) && |old(accepted)| < 0xffff_ffff_ffff_ffff
      ensures accepted == if ok then old(accepted) + [e] else old(accepted)
    {
      if e.version != PROTOCOL_VERSION || e.nonce != nonce || e.sequence != next || next + 1 >= U64_LIMIT {
        return false;
      }
      next := next + 1;
      accepted := accepted + [e];
      return true;
    }
  }
}
