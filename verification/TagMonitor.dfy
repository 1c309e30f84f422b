/** The life of a TagMonitor (pkg/client/tag_monitor.go): any number of AddTag
    and Stop calls, their pollers and one Close, interleaved step by step. The
    critical sections under the monitor's lock are single steps; every other
    visible action is a step of its own.
 */
module TagMonitor {

  /** A poller's program counter, from its registration in AddTag on. */
  datatype Pc =
    | Registered  // in the table, wg.Add not called yet
    | Counted     // wg.Add called, goroutine not started
    | Spawned     // goroutine started, AddTag has returned
    | Reading     // in a poll, up to the call of emit
    | Checking    // emit: the first select
    | Offering    // emit: the second select
    | Waiting     // the select of the loop
    | Leaving     // out of the loop, the deferred close of doneCh ahead
    | Exited      // doneCh closed, wg.Done ahead
    | Gone

  /** The one effective Stop call on a subscription's handle. */
  datatype Stopper =
    | NotCalled
    | Removing    // about to look the subscription up
    | Stopping    // removed it, close of its stopCh ahead
    | Halting     // waits for doneCh
    | Returned(removed: bool)

  /** `polls` counts finished polls, `enqueued` the events of them that went
      into the channel.
   */
  datatype Sub = Sub(
    immediate: bool,
    pc: Pc,
    inTable: bool,
    stopCh: bool,
    doneCh: bool,
    stopper: Stopper,
    polls: nat,
    enqueued: nat)

  /** Close's program counter; `todo` is what is left of its snapshot. */
  datatype Closer =
    | Open
    | Signalled
    | Sweeping(todo: seq<nat>)
    | Awaiting(id: nat, todo: seq<nat>)
    | Draining
    | Finishing
    | Finished

  datatype Event = Event(id: nat, poll: int)

  /** A subscription's ID is one more than its index. `fault` records a send on
      a closed channel, a second close of a channel or a negative wait group;
      `lateAdd` a wg.Add after Close has reached wg.Wait.
   */
  datatype State = State(
    subs: seq<Sub>,
    closed: bool,
    stopCh: bool,
    wg: int,
    eventsClosed: bool,
    capacity: nat,
    queue: seq<Event>,
    sent: seq<Event>,
    closer: Closer,
    fault: bool,
    lateAdd: bool)

  /** Steps of one subscription: its AddTag after the lock, its poller, and
      its Stop.
   */
  datatype Op =
    | WgAdd
    | Go
    | Start
    | FinishRead
    | CheckStop
    | SendEvent
    | DropEvent
    | TickerFires
    | SeeStop
    | CloseDone
    | WgDone
    | CallStop
    | Remove
    | CloseStop
    | StopReturns

  datatype Action =
    | AddTag(immediate: bool)
    | CallClose
    | Receive
    | Do(i: nat, op: Op)
    | Snapshot(order: seq<nat>)
    | SweepNext
    | SweepAwaited
    | Drained
    | CloseEvents

  function Initial(capacity: nat): State {
    State([], false, false, 0, false, capacity, [], [], Open, false, false)
  }

  predicate NoDuplicates(ids: seq<nat>) {
    forall j, k | 0 <= j < k < |ids| :: ids[j] != ids[k]
  }

  /** The map is iterated in some order. */
  predicate IsOrderOfTable(order: seq<nat>, subs: seq<Sub>) {
    && NoDuplicates(order)
    && (forall k | 0 <= k < |order| :: order[k] < |subs| && subs[order[k]].inTable)
    && (forall i | 0 <= i < |subs| && subs[i].inTable :: i in order)
  }

  predicate Returnable(pc: Pc) {
    !pc.Registered? && !pc.Counted?
  }

  predicate OpEnabled(s: State, sub: Sub, op: Op) {
    match op
    case WgAdd => sub.pc.Registered?
    case Go => sub.pc.Counted?
    case Start => sub.pc.Spawned?
    case FinishRead => sub.pc.Reading?
    case CheckStop => sub.pc.Checking?
    case SendEvent => sub.pc.Offering? && (|s.queue| < s.capacity || s.eventsClosed)
    case DropEvent => sub.pc.Offering? && s.stopCh
    case TickerFires => sub.pc.Waiting?
    case SeeStop => sub.pc.Waiting? && (sub.stopCh || s.stopCh)
    case CloseDone => sub.pc.Leaving?
    case WgDone => sub.pc.Exited?
    case CallStop => sub.stopper.NotCalled? && Returnable(sub.pc)
    case Remove => sub.stopper.Removing?
    case CloseStop => sub.stopper.Stopping?
    case StopReturns => sub.stopper.Halting? && sub.doneCh
  }

  /** The subscription after its step; `stopCh` is the monitor's. */
  function OpSub(sub: Sub, op: Op, stopCh: bool): Sub {
    match op
    case WgAdd => sub.(pc := Counted)
    case Go => sub.(pc := Spawned)
    case Start => sub.(pc := if sub.immediate then Reading else Waiting)
    case FinishRead => sub.(pc := Checking, polls := sub.polls + 1)
    case CheckStop => sub.(pc := if stopCh then Waiting else Offering)
    case SendEvent => sub.(pc := Waiting, enqueued := sub.enqueued + 1)
    case DropEvent => sub.(pc := Waiting)
    case TickerFires => sub.(pc := Reading)
    case SeeStop => sub.(pc := Leaving)
    case CloseDone => sub.(pc := Exited, doneCh := true)
    case WgDone => sub.(pc := Gone)
    case CallStop => sub.(stopper := Removing)
    case Remove =>
      if sub.inTable then sub.(inTable := false, stopper := Stopping) else sub.(stopper := Returned(false))
    case CloseStop => sub.(stopCh := true, stopper := Halting)
    case StopReturns => sub.(stopper := Returned(true))
  }

  /** What a step would do wrong. */
  predicate OpFault(s: State, sub: Sub, op: Op) {
    match op
    case SendEvent => s.eventsClosed
    case CloseDone => sub.doneCh
    case WgDone => s.wg <= 0
    case CloseStop => sub.stopCh
    case _ => false
  }

  function OpEvents(sub: Sub, i: nat, op: Op): seq<Event> {
    if op.SendEvent? then [Event(i, sub.polls - 1)] else []
  }

  predicate CloseWaits(c: Closer) {
    c.Draining? || c.Finishing? || c.Finished?
  }

  predicate Enabled(s: State, a: Action) {
    match a
    case AddTag(_) => true
    case CallClose => s.closer.Open?
    case Receive => s.queue != []
    case Do(i, op) => i < |s.subs| && OpEnabled(s, s.subs[i], op)
    case Snapshot(order) => s.closer.Signalled? && IsOrderOfTable(order, s.subs)
    case SweepNext => s.closer.Sweeping? && forall k | 0 <= k < |s.closer.todo| :: s.closer.todo[k] < |s.subs|
    case SweepAwaited => s.closer.Awaiting? && s.closer.id < |s.subs| && s.subs[s.closer.id].doneCh
    case Drained => s.closer.Draining? && s.wg == 0
    case CloseEvents => s.closer.Finishing?
  }

  function NewSub(immediate: bool): Sub {
    Sub(immediate, Registered, true, false, false, NotCalled, 0, 0)
  }

  function Unlisted(subs: seq<Sub>): (u: seq<Sub>)
    ensures |u| == |subs|
  {
    seq(|subs|, i requires 0 <= i < |subs| => subs[i].(inTable := false))
  }

  function Next(s: State, a: Action): State
    requires Enabled(s, a)
  {
    match a
    case AddTag(immediate) => if s.closed then s else s.(subs := s.subs + [NewSub(immediate)])
    case CallClose => s.(closer := Signalled, stopCh := true, fault := s.fault || s.stopCh)
    case Receive => s.(queue := s.queue[1..])
    case Do(i, op) =>
      var sub := s.subs[i];
      s.(subs := s.subs[i := OpSub(sub, op, s.stopCh)],
         wg := s.wg + (if op.WgAdd? then 1 else if op.WgDone? then -1 else 0),
         queue := s.queue + OpEvents(sub, i, op),
         sent := s.sent + OpEvents(sub, i, op),
         fault := s.fault || OpFault(s, sub, op),
         lateAdd := s.lateAdd || (op.WgAdd? && CloseWaits(s.closer)))
    case Snapshot(order) => s.(closed := true, subs := Unlisted(s.subs), closer := Sweeping(order))
    case SweepNext =>
      if s.closer.todo == [] then s.(closer := Draining)
      else
        var id := s.closer.todo[0];
        s.(subs := s.subs[id := s.subs[id].(stopCh := true)],
           closer := Awaiting(id, s.closer.todo[1..]),
           fault := s.fault || s.subs[id].stopCh)
    case SweepAwaited => s.(closer := Sweeping(s.closer.todo))
    case Drained => s.(closer := Finishing)
    case CloseEvents => s.(closer := Finished, eventsClosed := true, fault := s.fault || s.eventsClosed)
  }

  function Run(s: State, actions: seq<Action>): State
    requires Feasible(s, actions)
    decreases |actions|, 1
  {
    if actions == [] then s else Next(Run(s, actions[..|actions| - 1]), actions[|actions| - 1])
  }

  predicate Feasible(s: State, actions: seq<Action>)
    decreases |actions|, 0
  {
    actions == [] || (
      && Feasible(s, actions[..|actions| - 1])
      && Enabled(Run(s, actions[..|actions| - 1]), actions[|actions| - 1]))
  }
}
