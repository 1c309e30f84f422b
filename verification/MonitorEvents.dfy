/** Which events the monitor's channel carries, and in what order. */
module MonitorEvents {
  import opened TagMonitor
  import opened MonitorSafety

  /** The poll numbers of one subscription's events, in channel order. */
  function EventsOf(sent: seq<Event>, i: nat): seq<int> {
    if sent == [] then []
    else
      var last := sent[|sent| - 1];
      EventsOf(sent[..|sent| - 1], i) + if last.id == i then [last.poll] else []
  }

  function UpTo(n: nat): seq<int> {
    seq(n, k => k)
  }

  lemma EventsOfSnoc(sent: seq<Event>, e: Event, i: nat)
    ensures EventsOf(sent + [e], i) == if e.id == i then EventsOf(sent, i) + [e.poll] else EventsOf(sent, i)
  {
    assert (sent + [e])[..|sent|] == sent;
  }

  lemma UpToNext(n: nat)
    ensures UpTo(n + 1) == UpTo(n) + [n]
  {
  }

  lemma {:induction false} NoEventsYet(sent: seq<Event>, i: nat)
    requires forall k | 0 <= k < |sent| :: sent[k].id < i
    ensures EventsOf(sent, i) == []
  {
    if sent != [] { NoEventsYet(sent[..|sent| - 1], i); }
  }

  /** Polls whose event has been offered or dropped. */
  function Settled(sub: Sub): int {
    sub.polls - if sub.pc.Checking? || sub.pc.Offering? then 1 else 0
  }

  predicate Conserved(sub: Sub, stopCh: bool) {
    && sub.enqueued <= Settled(sub)
    && (sub.enqueued < Settled(sub) ==> stopCh)
    && (sub.pc.Offering? ==> sub.enqueued == Settled(sub))
  }

  predicate EventsInv(s: State) {
    && (forall i | 0 <= i < |s.subs| :: Conserved(s.subs[i], s.stopCh))
    && (forall i | 0 <= i < |s.subs| :: EventsOf(s.sent, i) == UpTo(s.subs[i].enqueued))
    && (forall k | 0 <= k < |s.sent| :: s.sent[k].id < |s.subs|)
    && |s.queue| <= |s.sent| && s.queue == s.sent[|s.sent| - |s.queue|..]
    && |s.queue| <= s.capacity
  }

  lemma OpConserves(s: State, sub: Sub, op: Op)
    requires Conserved(sub, s.stopCh) && OpEnabled(s, sub, op)
    ensures Conserved(OpSub(sub, op, s.stopCh), s.stopCh)
    ensures OpSub(sub, op, s.stopCh).enqueued == sub.enqueued + if op.SendEvent? then 1 else 0
    ensures op.SendEvent? ==> sub.polls - 1 == sub.enqueued
  {
  }

  lemma SendKeepsEvents(s: State, i: nat)
    requires EventsInv(s) && Enabled(s, Do(i, SendEvent)) && !s.eventsClosed
    ensures EventsInv(Next(s, Do(i, SendEvent)))
  {
    hide EventsOf, UpTo, Conserved;
    var t := Next(s, Do(i, SendEvent));
    var e := Event(i, s.subs[i].polls - 1);
    OpConserves(s, s.subs[i], SendEvent);
    UpToNext(s.subs[i].enqueued);
    forall j | 0 <= j < |t.subs|
      ensures Conserved(t.subs[j], t.stopCh) && EventsOf(t.sent, j) == UpTo(t.subs[j].enqueued)
    {
      EventsOfSnoc(s.sent, e, j);
      assert Conserved(s.subs[j], s.stopCh) && EventsOf(s.sent, j) == UpTo(s.subs[j].enqueued);
    }
  }

  lemma QuietOpKeepsEvents(s: State, i: nat, op: Op)
    requires EventsInv(s) && Enabled(s, Do(i, op)) && !op.SendEvent?
    ensures EventsInv(Next(s, Do(i, op)))
  {
    var t := Next(s, Do(i, op));
    assert Conserved(s.subs[i], s.stopCh);
    OpConserves(s, s.subs[i], op);
    assert t.sent == s.sent && t.queue == s.queue;
    forall j | 0 <= j < |t.subs|
      ensures Conserved(t.subs[j], t.stopCh) && EventsOf(t.sent, j) == UpTo(t.subs[j].enqueued)
    {
      assert Conserved(s.subs[j], s.stopCh) && EventsOf(s.sent, j) == UpTo(s.subs[j].enqueued);
    }
  }

  lemma AddTagKeepsEvents(s: State, immediate: bool)
    requires EventsInv(s)
    ensures EventsInv(Next(s, AddTag(immediate)))
  {
    if !s.closed {
      NoEventsYet(s.sent, |s.subs|);
    }
  }

  lemma ReceiveKeepsEvents(s: State)
    requires EventsInv(s) && Enabled(s, Receive)
    ensures EventsInv(Next(s, Receive))
  {
    hide EventsOf, UpTo, Conserved;
    assert Next(s, Receive).queue == s.sent[|s.sent| - |s.queue| + 1..];
  }

  lemma CloseKeepsChannel(s: State, a: Action)
    requires Enabled(s, a) && !a.Do? && !a.AddTag? && !a.Receive?
    ensures var t := Next(s, a);
      && t.sent == s.sent && t.queue == s.queue && t.capacity == s.capacity
      && (s.stopCh ==> t.stopCh) && |t.subs| == |s.subs|
  {
    match a
    case Snapshot(_) =>
    case SweepNext =>
    case _ =>
  }

  lemma CloseKeepsCounters(s: State, a: Action, j: nat)
    requires Enabled(s, a) && !a.Do? && !a.AddTag? && !a.Receive? && j < |s.subs| == |Next(s, a).subs|
    ensures var sub := Next(s, a).subs[j];
      sub.enqueued == s.subs[j].enqueued && sub.polls == s.subs[j].polls && sub.pc == s.subs[j].pc
  {
    match a
    case Snapshot(_) =>
    case SweepNext =>
    case _ =>
  }

  /** The steps of Close. */
  lemma CloseKeepsEvents(s: State, a: Action)
    requires EventsInv(s) && Enabled(s, a) && !a.Do? && !a.AddTag? && !a.Receive?
    ensures EventsInv(Next(s, a))
  {
    hide Next, Enabled, EventsOf, UpTo;
    var t := Next(s, a);
    CloseKeepsChannel(s, a);
    forall j | 0 <= j < |t.subs|
      ensures Conserved(t.subs[j], t.stopCh) && EventsOf(t.sent, j) == UpTo(t.subs[j].enqueued)
    {
      CloseKeepsCounters(s, a, j);
      assert Conserved(s.subs[j], s.stopCh);
      assert EventsOf(s.sent, j) == UpTo(s.subs[j].enqueued);
    }
  }

  lemma StepKeepsEvents(s: State, a: Action)
    requires Inv(s) && EventsInv(s) && Enabled(s, a)
    ensures EventsInv(Next(s, a))
  {
    match a
    case Do(i, op) =>
      OpIsFaultless(s, i, op);
      if op.SendEvent? {
        SendKeepsEvents(s, i);
      } else {
        QuietOpKeepsEvents(s, i, op);
      }
    case AddTag(immediate) => AddTagKeepsEvents(s, immediate);
    case Receive => ReceiveKeepsEvents(s);
    case _ => CloseKeepsEvents(s, a);
  }

  lemma {:induction false} RunKeepsEvents(s: State, actions: seq<Action>)
    requires Inv(s) && EventsInv(s) && Feasible(s, actions)
    ensures EventsInv(Run(s, actions))
  {
    if actions != [] {
      var before := actions[..|actions| - 1];
      RunKeepsEvents(s, before);
      RunKeepsInv(s, before);
      StepKeepsEvents(Run(s, before), actions[|actions| - 1]);
    }
  }

  /** In every reachable state: the events of a subscription are its polls
      0, 1, 2, ... in order, each exactly once, with none missing; until Close
      begins, every finished poll but the one being emitted is among them, and
      afterwards only the latest polls can be missing. What the consumer has
      not received yet is the tail of all that was sent.
   */
  lemma EventsAreConserved(capacity: nat, actions: seq<Action>, i: nat)
    requires Feasible(Initial(capacity), actions)
    ensures var t := Run(Initial(capacity), actions);
      && |t.queue| <= capacity && |t.queue| <= |t.sent| && t.queue == t.sent[|t.sent| - |t.queue|..]
      && (i < |t.subs| ==>
            && EventsOf(t.sent, i) == UpTo(t.subs[i].enqueued)
            && t.subs[i].enqueued <= Settled(t.subs[i])
            && (!t.stopCh ==> t.subs[i].enqueued == Settled(t.subs[i])))
  {
    RunKeepsEvents(Initial(capacity), actions);
    CapacityIsFixed(Initial(capacity), actions);
    var t := Run(Initial(capacity), actions);
    if i < |t.subs| {
      assert Conserved(t.subs[i], t.stopCh);
    }
  }

  lemma {:induction false} CapacityIsFixed(s: State, actions: seq<Action>)
    requires Feasible(s, actions)
    ensures Run(s, actions).capacity == s.capacity
  {
    if actions != [] {
      var before := actions[..|actions| - 1];
      CapacityIsFixed(s, before);
      StepKeepsCapacity(Run(s, before), actions[|actions| - 1]);
    }
  }

  lemma StepKeepsCapacity(s: State, a: Action)
    requires Enabled(s, a)
    ensures Next(s, a).capacity == s.capacity
  {
  }

  // ---------- after Stop ----------

  predicate PastChannel(sub: Sub) {
    sub.doneCh && (sub.pc.Exited? || sub.pc.Gone?)
  }

  /** The poller can never reach the channel again. */
  predicate Silent(s: State, i: nat) {
    i < |s.subs| && PastChannel(s.subs[i])
  }

  lemma OpStaysPastChannel(s: State, sub: Sub, op: Op)
    requires PastChannel(sub) && OpEnabled(s, sub, op)
    ensures !op.SendEvent? && PastChannel(OpSub(sub, op, s.stopCh))
  {
  }

  lemma DoKeepsSilence(s: State, j: nat, op: Op, i: nat)
    requires Silent(s, i) && Enabled(s, Do(j, op))
    ensures Silent(Next(s, Do(j, op)), i) && EventsOf(Next(s, Do(j, op)).sent, i) == EventsOf(s.sent, i)
  {
    var t := Next(s, Do(j, op));
    if j == i {
      OpStaysPastChannel(s, s.subs[i], op);
    } else {
      assert t.subs[i] == s.subs[i];
    }
    if op.SendEvent? {
      EventsOfSnoc(s.sent, Event(j, s.subs[j].polls - 1), i);
    } else {
      assert t.sent == s.sent;
    }
  }

  lemma OthersKeepSilence(s: State, a: Action, i: nat)
    requires Silent(s, i) && Enabled(s, a) && !a.Do?
    ensures Silent(Next(s, a), i) && Next(s, a).sent == s.sent
  {
    hide OpSub, OpFault, OpEvents, OpEnabled, IsOrderOfTable;
  }

  lemma StepKeepsSilence(s: State, a: Action, i: nat)
    requires Silent(s, i) && Enabled(s, a)
    ensures Silent(Next(s, a), i) && EventsOf(Next(s, a).sent, i) == EventsOf(s.sent, i)
  {
    if a.Do? {
      DoKeepsSilence(s, a.i, a.op, i);
    } else {
      OthersKeepSilence(s, a, i);
    }
  }

  lemma {:induction false} RunKeepsSilence(s: State, actions: seq<Action>, i: nat)
    requires Silent(s, i) && Feasible(s, actions)
    ensures Silent(Run(s, actions), i) && EventsOf(Run(s, actions).sent, i) == EventsOf(s.sent, i)
  {
    if actions != [] {
      var before := actions[..|actions| - 1];
      RunKeepsSilence(s, before, i);
      StepKeepsSilence(Run(s, before), actions[|actions| - 1], i);
    }
  }

  /** A Stop that returned before Close took the table, or that removed the
      subscription itself, has stopped the poller: nothing with its ID is sent
      any more, whatever happens next.
   */
  lemma {:induction false} NothingAfterStop(capacity: nat, before: seq<Action>, later: seq<Action>, i: nat)
    requires Feasible(Initial(capacity), before)
    requires var s := Run(Initial(capacity), before);
      && i < |s.subs| && s.subs[i].stopper.Returned?
      && (!s.closed || s.subs[i].stopper.removed)
      && Feasible(s, later)
    ensures var s := Run(Initial(capacity), before);
            EventsOf(Run(s, later).sent, i) == EventsOf(s.sent, i)
  {
    var s := Run(Initial(capacity), before);
    RunKeepsInv(Initial(capacity), before);
    assert SubOk(s.subs[i], ToSweep(s.closer, i), IsAwaited(s.closer, i), s.closed, s.stopCh);
    RunKeepsSilence(s, later, i);
  }

  // ---------- after Close has signalled ----------

  lemma OpAfterSignal(s: State, sub: Sub, op: Op)
    requires OpEnabled(s, sub, op) && s.stopCh
    ensures var t := OpSub(sub, op, true);
            t.enqueued + (if t.pc.Offering? then 1 else 0) <= sub.enqueued + (if sub.pc.Offering? then 1 else 0)
  {
  }

  lemma StepAfterSignal(s: State, a: Action, i: nat)
    requires Enabled(s, a) && s.stopCh && i < |s.subs|
    ensures var t := Next(s, a);
      && t.stopCh && i < |t.subs|
      && t.subs[i].enqueued + (if t.subs[i].pc.Offering? then 1 else 0)
           <= s.subs[i].enqueued + (if s.subs[i].pc.Offering? then 1 else 0)
  {
    match a
    case Do(j, op) => OpAfterSignal(s, s.subs[j], op);
    case Snapshot(_) =>
    case SweepNext =>
    case _ =>
  }

  /** Once stopCh is closed, a poller sends at most the event it was already
      offering: polls that finish later are dropped.
   */
  lemma {:induction false} NothingNewAfterSignal(s: State, actions: seq<Action>, i: nat)
    requires Feasible(s, actions) && s.stopCh && i < |s.subs|
    ensures var t := Run(s, actions);
      && t.stopCh && i < |t.subs|
      && t.subs[i].enqueued + (if t.subs[i].pc.Offering? then 1 else 0)
           <= s.subs[i].enqueued + (if s.subs[i].pc.Offering? then 1 else 0)
  {
    if actions != [] {
      var before := actions[..|actions| - 1];
      NothingNewAfterSignal(s, before, i);
      StepAfterSignal(Run(s, before), actions[|actions| - 1], i);
    }
  }
}
