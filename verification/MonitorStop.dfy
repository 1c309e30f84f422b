/** What starts and what ends a poller: the immediate read, the ticker, Stop and
    Close.
 */
module MonitorStop {
  import opened TagMonitor
  import opened MonitorSafety

  // ---------- a poller polls when it should ----------

  predicate IsTickOf(a: Action, i: nat) {
    a == Do(i, TickerFires)
  }

  function TicksOf(actions: seq<Action>, i: nat): nat {
    if actions == [] then 0
    else TicksOf(actions[..|actions| - 1], i) + if IsTickOf(actions[|actions| - 1], i) then 1 else 0
  }

  predicate Running(pc: Pc) {
    !pc.Registered? && !pc.Counted? && !pc.Spawned?
  }

  /** Finished polls, and the one under way. */
  function Begun(sub: Sub): nat {
    sub.polls + if sub.pc.Reading? then 1 else 0
  }

  /** The first read of a subscription that asked for one. */
  function First(sub: Sub): nat {
    if sub.immediate && Running(sub.pc) then 1 else 0
  }

  lemma OpBegins(s: State, sub: Sub, op: Op)
    requires OpEnabled(s, sub, op)
    ensures var t := OpSub(sub, op, s.stopCh);
      && t.immediate == sub.immediate
      && Begun(t) - First(t) == Begun(sub) - First(sub) + if op.TickerFires? then 1 else 0
  {
  }

  lemma StepBegins(s: State, a: Action, i: nat)
    requires Enabled(s, a) && i < |s.subs|
    ensures var t := Next(s, a);
      && i < |t.subs|
      && Begun(t.subs[i]) - First(t.subs[i]) == Begun(s.subs[i]) - First(s.subs[i]) + if IsTickOf(a, i) then 1 else 0
  {
    match a
    case Do(j, op) => OpBegins(s, s.subs[j], op);
    case Snapshot(_) =>
    case SweepNext =>
    case _ =>
  }

  /** New subscriptions have polled nothing, and none is there before its time. */
  lemma StepAdds(s: State, a: Action)
    requires Enabled(s, a)
    ensures var t := Next(s, a);
      && |s.subs| <= |t.subs| <= |s.subs| + 1
      && (|t.subs| > |s.subs| ==> Begun(t.subs[|s.subs|]) == 0 && First(t.subs[|s.subs|]) == 0)
  {
  }

  /** In every reachable state a poller has begun one poll for every tick it
      took, and one more if it was asked for an immediate one and has started.
   */
  lemma {:induction false} PollsFollowTicks(capacity: nat, actions: seq<Action>, i: nat)
    requires Feasible(Initial(capacity), actions)
    ensures var t := Run(Initial(capacity), actions);
            if i < |t.subs| then Begun(t.subs[i]) == TicksOf(actions, i) + First(t.subs[i])
            else TicksOf(actions, i) == 0
  {
    hide Next, Enabled, Begun, First;
    if actions != [] {
      var before, last := actions[..|actions| - 1], actions[|actions| - 1];
      var s := Run(Initial(capacity), before);
      PollsFollowTicks(capacity, before, i);
      StepAdds(s, last);
      if i < |s.subs| {
        StepBegins(s, last, i);
      } else {
        NotYetThere(s, last, i);
      }
    }
  }

  lemma NotYetThere(s: State, a: Action, i: nat)
    requires Enabled(s, a) && i >= |s.subs|
    ensures !IsTickOf(a, i)
  {
  }

  /** A poller leaves its loop only at the select, and after every poll it is
      back there: with its event sent, or dropped because Close has signalled.
   */
  lemma PollEndsAtSelect(s: State, sub: Sub, op: Op)
    requires OpEnabled(s, sub, op)
    ensures var t := OpSub(sub, op, s.stopCh);
      && (t.pc.Leaving? && !sub.pc.Leaving? ==> op.SeeStop?)
      && ((sub.pc.Checking? || sub.pc.Offering?) && !t.pc.Checking? && !t.pc.Offering? ==>
            t.pc.Waiting? && (t.enqueued == sub.enqueued + 1 || (t.enqueued == sub.enqueued && s.stopCh)))
  {
  }

  // ---------- and stops when it should ----------

  /** A Stop that has returned before Close took the table has removed its
      subscription; a Stop that removed it has closed its stopCh and seen its
      poller out; a poller leaves only when its own or the monitor's stopCh is
      closed; its own is closed only by a Stop or once Close has taken the
      table; and after Close it is closed or about to be.
   */
  predicate StoppedRight(s: State, sub: Sub) {
    && (sub.stopper.Returned? && !s.closed ==> sub.stopper == Returned(true))
    && (sub.stopper == Returned(true) ==> !sub.inTable && sub.stopCh && sub.doneCh)
    && (sub.doneCh <==> sub.pc.Exited? || sub.pc.Gone?)
    && (sub.pc.Leaving? || sub.pc.Exited? || sub.pc.Gone? ==> sub.stopCh || s.stopCh)
    && (sub.stopCh ==> sub.stopper.Halting? || sub.stopper == Returned(true) || s.closed)
    && (s.closer.Finished? ==> !sub.inTable && (sub.stopCh || sub.stopper.Stopping?))
  }

  lemma InvStops(s: State, i: nat)
    requires Inv(s) && i < |s.subs|
    ensures StoppedRight(s, s.subs[i])
  {
    assert SubOk(s.subs[i], ToSweep(s.closer, i), IsAwaited(s.closer, i), s.closed, s.stopCh);
  }

  /** In every reachable state. */
  lemma {:induction false} StopStops(capacity: nat, actions: seq<Action>, i: nat)
    requires Feasible(Initial(capacity), actions) && i < |Run(Initial(capacity), actions).subs|
    ensures StoppedRight(Run(Initial(capacity), actions), Run(Initial(capacity), actions).subs[i])
  {
    hide StoppedRight, Inv;
    InitialInv(capacity);
    RunKeepsInv(Initial(capacity), actions);
    InvStops(Run(Initial(capacity), actions), i);
  }

  lemma InitialInv(capacity: nat)
    ensures Inv(Initial(capacity))
  {
  }

  /** A Stop under way. */
  predicate IsStopping(st: Stopper) {
    st.Removing? || st.Stopping? || st.Halting?
  }

  /** A step of the subscription other than a tick or another call. */
  predicate Helps(op: Op) {
    !op.TickerFires? && !op.CallStop?
  }

  /** A Stop under way can go on exactly unless its poller holds an event that
      nobody takes out of the full channel and Close has not begun.
   */
  lemma StopBlocksIff(capacity: nat, actions: seq<Action>, i: nat)
    requires Feasible(Initial(capacity), actions)
    requires var t := Run(Initial(capacity), actions); i < |t.subs| && IsStopping(t.subs[i].stopper)
    ensures var t := Run(Initial(capacity), actions);
            var sub := t.subs[i];
      (forall op | Helps(op) :: !OpEnabled(t, sub, op)) <==>
        sub.stopper.Halting? && sub.pc.Offering? && |t.queue| >= t.capacity && !t.stopCh
  {
    RunKeepsInv(Initial(capacity), actions);
    StopMoves(Run(Initial(capacity), actions), i);
  }

  lemma StopMoves(s: State, i: nat)
    requires Inv(s) && i < |s.subs| && IsStopping(s.subs[i].stopper)
    ensures var sub := s.subs[i];
      (forall op | Helps(op) :: !OpEnabled(s, sub, op)) <==>
        sub.stopper.Halting? && sub.pc.Offering? && |s.queue| >= s.capacity && !s.stopCh
  {
    var sub := s.subs[i];
    assert SubOk(sub, ToSweep(s.closer, i), IsAwaited(s.closer, i), s.closed, s.stopCh);
    if s.eventsClosed { AllCounted(s, i); }
    var op := match sub.stopper
      case Removing => Remove
      case Stopping => CloseStop
      case _ =>
        match sub.pc
        case Registered => WgAdd
        case Counted => Go
        case Spawned => Start
        case Reading => FinishRead
        case Checking => CheckStop
        case Offering => if s.stopCh then DropEvent else SendEvent
        case Waiting => SeeStop
        case Leaving => CloseDone
        case _ => Op.StopReturns;
    assert Helps(op);
    assert OpEnabled(s, sub, op) || (sub.stopper.Halting? && sub.pc.Offering? && !s.stopCh);
  }

  // ---------- what can happen does ----------

  /** Until Close has taken the table, AddTag adds a subscription of the asked
      kind, which nobody has stopped; afterwards it changes nothing.
   */
  lemma AddTagAdds(s: State, immediate: bool)
    ensures var t := Next(s, AddTag(immediate));
      if s.closed then t == s
      else
        && |t.subs| == |s.subs| + 1 && t.subs[..|s.subs|] == s.subs
        && t.subs[|s.subs|].immediate == immediate && t.subs[|s.subs|].pc == Registered
        && t.subs[|s.subs|].inTable && !t.subs[|s.subs|].stopCh && t.subs[|s.subs|].stopper == NotCalled
  {
  }

  /** A waiting poller can take a tick and read. */
  lemma PollReads(s: State, i: nat)
    requires i < |s.subs| && s.subs[i].pc.Waiting?
    ensures var a, b := Do(i, TickerFires), Do(i, FinishRead);
      && Enabled(s, a) && Enabled(Next(s, a), b)
      && i < |Next(Next(s, a), b).subs|
      && Next(Next(s, a), b).subs[i] == s.subs[i].(pc := Checking, polls := s.subs[i].polls + 1)
  {
    assert Next(s, Do(i, TickerFires)).subs[i] == s.subs[i].(pc := Reading);
  }

  /** While there is room in the channel and Close has not begun, it can then
      send the event of that poll.
   */
  lemma PollDelivers(s: State, i: nat)
    requires i < |s.subs| && s.subs[i].pc.Checking? && !s.stopCh && |s.queue| < s.capacity
    ensures var a, b := Do(i, CheckStop), Do(i, SendEvent);
      && Enabled(s, a) && Enabled(Next(s, a), b)
      && Next(Next(s, a), b).sent == s.sent + [Event(i, s.subs[i].polls - 1)]
  {
    assert Next(s, Do(i, CheckStop)).subs[i] == s.subs[i].(pc := Offering);
    assert s.sent + [] == s.sent && s.queue + [] == s.queue;
  }

  /** A Stop of a poller that is still in the table can be called once AddTag
      has returned, removes it and closes its stopCh.
   */
  lemma StopRemoves(s: State, i: nat)
    requires Inv(s) && i < |s.subs| && s.subs[i].inTable && s.subs[i].stopper.NotCalled? && Returnable(s.subs[i].pc)
    ensures var a, b, c := Do(i, CallStop), Do(i, Remove), Do(i, CloseStop);
      && Enabled(s, a) && Enabled(Next(s, a), b) && Enabled(Next(Next(s, a), b), c)
      && i < |Next(Next(Next(s, a), b), c).subs|
      && Next(Next(Next(s, a), b), c).subs[i] == s.subs[i].(inTable := false, stopCh := true, stopper := Halting)
  {
    var s1 := Next(s, Do(i, CallStop));
    assert s1.subs[i] == s.subs[i].(stopper := Removing);
    var s2 := Next(s1, Do(i, Remove));
    assert s2.subs[i] == s1.subs[i].(inTable := false, stopper := Stopping);
  }

  /** Then a waiting poller can leave and the Stop can return. */
  lemma StopEnds(s: State, i: nat)
    requires i < |s.subs| && s.subs[i].pc.Waiting? && s.subs[i].stopper.Halting? && s.subs[i].stopCh
    ensures var a, b, c := Do(i, SeeStop), Do(i, CloseDone), Do(i, Op.StopReturns);
      && Enabled(s, a) && Enabled(Next(s, a), b) && Enabled(Next(Next(s, a), b), c)
      && i < |Next(Next(Next(s, a), b), c).subs|
      && Next(Next(Next(s, a), b), c).subs[i] == s.subs[i].(pc := Exited, doneCh := true, stopper := Returned(true))
  {
    var s1 := Next(s, Do(i, SeeStop));
    assert s1.subs[i] == s.subs[i].(pc := Leaving);
    var s2 := Next(s1, Do(i, CloseDone));
    assert s2.subs[i] == s1.subs[i].(pc := Exited, doneCh := true);
  }
}
