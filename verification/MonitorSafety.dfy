/** No interleaving of AddTag, Stop and Close misuses a channel or the wait
    group.
 */
module MonitorSafety {
  import opened TagMonitor

  // ---------- the wait group ----------

  /** The pollers the wait group counts. */
  predicate IsCounted(pc: Pc) {
    !pc.Registered? && !pc.Gone?
  }

  function Weight(sub: Sub): nat {
    if IsCounted(sub.pc) then 1 else 0
  }

  function Count(subs: seq<Sub>): nat {
    if subs == [] then 0 else Count(subs[..|subs| - 1]) + Weight(subs[|subs| - 1])
  }

  lemma {:induction false} CountUpdate(subs: seq<Sub>, i: nat, sub: Sub)
    requires i < |subs|
    ensures Count(subs[i := sub]) == Count(subs) - Weight(subs[i]) + Weight(sub)
    ensures Count(subs) >= Weight(subs[i])
  {
    var n := |subs| - 1;
    if i == n {
      assert subs[i := sub][..n] == subs[..n];
    } else {
      CountUpdate(subs[..n], i, sub);
      assert subs[i := sub][..n] == subs[..n][i := sub];
    }
  }

  lemma {:induction false} CountSame(a: seq<Sub>, b: seq<Sub>)
    requires |a| == |b| && forall i | 0 <= i < |a| :: a[i].pc == b[i].pc
    ensures Count(a) == Count(b)
  {
    if a != [] { CountSame(a[..|a| - 1], b[..|b| - 1]); }
  }

  // ---------- who must stop a subscription ----------

  /** Close has the subscription ahead of it, its stopCh still open. */
  predicate ToSweep(c: Closer, i: nat) {
    match c
    case Sweeping(todo) => i in todo
    case Awaiting(_, todo) => i in todo
    case _ => false
  }

  /** Close has closed its stopCh and waits for its poller. */
  predicate IsAwaited(c: Closer, i: nat) {
    c.Awaiting? && c.id == i
  }

  predicate IdleStopper(st: Stopper) {
    st.NotCalled? || st.Removing? || st == Returned(false)
  }

  /** A subscription leaves the table once, to exactly one owner: the Stop that
      removed it or the Close that took the table. The owner closes its stopCh,
      and nobody else does; only after AddTag has returned can a Stop own it; a
      poller leaves its loop only when told to, and `signalled` says that Close
      has told all of them.
   */
  predicate SubOk(sub: Sub, toSweep: bool, awaited: bool, closed: bool, signalled: bool) {
    && (sub.doneCh <==> sub.pc.Exited? || sub.pc.Gone?)
    && (!Returnable(sub.pc) ==> sub.stopper.NotCalled?)
    && (sub.inTable ==> !closed && !sub.stopCh && !toSweep && !awaited &&
                        (sub.stopper.NotCalled? || sub.stopper.Removing?))
    && (toSweep ==> !sub.stopCh && !awaited)
    && (toSweep || awaited ==> closed && IdleStopper(sub.stopper))
    && (sub.stopper.Stopping? ==> !sub.stopCh)
    && (!IdleStopper(sub.stopper) ==> !sub.inTable)
    && (sub.stopper == Returned(true) ==> sub.doneCh)
    && (sub.pc.Registered? ==> sub.inTable || toSweep || awaited)
    && (!sub.inTable && !toSweep && !sub.stopper.Stopping? ==> sub.stopCh)
    && (!sub.inTable && IdleStopper(sub.stopper) ==> closed)
    && (sub.stopCh && IdleStopper(sub.stopper) ==> closed)
    && (sub.stopper == Returned(false) ==> !sub.inTable)
    && (sub.pc.Leaving? || sub.pc.Exited? || sub.pc.Gone? ==> sub.stopCh || signalled)
  }

  predicate SubsOk(s: State) {
    forall i | 0 <= i < |s.subs| :: SubOk(s.subs[i], ToSweep(s.closer, i), IsAwaited(s.closer, i), s.closed, s.stopCh)
  }

  predicate CloserOk(s: State) {
    && (s.stopCh <==> !s.closer.Open?)
    && (s.closed <==> !s.closer.Open? && !s.closer.Signalled?)
    && (s.eventsClosed <==> s.closer.Finished?)
    && (s.closer.Sweeping? || s.closer.Awaiting? ==>
          NoDuplicates(s.closer.todo) && forall k | 0 <= k < |s.closer.todo| :: s.closer.todo[k] < |s.subs|)
    && (s.closer.Awaiting? ==> s.closer.id < |s.subs| && s.closer.id !in s.closer.todo)
    && (s.closer.Finishing? || s.closer.Finished? ==> s.wg == 0)
  }

  predicate Inv(s: State) {
    && SubsOk(s)
    && CloserOk(s)
    && s.wg == Count(s.subs)
    && !s.fault && !s.lateAdd
  }

  /** Once Close waits for the group, every poller has been counted. */
  lemma AllCounted(s: State, i: nat)
    requires Inv(s) && i < |s.subs|
    requires CloseWaits(s.closer)
    ensures !s.subs[i].pc.Registered?
    ensures s.wg == 0 ==> s.subs[i].pc.Gone?
  {
    assert SubOk(s.subs[i], ToSweep(s.closer, i), IsAwaited(s.closer, i), s.closed, s.stopCh);
    CountUpdate(s.subs, i, s.subs[i]);
  }

  lemma OpStaysOk(s: State, sub: Sub, op: Op, toSweep: bool, awaited: bool, closed: bool)
    requires SubOk(sub, toSweep, awaited, closed, s.stopCh) && OpEnabled(s, sub, op)
    ensures SubOk(OpSub(sub, op, s.stopCh), toSweep, awaited, closed, s.stopCh)
  {
  }

  lemma OpIsFaultless(s: State, i: nat, op: Op)
    requires Inv(s) && i < |s.subs| && OpEnabled(s, s.subs[i], op)
    ensures !OpFault(s, s.subs[i], op)
    ensures CloseWaits(s.closer) ==> !op.WgAdd?
    ensures s.closer.Finishing? || s.closer.Finished? ==> !op.WgDone?
  {
    assert SubOk(s.subs[i], ToSweep(s.closer, i), IsAwaited(s.closer, i), s.closed, s.stopCh);
    CountUpdate(s.subs, i, s.subs[i]);
    if CloseWaits(s.closer) {
      AllCounted(s, i);
    }
  }

  lemma DoKeepsInv(s: State, i: nat, op: Op)
    requires Inv(s) && Enabled(s, Do(i, op))
    ensures Inv(Next(s, Do(i, op)))
  {
    hide SubOk, OpFault;
    var sub := OpSub(s.subs[i], op, s.stopCh);
    var t := Next(s, Do(i, op));
    OpIsFaultless(s, i, op);
    CountUpdate(s.subs, i, sub);
    forall j | 0 <= j < |t.subs|
      ensures SubOk(t.subs[j], ToSweep(t.closer, j), IsAwaited(t.closer, j), t.closed, t.stopCh)
    {
      assert SubOk(s.subs[j], ToSweep(s.closer, j), IsAwaited(s.closer, j), s.closed, s.stopCh);
      if j == i {
        OpStaysOk(s, s.subs[i], op, ToSweep(s.closer, i), IsAwaited(s.closer, i), s.closed);
      }
    }
  }

  lemma AddTagKeepsInv(s: State, immediate: bool)
    requires Inv(s)
    ensures Inv(Next(s, AddTag(immediate)))
  {
    if !s.closed {
      var t := Next(s, AddTag(immediate));
      assert t.subs[..|s.subs|] == s.subs;
      forall j | 0 <= j < |t.subs|
        ensures SubOk(t.subs[j], ToSweep(t.closer, j), IsAwaited(t.closer, j), t.closed, t.stopCh)
      {
        if j < |s.subs| {
          assert SubOk(s.subs[j], ToSweep(s.closer, j), IsAwaited(s.closer, j), s.closed, s.stopCh);
        }
      }
    }
  }

  lemma CloseSignalKeepsInv(s: State)
    requires Inv(s) && Enabled(s, CallClose)
    ensures Inv(Next(s, CallClose))
  {
    forall j | 0 <= j < |s.subs| ensures SubOk(s.subs[j], false, false, s.closed, true) {
      assert SubOk(s.subs[j], ToSweep(s.closer, j), IsAwaited(s.closer, j), s.closed, s.stopCh);
    }
  }

  lemma SnapshotKeepsInv(s: State, order: seq<nat>)
    requires Inv(s) && Enabled(s, Snapshot(order))
    ensures Inv(Next(s, Snapshot(order)))
  {
    var t := Next(s, Snapshot(order));
    CountSame(s.subs, t.subs);
    forall j | 0 <= j < |t.subs| ensures SubOk(t.subs[j], j in order, false, true, true) {
      assert SubOk(s.subs[j], false, false, s.closed, s.stopCh);
      if j in order {
        var k :| 0 <= k < |order| && order[k] == j;
        assert s.subs[order[k]].inTable;
      }
    }
  }

  lemma HeadIsNotInRest(ids: seq<nat>)
    requires NoDuplicates(ids) && ids != []
    ensures ids[0] !in ids[1..] && NoDuplicates(ids[1..])
    ensures forall j: nat :: j in ids <==> j == ids[0] || j in ids[1..]
  {
    assert ids == [ids[0]] + ids[1..];
    forall k | 0 <= k < |ids[1..]| ensures ids[1..][k] != ids[0] {
      assert ids[1..][k] == ids[k + 1];
    }
  }

  lemma SweepNextKeepsInv(s: State)
    requires Inv(s) && Enabled(s, SweepNext)
    ensures Inv(Next(s, SweepNext))
  {
    var todo := s.closer.todo;
    var t := Next(s, SweepNext);
    if todo == [] {
      forall j | 0 <= j < |t.subs| ensures SubOk(t.subs[j], false, false, t.closed, t.stopCh) {
        assert SubOk(s.subs[j], j in todo, false, s.closed, s.stopCh);
      }
    } else {
      var id, rest := todo[0], todo[1..];
      CountUpdate(s.subs, id, s.subs[id].(stopCh := true));
      HeadIsNotInRest(todo);
      forall j | 0 <= j < |t.subs| ensures SubOk(t.subs[j], j in rest, j == id, t.closed, t.stopCh) {
        assert SubOk(s.subs[j], j in todo, false, s.closed, s.stopCh);
      }
    }
  }

  lemma SweepAwaitedKeepsInv(s: State)
    requires Inv(s) && Enabled(s, SweepAwaited)
    ensures Inv(Next(s, SweepAwaited))
  {
    forall j | 0 <= j < |s.subs| ensures SubOk(s.subs[j], j in s.closer.todo, false, s.closed, s.stopCh) {
      assert SubOk(s.subs[j], j in s.closer.todo, j == s.closer.id, s.closed, s.stopCh);
    }
  }

  lemma EndOfCloseKeepsInv(s: State, a: Action)
    requires Inv(s) && Enabled(s, a) && (a.Drained? || a.CloseEvents?)
    ensures Inv(Next(s, a))
  {
    forall j | 0 <= j < |s.subs| ensures SubOk(s.subs[j], false, false, s.closed, true) {
      assert SubOk(s.subs[j], ToSweep(s.closer, j), IsAwaited(s.closer, j), s.closed, s.stopCh);
    }
  }

  lemma StepKeepsInv(s: State, a: Action)
    requires Inv(s) && Enabled(s, a)
    ensures Inv(Next(s, a))
  {
    match a
    case AddTag(immediate) => AddTagKeepsInv(s, immediate);
    case CallClose => CloseSignalKeepsInv(s);
    case Receive => assert Next(s, a).subs == s.subs;
    case Do(i, op) => DoKeepsInv(s, i, op);
    case Snapshot(order) => SnapshotKeepsInv(s, order);
    case SweepNext => SweepNextKeepsInv(s);
    case SweepAwaited => SweepAwaitedKeepsInv(s);
    case _ => EndOfCloseKeepsInv(s, a);
  }

  lemma {:induction false} RunKeepsInv(s: State, actions: seq<Action>)
    requires Inv(s) && Feasible(s, actions)
    ensures Inv(Run(s, actions))
  {
    if actions != [] {
      RunKeepsInv(s, actions[..|actions| - 1]);
      StepKeepsInv(Run(s, actions[..|actions| - 1]), actions[|actions| - 1]);
    }
  }

  /** In every reachable state: nothing was sent on a closed channel, no channel
      was closed twice, the wait group was never negative and never added to
      once Close waited on it; and when the events channel is closed, every
      poller is gone and can never offer an event again.
   */
  lemma Safe(capacity: nat, actions: seq<Action>)
    requires Feasible(Initial(capacity), actions)
    ensures var t := Run(Initial(capacity), actions);
      && !t.fault && !t.lateAdd
      && t.wg == Count(t.subs)
      && (t.eventsClosed ==> forall i | 0 <= i < |t.subs| :: t.subs[i].pc.Gone?)
  {
    RunKeepsInv(Initial(capacity), actions);
    var t := Run(Initial(capacity), actions);
    if t.eventsClosed {
      forall i | 0 <= i < |t.subs| ensures t.subs[i].pc.Gone? {
        AllCounted(t, i);
      }
    }
  }
}
