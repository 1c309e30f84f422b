/** Close always gets through, with a full event channel and nobody reading it,
    as long as tag reads and handlers return.
 */
module MonitorProgress {
  import opened TagMonitor
  import opened MonitorSafety

  /** Steps the monitor takes by itself: no new call, no consumer. */
  predicate ByItself(a: Action) {
    !a.AddTag? && !a.CallClose? && !a.Receive? && !(a.Do? && a.op.CallStop?)
  }

  /** A ticker can keep firing; everything else leads towards the end. */
  predicate IsTick(a: Action) {
    a.Do? && a.op.TickerFires?
  }

  // ---------- a step is always enabled ----------

  /** A step of a poller that is not gone, once Close has signalled. */
  function PollerStep(pc: Pc): Op
    requires !pc.Gone?
  {
    match pc
    case Registered => WgAdd
    case Counted => Go
    case Spawned => Start
    case Reading => FinishRead
    case Checking => CheckStop
    case Offering => DropEvent
    case Waiting => SeeStop
    case Leaving => CloseDone
    case Exited => WgDone
  }

  /** One order in which Close can meet the table: by increasing index. */
  function TableOrder(subs: seq<Sub>): seq<nat> {
    if subs == [] then []
    else
      var n := |subs| - 1;
      TableOrder(subs[..n]) + if subs[n].inTable then [n] else []
  }

  lemma {:induction false} TableOrderIsOrder(subs: seq<Sub>)
    ensures IsOrderOfTable(TableOrder(subs), subs)
  {
    if subs != [] {
      var n := |subs| - 1;
      TableOrderIsOrder(subs[..n]);
      var before := TableOrder(subs[..n]);
      forall k | 0 <= k < |before| ensures before[k] < n && subs[before[k]].inTable {
        assert subs[..n][before[k]].inTable;
      }
      forall i | 0 <= i < |subs| && subs[i].inTable ensures i in TableOrder(subs) {
        if i < n { assert subs[..n][i].inTable; }
      }
    }
  }

  lemma {:induction false} SomeCounted(subs: seq<Sub>) returns (i: nat)
    requires Count(subs) > 0
    ensures i < |subs| && IsCounted(subs[i].pc)
  {
    var n := |subs| - 1;
    if IsCounted(subs[n].pc) {
      i := n;
    } else {
      i := SomeCounted(subs[..n]);
    }
  }

  lemma NeverStuck(s: State) returns (a: Action)
    requires Inv(s) && s.stopCh && !s.closer.Finished?
    ensures ByItself(a) && !IsTick(a) && Enabled(s, a)
  {
    match s.closer
    case Signalled =>
      TableOrderIsOrder(s.subs);
      a := Snapshot(TableOrder(s.subs));
    case Sweeping(_) => a := SweepNext;
    case Awaiting(id, _) =>
      assert SubOk(s.subs[id], ToSweep(s.closer, id), IsAwaited(s.closer, id), s.closed, s.stopCh);
      a := if s.subs[id].doneCh then SweepAwaited else Do(id, PollerStep(s.subs[id].pc));
    case Draining =>
      if s.wg == 0 {
        a := Drained;
      } else {
        var i := SomeCounted(s.subs);
        a := Do(i, PollerStep(s.subs[i].pc));
      }
    case Finishing => a := CloseEvents;
  }

  // ---------- and takes the monitor closer to the end ----------

  function PcRank(pc: Pc): nat {
    match pc
    case Registered => 9
    case Counted => 8
    case Spawned => 7
    case Reading => 6
    case Checking => 5
    case Offering => 4
    case Waiting => 3
    case Leaving => 2
    case Exited => 1
    case Gone => 0
  }

  function StopperRank(st: Stopper): nat {
    match st
    case Removing => 3
    case Stopping => 2
    case Halting => 1
    case _ => 0
  }

  function SubRank(sub: Sub): nat {
    PcRank(sub.pc) + StopperRank(sub.stopper)
  }

  function Total(subs: seq<Sub>): nat {
    if subs == [] then 0 else Total(subs[..|subs| - 1]) + SubRank(subs[|subs| - 1])
  }

  function CloserRank(c: Closer, n: nat): nat {
    match c
    case Open => 2 * n + 5
    case Signalled => 2 * n + 4
    case Sweeping(todo) => 2 * |todo| + 3
    case Awaiting(_, todo) => 2 * |todo| + 4
    case Draining => 2
    case Finishing => 1
    case Finished => 0
  }

  function Rank(s: State): nat {
    Total(s.subs) + CloserRank(s.closer, |s.subs|)
  }

  lemma {:induction false} TotalUpdate(subs: seq<Sub>, i: nat, sub: Sub)
    requires i < |subs|
    ensures Total(subs[i := sub]) == Total(subs) - SubRank(subs[i]) + SubRank(sub)
  {
    var n := |subs| - 1;
    if i == n {
      assert subs[i := sub][..n] == subs[..n];
    } else {
      TotalUpdate(subs[..n], i, sub);
      assert subs[i := sub][..n] == subs[..n][i := sub];
    }
  }

  lemma {:induction false} TotalSame(a: seq<Sub>, b: seq<Sub>)
    requires |a| == |b| && forall i | 0 <= i < |a| :: SubRank(a[i]) == SubRank(b[i])
    ensures Total(a) == Total(b)
  {
    if a != [] { TotalSame(a[..|a| - 1], b[..|b| - 1]); }
  }

  /** Distinct indices below n are at most n. */
  lemma FewIndices(ids: seq<nat>, n: nat)
    requires NoDuplicates(ids) && forall k | 0 <= k < |ids| :: ids[k] < n
    ensures |ids| <= n
  {
    var all := set k | 0 <= k < |ids| :: ids[k];
    DistinctCount(ids, all);
    assert all <= Below(n);
    SubsetCount(all, Below(n));
  }

  function Below(n: nat): (s: set<nat>)
    ensures |s| == n && forall i: nat :: i in s <==> i < n
  {
    if n == 0 then {} else Below(n - 1) + {n - 1}
  }

  lemma {:induction false} DistinctCount(ids: seq<nat>, all: set<nat>)
    requires NoDuplicates(ids) && all == set k | 0 <= k < |ids| :: ids[k]
    ensures |all| == |ids|
  {
    if ids != [] {
      var n := |ids| - 1;
      var before := set k | 0 <= k < n :: ids[..n][k];
      DistinctCount(ids[..n], before);
      assert all == before + {ids[n]};
    }
  }

  lemma {:induction false} SubsetCount<T>(a: set<T>, b: set<T>)
    requires a <= b
    ensures |a| <= |b|
  {
    if a != {} {
      var x :| x in a;
      SubsetCount(a - {x}, b - {x});
    }
  }

  lemma OpRank(s: State, sub: Sub, op: Op)
    requires OpEnabled(s, sub, op) && !op.CallStop?
    ensures op.TickerFires? ==> SubRank(OpSub(sub, op, s.stopCh)) == SubRank(sub) + 3
    ensures !op.TickerFires? ==> SubRank(OpSub(sub, op, s.stopCh)) < SubRank(sub)
  {
  }

  lemma DoRank(s: State, i: nat, op: Op)
    requires Enabled(s, Do(i, op)) && !op.CallStop?
    ensures Rank(Next(s, Do(i, op))) + 1 <= Rank(s) + if op.TickerFires? then 4 else 0
  {
    hide SubRank, OpSub;
    OpRank(s, s.subs[i], op);
    TotalUpdate(s.subs, i, OpSub(s.subs[i], op, s.stopCh));
  }

  lemma CloserRankFalls(s: State, a: Action)
    requires Enabled(s, a) && ByItself(a) && !a.Do?
    ensures Rank(Next(s, a)) < Rank(s)
  {
    hide Total, IsOrderOfTable;
    match a
    case Snapshot(order) =>
      SnapshotIsSmall(s, order);
      TotalSame(s.subs, Unlisted(s.subs));
    case SweepNext =>
      if s.closer.todo != [] {
        var id := s.closer.todo[0];
        TotalUpdate(s.subs, id, s.subs[id].(stopCh := true));
      }
    case _ =>
  }

  lemma SnapshotIsSmall(s: State, order: seq<nat>)
    requires IsOrderOfTable(order, s.subs)
    ensures |order| <= |s.subs|
  {
    FewIndices(order, |s.subs|);
  }

  lemma StepRank(s: State, a: Action)
    requires Enabled(s, a) && ByItself(a)
    ensures Rank(Next(s, a)) + 1 <= Rank(s) + if IsTick(a) then 4 else 0
  {
    hide Rank, Next;
    if a.Do? {
      DoRank(s, a.i, a.op);
    } else {
      CloserRankFalls(s, a);
    }
  }

  function Ticks(actions: seq<Action>): nat {
    if actions == [] then 0
    else Ticks(actions[..|actions| - 1]) + if IsTick(actions[|actions| - 1]) then 1 else 0
  }

  predicate AllByItself(actions: seq<Action>) {
    forall k | 0 <= k < |actions| :: ByItself(actions[k])
  }

  /** Calls of AddTag, Stop and Close, and receptions by the consumer. */
  function Outside(actions: seq<Action>): nat {
    if actions == [] then 0
    else Outside(actions[..|actions| - 1]) + if ByItself(actions[|actions| - 1]) then 0 else 1
  }

  lemma TotalSnoc(subs: seq<Sub>, sub: Sub)
    ensures Total(subs + [sub]) == Total(subs) + SubRank(sub)
  {
    assert (subs + [sub])[..|subs|] == subs;
  }

  lemma AddTagRank(s: State, immediate: bool)
    ensures Rank(Next(s, AddTag(immediate))) <= Rank(s) + 11
  {
    hide Total;
    TotalSnoc(s.subs, NewSub(immediate));
  }

  lemma CallStopRank(s: State, i: nat)
    requires Enabled(s, Do(i, CallStop))
    ensures Rank(Next(s, Do(i, CallStop))) == Rank(s) + 3
  {
    hide Total;
    TotalUpdate(s.subs, i, OpSub(s.subs[i], CallStop, s.stopCh));
  }

  lemma OutsideRank(s: State, a: Action)
    requires Enabled(s, a) && !ByItself(a)
    ensures Rank(Next(s, a)) <= Rank(s) + 11
  {
    hide Total;
    match a
    case AddTag(immediate) => AddTagRank(s, immediate);
    case Do(i, _) => CallStopRank(s, i);
    case CallClose =>
    case Receive =>
  }

  /** Every run, with callers and the consumer interleaved at will: it has at
      most as many steps as its start allows, four more for each tick of a
      ticker that wins its select, and twelve for each step from outside. So
      after Close has begun, only endless ticks or calls can keep it from ending.
   */
  lemma {:induction false} RunsAreBounded(s: State, actions: seq<Action>)
    requires Feasible(s, actions)
    ensures |actions| + Rank(Run(s, actions)) <= Rank(s) + 4 * Ticks(actions) + 12 * Outside(actions)
  {
    hide Rank, Next, Enabled;
    if actions != [] {
      var before, last := actions[..|actions| - 1], actions[|actions| - 1];
      RunsAreBounded(s, before);
      if ByItself(last) {
        StepRank(Run(s, before), last);
      } else {
        OutsideRank(Run(s, before), last);
      }
    }
  }

  lemma {:induction false} RunCons(s: State, a: Action, actions: seq<Action>)
    requires Enabled(s, a) && Feasible(Next(s, a), actions)
    ensures Feasible(s, [a] + actions) && Run(s, [a] + actions) == Run(Next(s, a), actions)
  {
    hide Next, Enabled;
    if actions == [] {
      assert [a] + actions == [a] && [a][..0] == [];
      assert Feasible(s, [a][..0]) && Run(s, [a][..0]) == s;
    } else {
      var n := |actions| - 1;
      RunCons(s, a, actions[..n]);
      assert ([a] + actions)[..n + 1] == [a] + actions[..n];
    }
  }

  lemma StopStaysClosed(s: State, a: Action)
    requires Enabled(s, a) && s.stopCh
    ensures Next(s, a).stopCh
  {
  }

  /** From any reachable state in which Close has begun, the monitor can reach
      the end of Close by itself.
   */
  lemma {:induction false} CloseCanFinish(s: State) returns (actions: seq<Action>)
    requires Inv(s) && s.stopCh
    ensures Feasible(s, actions) && AllByItself(actions) && Ticks(actions) == 0
    ensures Run(s, actions).closer.Finished?
    decreases Rank(s)
  {
    if s.closer.Finished? {
      actions := [];
    } else {
      var a := NeverStuck(s);
      StepKeepsInv(s, a);
      StopStaysClosed(s, a);
      StepRank(s, a);
      var later := CloseCanFinish(Next(s, a));
      RunCons(s, a, later);
      TicksCons(a, later);
      actions := [a] + later;
    }
  }

  lemma {:induction false} TicksCons(a: Action, actions: seq<Action>)
    ensures Ticks([a] + actions) == (if IsTick(a) then 1 else 0) + Ticks(actions)
  {
    if actions == [] {
      assert [a] + actions == [a] && [a][..0] == [];
    } else {
      var n := |actions| - 1;
      TicksCons(a, actions[..n]);
      assert ([a] + actions)[..n + 1] == [a] + actions[..n];
    }
  }

  /** A run ends with the events channel closed unless the monitor itself can
      extend it, tickers aside.
   */
  lemma MaximalRunsFinish(capacity: nat, actions: seq<Action>)
    requires Feasible(Initial(capacity), actions)
    ensures var t := Run(Initial(capacity), actions);
      t.stopCh && !t.eventsClosed ==> exists a :: ByItself(a) && !IsTick(a) && Enabled(t, a)
  {
    RunKeepsInv(Initial(capacity), actions);
    var t := Run(Initial(capacity), actions);
    if t.stopCh && !t.closer.Finished? {
      var a := NeverStuck(t);
      assert ByItself(a);
    }
  }

  /** Every reachable monitor can be closed: if Close has not been called it can
      be, and then its end can be reached.
   */
  lemma {:induction false} EveryMonitorCanBeClosed(capacity: nat, before: seq<Action>) returns (later: seq<Action>)
    requires Feasible(Initial(capacity), before)
    ensures var s := Run(Initial(capacity), before);
      && Feasible(s, later) && Run(s, later).eventsClosed
      && forall k | 0 <= k < |later| :: ByItself(later[k]) || (k == 0 && later[k] == CallClose)
  {
    var s := Run(Initial(capacity), before);
    RunKeepsInv(Initial(capacity), before);
    if s.stopCh {
      later := CloseCanFinish(s);
      RunKeepsInv(s, later);
    } else {
      CloseSignalKeepsInv(s);
      var rest := CloseCanFinish(Next(s, CallClose));
      RunCons(s, CallClose, rest);
      later := [CallClose] + rest;
      RunKeepsInv(s, later);
    }
  }
}
