/** What any run of scheduler ticks does to one producing connection. */
module Pacing {
  import opened Bytes
  import opened IoRuntime

  /** States before, between and after ticks on a monotone clock. */
  ghost predicate TickRun(states: seq<Paced>, times: seq<int>) {
    && |states| == |times| > 0
    && forall i | 0 <= i < |states| - 1 :: TickStep(states, times, i)
  }

  ghost predicate TickStep(states: seq<Paced>, times: seq<int>, i: nat)
    requires i + 1 < |states| == |times|
  {
    times[i] <= times[i + 1] && Ticked(states[i], states[i + 1], times[i], times[i + 1])
  }

  /** Consecutive sends are an interval apart, from the end of one to the
      beginning of the next.
   */
  ghost predicate Spaced(sends: seq<Send>, rpi: int) {
    && (forall i | 0 <= i < |sends| :: sends[i].checked <= sends[i].stamped)
    && (forall i, j | 0 <= i < j < |sends| && j == i + 1 :: sends[j].checked - sends[i].stamped >= rpi)
  }

  function Intervals(n: nat, rpi: int): int { n * rpi }

  /** What every tick keeps, relative to a start at time t0. */
  ghost predicate PacedFrom(start: Paced, p: Paced, t0: int, now: int) {
    && p.rpi == start.rpi && p.active == start.active
    && Spaced(p.sends, p.rpi)
    && p.sequence == Low16(start.sequence + |p.sends|)
    && (p.sends == [] ==> p.lastSend == start.lastSend)
    && (p.sends != [] ==>
          && p.active && t0 <= p.sends[0].checked && p.sends[0].checked - start.lastSend >= p.rpi
          && p.lastSend == p.sends[|p.sends| - 1].stamped <= now
          && Intervals(|p.sends| - 1, p.rpi) <= p.lastSend - p.sends[0].checked)
  }

  lemma SendKeepsSpacing(sends: seq<Send>, rpi: int, send: Send)
    requires Spaced(sends, rpi) && send.checked <= send.stamped
    requires sends != [] ==> send.checked - sends[|sends| - 1].stamped >= rpi
    ensures Spaced(sends + [send], rpi)
  {
  }

  lemma SendKeepsPace(start: Paced, p: Paced, t0: int, now: int, checked: int, stamped: int)
    requires PacedFrom(start, p, t0, now) && t0 <= now <= checked <= stamped && Due(p, checked)
    ensures PacedFrom(start, Sent(p, checked, stamped), t0, stamped)
  {
    hide Spaced, Intervals, Low16;
    SendKeepsSpacing(p.sends, p.rpi, Send(checked, stamped));
    OneMoreCount(start.sequence + |p.sends|);
    OneMoreInterval(|p.sends|, p.rpi);
  }

  lemma OneMoreInterval(n: nat, rpi: int)
    ensures Intervals(0, rpi) == 0
    ensures n > 0 ==> Intervals(n, rpi) == Intervals(n - 1, rpi) + rpi
  {
  }

  lemma OneMoreCount(n: nat)
    ensures Low16(Low16(n) + 1) == Low16(n + 1)
  {
  }

  /** A tick at which nothing is due changes nothing but the time. */
  lemma WaitingKeepsPace(start: Paced, p: Paced, t0: int, now: int, later: int)
    requires PacedFrom(start, p, t0, now) && now <= later
    ensures PacedFrom(start, p, t0, later)
  {
  }

  lemma StartIsPaced(start: Paced, t0: int)
    requires start.sends == []
    ensures PacedFrom(start, start, t0, t0)
  {
  }

  lemma TickKeepsPace(start: Paced, p: Paced, q: Paced, t0: int, now: int, later: int)
    requires PacedFrom(start, p, t0, now) && t0 <= now <= later && Ticked(p, q, now, later)
    ensures PacedFrom(start, q, t0, later)
  {
    hide PacedFrom;
    var checked, stamped :| now <= checked && stamped <= later && TickedAt(p, q, checked, stamped);
    if Due(p, checked) {
      SendKeepsPace(start, p, t0, now, checked, stamped);
      WaitingKeepsPace(start, q, t0, stamped, later);
    } else {
      WaitingKeepsPace(start, p, t0, now, later);
    }
  }

  lemma {:induction false} TicksKeepPace(states: seq<Paced>, times: seq<int>)
    requires TickRun(states, times) && states[0].sends == []
    ensures times[0] <= times[|times| - 1]
    ensures PacedFrom(states[0], states[|states| - 1], times[0], times[|times| - 1])
  {
    hide PacedFrom, Ticked;
    var n := |states| - 1;
    if n == 0 {
      StartIsPaced(states[0], times[0]);
    } else {
      forall i | 0 <= i < n - 1 ensures TickStep(states[..n], times[..n], i) {
        assert TickStep(states, times, i);
      }
      TicksKeepPace(states[..n], times[..n]);
      assert TickStep(states, times, n - 1);
      TickKeepsPace(states[0], states[n - 1], states[n], times[0], times[n - 1], times[n]);
    }
  }

  /** Over any run of ticks: sends are at least an interval apart, N of them
      take at least N - 1 intervals, the sequence count has advanced by N modulo
      2^16, and only a producer with an assembly sends at all.
   */
  lemma PacingOverRuns(states: seq<Paced>, times: seq<int>)
    requires TickRun(states, times) && states[0].sends == []
    ensures var p, n := states[|states| - 1], |states[|states| - 1].sends|;
      && Spaced(p.sends, states[0].rpi)
      && p.sequence == Low16(states[0].sequence + n)
      && (n > 0 ==> states[0].active && (n - 1) * states[0].rpi <= times[|times| - 1] - times[0])
  {
    TicksKeepPace(states, times);
  }
}
