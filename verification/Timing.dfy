/** The scheduler of one node feeding the watchdog of another over a network
    with bounded delay and bounded loss: the connection is kept exactly as long
    as it should be.
 */
module Timing {
  import opened Bytes
  import opened IoRuntime
  import opened Timeouts

  /** Ticks come at most `tick` apart; sending takes at most `cost`, from the
      clock reading that found the connection due to the one stored as the time
      of the send; a packet that arrives does so at least `delay` and at most
      `delay + jitter` after the first of the two; at most `losses` packets in
      a row are lost.
   */
  datatype Bounds = Bounds(tick: nat, cost: nat, delay: nat, jitter: nat, losses: nat)

  datatype Fate = Pending | Arrived | Lost

  datatype Packet = Packet(sentAt: int, fate: Fate)

  /** `lastTick` is the latest tick's look at the connection; `sending` says that
      it was found due then and the time of the send is not stored yet.
   */
  datatype State = State(
    now: int,
    producer: Paced,
    lastTick: int,
    sending: bool,
    packets: seq<Packet>,
    consumer: Watched,
    present: bool)

  datatype Event = Tick(at: int) | Stamp(at: int) | Arrive(i: nat, at: int) | Lose(i: nat) | Check(at: int)

  /** Time may pass to `at`: the next tick is not overdue, and neither is the
      end of a send or the fate of any packet in flight.
   */
  predicate CanWait(b: Bounds, s: State, at: int) {
    && s.now <= at <= s.lastTick + b.tick
    && (s.sending ==> at <= s.lastTick + b.cost)
    && forall i | 0 <= i < |s.packets| && s.packets[i].fate.Pending? :: at <= s.packets[i].sentAt + b.delay + b.jitter
  }

  /** Of the losses + 1 packets from i on, one was not lost. */
  predicate Survives(packets: seq<Packet>, i: nat, losses: nat) {
    exists j | i <= j <= i + losses && j < |packets| :: !packets[j].fate.Lost?
  }

  predicate LossesBounded(b: Bounds, packets: seq<Packet>) {
    forall i | 0 <= i < |packets| - b.losses :: Survives(packets, i, b.losses)
  }

  predicate Enabled(b: Bounds, s: State, e: Event) {
    match e
    case Tick(at) => !s.sending && CanWait(b, s, at)
    case Stamp(at) => s.sending && CanWait(b, s, at)
    case Arrive(i, at) =>
      i < |s.packets| && s.packets[i].fate.Pending? && CanWait(b, s, at) && s.packets[i].sentAt + b.delay <= at
    case Lose(i) =>
      i < |s.packets| && s.packets[i].fate.Pending? &&
      LossesBounded(b, s.packets[i := s.packets[i].(fate := Lost)])
    case Check(at) => CanWait(b, s, at)
  }

  /** A tick begins a send when the scheduler finds the connection due, and a
      stamp ends it; an arrival refreshes the consumer; a check is what
      CheckTimeouts does.
   */
  function Next(s: State, e: Event): State {
    match e
    case Tick(at) =>
      if Due(s.producer, at) then
        s.(now := at, lastTick := at, sending := true, packets := s.packets + [Packet(at, Pending)])
      else s.(now := at, lastTick := at)
    case Stamp(at) => s.(now := at, sending := false, producer := Sent(s.producer, s.lastTick, at))
    case Arrive(i, at) =>
      if i < |s.packets| then
        s.(now := at, packets := s.packets[i := s.packets[i].(fate := Arrived)],
           consumer := s.consumer.(lastReceive := at))
      else s
    case Lose(i) =>
      if i < |s.packets| then s.(packets := s.packets[i := s.packets[i].(fate := Lost)]) else s
    case Check(at) => s.(now := at, present := s.present && !Expired(s.consumer, at))
  }

  /** Just after an arrival, no later packet sent yet. The first packet may
      also stand for AddConnection: added at time t, the consumer is as if it
      had received a packet sent at t - delay.
   */
  predicate Start(b: Bounds, s: State) {
    && s.present && s.consumer.isConsumer && s.producer.active && 0 <= s.producer.rpi
    && s.consumer.lastReceive <= s.now
    && |s.packets| == 1 && s.packets[0].fate.Arrived?
    && s.packets[0].sentAt + b.delay <= s.consumer.lastReceive
    && !s.sending
    && s.producer.lastSend <= s.packets[0].sentAt + b.cost
    && s.lastTick <= s.packets[0].sentAt + s.producer.rpi + b.cost
    && s.lastTick <= s.now <= s.lastTick + b.tick
  }

  /** The gap between two sends: an interval, the wait for the next tick, and
      the time the earlier send took.
   */
  function Period(b: Bounds, s: State): int {
    s.producer.rpi + b.tick + b.cost
  }

  predicate Inv(b: Bounds, s: State) {
    && s.present && s.consumer.isConsumer && s.producer.active && 0 <= s.producer.rpi
    && s.packets != [] && s.packets[0].fate.Arrived?
    && (s.sending ==> s.lastTick == Last(s.packets).sentAt)
    && (!s.sending ==> s.producer.lastSend <= Last(s.packets).sentAt + b.cost)
    && s.lastTick <= Last(s.packets).sentAt + s.producer.rpi + b.cost
    && CanWait(b, s, s.now)
    && LossesBounded(b, s.packets)
    && Regular(s.packets, Period(b, s))
    && forall i | 0 <= i < |s.packets| && s.packets[i].fate.Arrived? ::
         s.packets[i].sentAt + b.delay <= s.consumer.lastReceive
  }

  function Last(packets: seq<Packet>): Packet
    requires packets != []
  {
    packets[|packets| - 1]
  }

  predicate Regular(packets: seq<Packet>, period: int) {
    forall i | 0 < i < |packets| :: packets[i].sentAt <= packets[i - 1].sentAt + period
  }

  lemma {:induction false} RegularFrom(packets: seq<Packet>, period: nat, i: nat, j: nat)
    requires Regular(packets, period) && i <= j < |packets|
    ensures packets[j].sentAt <= packets[i].sentAt + (j - i) * period
  {
    if i < j {
      RegularFrom(packets, period, i, j - 1);
      assert (j - 1 - i) * period + period == (j - i) * period;
    }
  }

  /** The newest packet that arrived. */
  function LatestArrival(packets: seq<Packet>): (i: nat)
    requires packets != [] && packets[0].fate.Arrived?
    ensures i < |packets| && packets[i].fate.Arrived?
    ensures forall j | i < j < |packets| :: !packets[j].fate.Arrived?
  {
    if Last(packets).fate.Arrived? then |packets| - 1
    else
      var i := LatestArrival(packets[..|packets| - 1]);
      assert packets[i] == packets[..|packets| - 1][i];
      assert forall j | i < j < |packets| - 1 :: packets[j] == packets[..|packets| - 1][j];
      i
  }

  lemma MulGrows(m: nat, n: nat, p: nat)
    requires m <= n
    ensures m * p <= n * p
  {
  }

  /** The silence a kept connection can see. */
  function LongestSilence(b: Bounds, s: State): int {
    (b.losses + 1) * Period(b, s) + b.jitter
  }

  lemma SilenceIsBounded(b: Bounds, s: State, at: int)
    requires Inv(b, s) && CanWait(b, s, at)
    ensures at - s.consumer.lastReceive <= LongestSilence(b, s)
  {
    var p := s.packets;
    var period := Period(b, s);
    var a := LatestArrival(p);
    var n := |p| - 1;
    if a + 1 + b.losses <= n {
      assert Survives(p, a + 1, b.losses);
      var j :| a + 1 <= j <= a + 1 + b.losses && j < |p| && !p[j].fate.Lost?;
      assert p[j].fate.Pending?;
      RegularFrom(p, period, a, j);
      MulGrows(j - a, b.losses + 1, period);
    } else {
      RegularFrom(p, period, a, n);
      assert (n - a) * period + period == (n - a + 1) * period;
      MulGrows(n - a + 1, b.losses + 1, period);
    }
  }

  /** The timeout covers the longest silence. */
  predicate Covered(b: Bounds, s: State) {
    LongestSilence(b, s) <= Timeout(s.consumer.rpi, s.consumer.mult)
  }

  lemma LossesAfterSend(b: Bounds, packets: seq<Packet>, at: int)
    requires LossesBounded(b, packets)
    ensures LossesBounded(b, packets + [Packet(at, Pending)])
  {
    var more := packets + [Packet(at, Pending)];
    forall i | 0 <= i < |more| - b.losses ensures Survives(more, i, b.losses) {
      if i + b.losses == |packets| {
        assert !more[|packets|].fate.Lost?;
      } else {
        assert Survives(packets, i, b.losses);
        var j :| i <= j <= i + b.losses && j < |packets| && !packets[j].fate.Lost?;
        assert more[j] == packets[j];
      }
    }
  }

  lemma LossesAfterArrival(b: Bounds, packets: seq<Packet>, k: nat)
    requires LossesBounded(b, packets) && k < |packets|
    ensures LossesBounded(b, packets[k := packets[k].(fate := Arrived)])
  {
    var after := packets[k := packets[k].(fate := Arrived)];
    forall i | 0 <= i < |after| - b.losses ensures Survives(after, i, b.losses) {
      assert Survives(packets, i, b.losses);
      var j :| i <= j <= i + b.losses && j < |packets| && !packets[j].fate.Lost?;
      assert !after[j].fate.Lost?;
    }
  }

  lemma RegularAfterSend(packets: seq<Packet>, period: int, at: int)
    requires packets != [] && Regular(packets, period) && at <= Last(packets).sentAt + period
    ensures Regular(packets + [Packet(at, Pending)], period)
  {
  }

  lemma TickKeepsInv(b: Bounds, s: State, at: int)
    requires Inv(b, s) && Enabled(b, s, Tick(at))
    ensures Inv(b, Next(s, Tick(at)))
  {
    if Due(s.producer, at) {
      LossesAfterSend(b, s.packets, at);
      RegularAfterSend(s.packets, Period(b, s), at);
    }
  }

  lemma StampKeepsInv(b: Bounds, s: State, at: int)
    requires Inv(b, s) && Enabled(b, s, Stamp(at))
    ensures Inv(b, Next(s, Stamp(at)))
  {
  }

  /** The two steps together are the scheduler's tick of the connection. */
  lemma TickThenStamp(s: State, at: int, stamped: int)
    requires !s.sending && at <= stamped
    ensures var t := Next(s, Tick(at));
            TickedAt(s.producer, (if t.sending then Next(t, Stamp(stamped)) else t).producer, at, stamped)
  {
  }

  lemma ArriveKeepsInv(b: Bounds, s: State, i: nat, at: int)
    requires Inv(b, s) && Enabled(b, s, Arrive(i, at)) && s.consumer.lastReceive <= s.now
    ensures Inv(b, Next(s, Arrive(i, at)))
  {
    LossesAfterArrival(b, s.packets, i);
  }

  lemma LoseKeepsInv(b: Bounds, s: State, i: nat)
    requires Inv(b, s) && Enabled(b, s, Lose(i))
    ensures Inv(b, Next(s, Lose(i)))
  {
  }

  lemma StepKeepsInv(b: Bounds, s: State, e: Event)
    requires Inv(b, s) && Covered(b, s) && Enabled(b, s, e) && s.consumer.lastReceive <= s.now
    ensures Inv(b, Next(s, e)) && Covered(b, Next(s, e)) && Next(s, e).consumer.lastReceive <= Next(s, e).now
  {
    hide LossesBounded, Regular;
    match e
    case Tick(at) => TickKeepsInv(b, s, at);
    case Stamp(at) => StampKeepsInv(b, s, at);
    case Arrive(i, at) => ArriveKeepsInv(b, s, i, at);
    case Lose(i) => LoseKeepsInv(b, s, i);
    case Check(at) => SilenceIsBounded(b, s, at);
  }

  function After(s: State, events: seq<Event>): State {
    if events == [] then s else Next(After(s, events[..|events| - 1]), events[|events| - 1])
  }

  predicate Possible(b: Bounds, s: State, events: seq<Event>) {
    events == [] || (
      && Possible(b, s, events[..|events| - 1])
      && Enabled(b, After(s, events[..|events| - 1]), events[|events| - 1]))
  }

  lemma StartHasInv(b: Bounds, s: State)
    requires Start(b, s)
    ensures Inv(b, s) && s.consumer.lastReceive <= s.now
  {
    assert forall i | 0 <= i < 1 - b.losses :: !s.packets[i].fate.Lost? && Survives(s.packets, i, b.losses);
  }

  lemma {:induction false} RunKeepsInv(b: Bounds, s: State, events: seq<Event>)
    requires Start(b, s) && Covered(b, s) && Possible(b, s, events)
    ensures var t := After(s, events);
            Inv(b, t) && Covered(b, t) && t.consumer.lastReceive <= t.now
  {
    hide Start, Inv, Covered, Enabled, Next;
    if events == [] {
      StartHasInv(b, s);
    } else {
      RunKeepsInv(b, s, events[..|events| - 1]);
      StepKeepsInv(b, After(s, events[..|events| - 1]), events[|events| - 1]);
    }
  }

  /** The bounds never rule out every continuation: the watchdog can check, the
      scheduler can look or finish its send, and a packet that has been on its
      way for long enough can arrive.
   */
  lemma StepsAreEnabled(b: Bounds, s: State, i: nat)
    requires Inv(b, s)
    ensures Enabled(b, s, Check(s.now))
    ensures if s.sending then Enabled(b, s, Stamp(s.now)) else Enabled(b, s, Tick(s.now))
    ensures i < |s.packets| && s.packets[i].fate.Pending? && s.packets[i].sentAt + b.delay <= s.now ==>
              Enabled(b, s, Arrive(i, s.now))
  {
  }

  /** And time passes as long as no tick, send or packet is due. */
  lemma TimePassesIff(b: Bounds, s: State, at: int)
    requires s.now <= at
    ensures Enabled(b, s, Check(at)) <==>
      && at - s.lastTick <= b.tick
      && (s.sending ==> at - s.lastTick <= b.cost)
      && forall i | 0 <= i < |s.packets| && s.packets[i].fate.Pending? ::
           at - s.packets[i].sentAt <= b.delay + b.jitter
  {
  }

  /** A producer started at time zero, its first packet delivered after `delay`. */
  lemma StartExists(b: Bounds, rpi: nat, mult: Byte)
    requires b.delay <= b.tick
    ensures exists s :: Start(b, s) && s.producer.rpi == rpi && s.consumer.rpi == rpi && s.consumer.mult == mult
  {
    var s := State(b.delay, Paced(rpi, true, 0, 1, [Send(0, 0)]), 0, false, [Packet(0, Arrived)],
                   Watched(true, rpi, mult, b.delay), true);
    assert Start(b, s);
  }

  /** When losses + 1 periods and the jitter fit in the timeout, no run removes
      the connection.
   */
  lemma {:induction false} NeverRemoved(b: Bounds, s: State, events: seq<Event>)
    requires Start(b, s) && Covered(b, s) && Possible(b, s, events)
    ensures After(s, events).present
  {
    RunKeepsInv(b, s, events);
  }

  /** After the last arrival, a connection survives a run exactly when it does
      not consume or none of the run's checks came later than the timeout: the
      first check that does removes a consumer, and none before; a producer is
      never removed.
   */
  lemma {:induction false} RemovedByFirstLateCheck(s: State, events: seq<Event>)
    requires forall i | 0 <= i < |events| :: !events[i].Arrive?
    ensures After(s, events).consumer == s.consumer
    ensures After(s, events).present <==>
      s.present && (s.consumer.isConsumer ==>
        forall i | 0 <= i < |events| && events[i].Check? ::
          events[i].at - s.consumer.lastReceive <= Timeout(s.consumer.rpi, s.consumer.mult))
  {
    if events != [] {
      RemovedByFirstLateCheck(s, events[..|events| - 1]);
    }
  }
}
