/** The reconnecting client (pkg/client/reconnect.go): a slot for one client,
    shared under a lock, and the retry loop that uses it.
 */
module Reconnect {
  import opened Bytes

  /** Clients are numbered in the order the factory made them; `closes` counts
      how often each was closed.
   */
  type ClientId = nat

  datatype Slot = Slot(client: Option<ClientId>, closed: bool, closes: seq<nat>)

  /** Every client ever made is either the stored one, not closed, or has been
      closed exactly once; a closed slot is empty.
   */
  predicate Conserved(s: Slot) {
    && (s.client.Some? ==> s.client.value < |s.closes|)
    && (s.closed ==> s.client.None?)
    && forall c | 0 <= c < |s.closes| :: s.closes[c] == if s.client == Some(c) then 0 else 1
  }

  // ---------- the critical sections ----------

  function CloseClient(s: Slot, c: ClientId): Slot
    requires c < |s.closes|
  {
    s.(client := None, closes := s.closes[c := s.closes[c] + 1])
  }

  /** The factory makes a client and it is stored. */
  function Connected(s: Slot): Slot {
    s.(client := Some(|s.closes|), closes := s.closes + [0])
  }

  /** getClient's locked part. */
  function Acquired(s: Slot, factoryWorks: bool): Slot {
    if s.closed || s.client.Some? || !factoryWorks then s else Connected(s)
  }

  /** Closing the slot, once and for all. */
  function Shut(s: Slot): Slot {
    if s.client.Some? && s.client.value < |s.closes| then CloseClient(s, s.client.value).(closed := true)
    else s.(closed := true, client := None)
  }

  /** After a failed operation on c: close it, if it is still the stored one. */
  function Invalidated(s: Slot, c: ClientId): Slot {
    if s.client == Some(c) && c < |s.closes| then CloseClient(s, c) else s
  }

  /** What the sections may do to a slot over time: clients are only added,
      and none once it is closed.
   */
  predicate Evolves(s: Slot, t: Slot) {
    && |s.closes| <= |t.closes|
    && (forall c | 0 <= c < |s.closes| :: s.closes[c] <= t.closes[c])
    && (s.closed ==> t.closed && |t.closes| == |s.closes|)
  }

  lemma SectionsConserve(s: Slot, c: ClientId, factoryWorks: bool)
    requires Conserved(s)
    ensures Conserved(Acquired(s, factoryWorks)) && Evolves(s, Acquired(s, factoryWorks))
    ensures Conserved(Shut(s)) && Evolves(s, Shut(s)) && Shut(s).closed
    ensures Conserved(Invalidated(s, c)) && Evolves(s, Invalidated(s, c))
  {
  }

  // ---------- any number of retrying threads ----------

  datatype Thread =
    | Resting
    | Looking            // before getClient's read-locked check
    | Connecting         // saw no client, before the locked part
    | Using(c: ClientId) // the operation is running
    | Failing(c: ClientId) // it failed, before the client is invalidated

  datatype State = State(slot: Slot, threads: seq<Thread>)

  datatype Action =
    | Spawn
    | Begin(t: nat)
    | Look(t: nat)
    | Connect(t: nat, factoryWorks: bool)
    | FinishOp(t: nat, ok: bool)
    | Invalidate(t: nat)
    | Close

  predicate Enabled(s: State, a: Action) {
    match a
    case Spawn => true
    case Begin(t) => t < |s.threads| && s.threads[t].Resting?
    case Look(t) => t < |s.threads| && s.threads[t].Looking?
    case Connect(t, _) => t < |s.threads| && s.threads[t].Connecting?
    case FinishOp(t, _) => t < |s.threads| && s.threads[t].Using?
    case Invalidate(t) => t < |s.threads| && s.threads[t].Failing?
    case Close => true
  }

  /** Where a thread goes that was told about the client in the slot. */
  function Found(slot: Slot): Thread {
    if slot.closed || slot.client.None? then Resting else Using(slot.client.value)
  }

  function Next(s: State, a: Action): State
    requires Enabled(s, a)
  {
    match a
    case Spawn => s.(threads := s.threads + [Resting])
    case Begin(t) => s.(threads := s.threads[t := Looking])
    case Look(t) =>
      s.(threads := s.threads[t := if !s.slot.closed && s.slot.client.None? then Connecting else Found(s.slot)])
    case Connect(t, works) =>
      s.(slot := Acquired(s.slot, works), threads := s.threads[t := Found(Acquired(s.slot, works))])
    case FinishOp(t, ok) => s.(threads := s.threads[t := if ok then Resting else Failing(s.threads[t].c)])
    case Invalidate(t) =>
      s.(slot := Invalidated(s.slot, s.threads[t].c), threads := s.threads[t := Resting])
    case Close => s.(slot := Shut(s.slot))
  }

  /** A thread only ever holds clients the factory made. */
  predicate HoldsMade(t: Thread, slot: Slot) {
    (t.Using? ==> t.c < |slot.closes|) && (t.Failing? ==> t.c < |slot.closes|)
  }

  predicate Inv(s: State) {
    Conserved(s.slot) && forall t | 0 <= t < |s.threads| :: HoldsMade(s.threads[t], s.slot)
  }

  lemma StepConserves(s: State, a: Action)
    requires Inv(s) && Enabled(s, a)
    ensures Inv(Next(s, a)) && Evolves(s.slot, Next(s, a).slot)
  {
    var t := Next(s, a);
    SectionsConserve(s.slot, if a.Invalidate? then s.threads[a.t].c else 0, a.Connect? && a.factoryWorks);
    forall k | 0 <= k < |t.threads| ensures HoldsMade(t.threads[k], t.slot) {
      if k < |s.threads| { assert HoldsMade(s.threads[k], s.slot); }
    }
  }

  function Run(s: State, actions: seq<Action>): State
    requires Feasible(s, actions)
    decreases |actions|, 1
  {
    if actions == [] then s else Next(Run(s, actions[..|actions| - 1]), actions[|actions| - 1])
  }

  predicate Feasible(s: State, actions: seq<Action>)
    decreases |actions|, 0
  {
    actions == [] || (
      && Feasible(s, actions[..|actions| - 1])
      && Enabled(Run(s, actions[..|actions| - 1]), actions[|actions| - 1]))
  }

  lemma {:induction false} RunConserves(s: State, actions: seq<Action>)
    requires Inv(s) && Feasible(s, actions)
    ensures Inv(Run(s, actions)) && Evolves(s.slot, Run(s, actions).slot)
  {
    if actions != [] {
      var before := actions[..|actions| - 1];
      RunConserves(s, before);
      StepConserves(Run(s, before), actions[|actions| - 1]);
    }
  }

  /** The constructor connects at once if it is asked to and the factory works. */
  function Initial(connected: bool): State {
    var empty := Slot(None, false, []);
    State(if connected then Connected(empty) else empty, [])
  }

  /** Over every interleaving: no client is lost open or closed twice, and once
      Close has run, no client is ever made again.
   */
  lemma ClientsAreConserved(connected: bool, before: seq<Action>, later: seq<Action>)
    requires Feasible(Initial(connected), before)
    requires Feasible(Run(Initial(connected), before), later)
    ensures var s := Run(Initial(connected), before);
            var t := Run(s, later);
      && Conserved(s.slot) && Conserved(t.slot)
      && (s.slot.closed ==> t.slot.closed && |t.slot.closes| == |s.slot.closes| &&
                            forall c | 0 <= c < |t.slot.closes| :: t.slot.closes[c] == 1)
  {
    RunConserves(Initial(connected), before);
    RunConserves(Run(Initial(connected), before), later);
  }

  // ---------- who closes which client ----------

  /** A client is closed by Close while it is stored, or by a thread whose
      operation on that very client failed; a newer client is left alone.
   */
  lemma ClosedOnlyBy(s: State, a: Action, d: ClientId)
    requires Inv(s) && Enabled(s, a) && d < |s.slot.closes|
    requires Next(s, a).slot.closes[d] != s.slot.closes[d]
    ensures s.slot.client == Some(d)
    ensures a.Close? || (a.Invalidate? && s.threads[a.t] == Failing(d))
  {
  }

  /** A thread comes to use the client that is stored, in an open slot, and
      after a failed operation it invalidates the client it used.
   */
  lemma ThreadsUseTheStoredClient(s: State, a: Action, t: nat)
    requires Enabled(s, a) && t < |s.threads|
    ensures var after := Next(s, a);
      && t < |after.threads|
      && (after.threads[t].Using? && after.threads[t] != s.threads[t] ==>
            after.slot.client == Some(after.threads[t].c) && !after.slot.closed)
      && (after.threads[t].Failing? && after.threads[t] != s.threads[t] ==>
            a == FinishOp(t, false) && s.threads[t] == Using(after.threads[t].c))
  {
  }

  /** A thread that asks gets a client exactly when the slot is open and holds
      one or a working factory can make one, and keeps asking only in between.
   */
  lemma AskingGets(s: State, t: nat, factoryWorks: bool)
    requires t < |s.threads|
    ensures s.threads[t].Looking? ==>
      var after := Next(s, Look(t)).threads[t];
      && (after.Using? <==> !s.slot.closed && s.slot.client.Some?)
      && (after.Connecting? <==> !s.slot.closed && s.slot.client.None?)
    ensures s.threads[t].Connecting? ==>
      (Next(s, Connect(t, factoryWorks)).threads[t].Using? <==>
        !s.slot.closed && (s.slot.client.Some? || factoryWorks))
  {
  }

  /** No thread is ever stuck: it can begin, look, connect, finish its operation
      either way, and invalidate; and Close and new threads can come any time.
   */
  lemma ThreadsCanGoOn(s: State, t: nat, works: bool, ok: bool)
    requires t < |s.threads|
    ensures Enabled(s, Spawn) && Enabled(s, Close)
    ensures match s.threads[t]
      case Resting => Enabled(s, Begin(t)) && Next(s, Begin(t)).threads[t] == Looking
      case Looking => Enabled(s, Look(t))
      case Connecting => Enabled(s, Connect(t, works))
      case Using(c) => Enabled(s, FinishOp(t, ok)) &&
                       Next(s, FinishOp(t, ok)).threads[t] == if ok then Resting else Failing(c)
      case Failing(_) => Enabled(s, Invalidate(t))
  {
  }

  /** The clients on which an operation has failed in a run. */
  ghost function FailedOn(s: State, actions: seq<Action>): set<ClientId>
    requires Feasible(s, actions)
  {
    if actions == [] then {}
    else
      var before, last := Run(s, actions[..|actions| - 1]), actions[|actions| - 1];
      FailedOn(s, actions[..|actions| - 1]) +
      if last.FinishOp? && !last.ok then {before.threads[last.t].c} else {}
  }

  /** A client whose operation failed is closed before its thread goes on. */
  lemma FailureDiscards(s: State, a: Action, t: nat)
    requires Inv(s) && Enabled(s, a) && t < |s.threads|
    ensures s.threads[t].Using? && a == FinishOp(t, false) ==> Next(s, a).threads[t] == Failing(s.threads[t].c)
    ensures s.threads[t].Failing? ==>
      Next(s, a).threads[t] == s.threads[t] || Next(s, a).slot.closes[s.threads[t].c] == 1
  {
    assert HoldsMade(s.threads[t], s.slot);
  }

  predicate Pending(s: State, d: ClientId) {
    Failing(d) in s.threads
  }

  predicate BlameInv(s: State, failed: set<ClientId>) {
    && (forall t | 0 <= t < |s.threads| && s.threads[t].Failing? :: s.threads[t].c in failed)
    && (!s.slot.closed ==> forall d | 0 <= d < |s.slot.closes| && s.slot.closes[d] > 0 :: d in failed)
    && (forall d | d in failed :: d < |s.slot.closes| && (s.slot.closes[d] > 0 || Pending(s, d)))
  }

  lemma StepKeepsBlame(s: State, a: Action, failed: set<ClientId>)
    requires Inv(s) && Enabled(s, a) && BlameInv(s, failed)
    ensures BlameInv(Next(s, a), failed + if a.FinishOp? && !a.ok then {s.threads[a.t].c} else {})
  {
    var after := Next(s, a);
    var blamed := failed + if a.FinishOp? && !a.ok then {s.threads[a.t].c} else {};
    StepConserves(s, a);
    forall t | 0 <= t < |after.threads| && after.threads[t].Failing? ensures after.threads[t].c in blamed {
      if t < |s.threads| { ThreadsUseTheStoredClient(s, a, t); }
    }
    if !after.slot.closed {
      forall d | 0 <= d < |after.slot.closes| && after.slot.closes[d] > 0 ensures d in blamed {
        if d < |s.slot.closes| && after.slot.closes[d] != s.slot.closes[d] { ClosedOnlyBy(s, a, d); }
      }
    }
    forall d | d in blamed ensures d < |after.slot.closes| && (after.slot.closes[d] > 0 || Pending(after, d)) {
      if d in failed {
        StaysBlamed(s, a, d);
      } else {
        FailureDiscards(s, a, a.t);
        assert HoldsMade(s.threads[a.t], s.slot) && after.threads[a.t] == Failing(d);
      }
    }
  }

  lemma StaysBlamed(s: State, a: Action, d: ClientId)
    requires Inv(s) && Enabled(s, a) && d < |s.slot.closes| && (s.slot.closes[d] > 0 || Pending(s, d))
    ensures var after := Next(s, a);
            d < |after.slot.closes| && (after.slot.closes[d] > 0 || Pending(after, d))
  {
    StepConserves(s, a);
    if s.slot.closes[d] == 0 {
      var t :| 0 <= t < |s.threads| && s.threads[t] == Failing(d);
      FailureDiscards(s, a, t);
      var after := Next(s, a);
      assert after.threads[t] == Failing(d) ==> Pending(after, d);
    }
  }

  lemma {:induction false} RunKeepsBlame(s: State, actions: seq<Action>)
    requires Inv(s) && BlameInv(s, {}) && Feasible(s, actions)
    ensures BlameInv(Run(s, actions), FailedOn(s, actions))
  {
    if actions != [] {
      var before := actions[..|actions| - 1];
      RunKeepsBlame(s, before);
      RunConserves(s, before);
      StepKeepsBlame(Run(s, before), actions[|actions| - 1], FailedOn(s, before));
    }
  }

  /** Over all interleavings, until Close: a client has been closed exactly when
      an operation on it has failed, but for the thread that is about to.
   */
  lemma {:induction false} OnlyFailedAreClosed(connected: bool, actions: seq<Action>, d: ClientId)
    requires Feasible(Initial(connected), actions)
    ensures var s := Run(Initial(connected), actions);
            var failed := FailedOn(Initial(connected), actions);
      !s.slot.closed && d < |s.slot.closes| ==>
        && (s.slot.closes[d] > 0 ==> d in failed)
        && (d in failed ==> s.slot.closes[d] > 0 || Failing(d) in s.threads)
  {
    RunKeepsBlame(Initial(connected), actions);
  }

  // ---------- the loop counter ----------

  const MAX_INT32 := 2147483647

  /** The counter, a signed 64-bit integer, after rounds that all failed: in
      round k the operation ran if ran[k], and otherwise no client could be had.
      Only a round in which the operation ran gets to the counter's reset.
   */
  function Counter(ran: seq<bool>): int {
    if ran == [] then 0
    else
      var n := |ran| - 1;
      var i := Counter(ran[..n]);
      Wrap64((if ran[n] && i == MAX_INT32 then 0 else i) + 1)
  }

  predicate LoopContinues(maxRetries: int, counter: int) {
    maxRetries < 0 || counter <= maxRetries
  }

  /** Every round began with the counter within the limit. */
  predicate KeptGoing(maxRetries: int, ran: seq<bool>) {
    forall n: nat | n < |ran| :: LoopContinues(maxRetries, Counter(ran[..n]))
  }

  lemma KeepsGoing(maxRetries: int, ran: seq<bool>, r: bool)
    requires KeptGoing(maxRetries, ran) && LoopContinues(maxRetries, Counter(ran))
    ensures KeptGoing(maxRetries, ran + [r])
  {
    forall n: nat | n < |ran + [r]| ensures LoopContinues(maxRetries, Counter((ran + [r])[..n])) {
      assert (ran + [r])[..n] == ran[..n];
      assert ran[..|ran|] == ran;
    }
  }

  /** Whether a failed round is followed by a sleep. */
  predicate SleepsAfter(maxRetries: int, counter: int) {
    maxRetries < 0 || counter < maxRetries
  }

  function Sleeps(maxRetries: int, ran: seq<bool>): nat {
    if ran == [] then 0
    else
      var n := |ran| - 1;
      Sleeps(maxRetries, ran[..n]) + if SleepsAfter(maxRetries, Counter(ran[..n])) then 1 else 0
  }

  lemma {:induction false} CounterCounts(ran: seq<bool>)
    requires |ran| <= MAX_INT32 || ((forall k | 0 <= k < |ran| :: !ran[k]) && |ran| < TWO_63)
    ensures Counter(ran) == |ran|
  {
    if ran != [] { CounterCounts(ran[..|ran| - 1]); }
  }

  /** Below the reset, the counter counts the rounds and all but the one at the
      limit are followed by a sleep.
   */
  lemma {:induction false} BoundedRounds(maxRetries: int, ran: seq<bool>)
    requires 0 <= maxRetries < MAX_INT32 && |ran| <= maxRetries + 1
    ensures Counter(ran) == |ran|
    ensures Sleeps(maxRetries, ran) == if |ran| <= maxRetries then |ran| else maxRetries
  {
    CounterCounts(ran);
    if ran != [] {
      CounterCounts(ran[..|ran| - 1]);
      BoundedRounds(maxRetries, ran[..|ran| - 1]);
    }
  }

  /** Rounds that fail forever: round k as ran(k) says. */
  type Failures = nat -> bool

  function FirstRounds(ran: Failures, n: nat): (rounds: seq<bool>)
    ensures |rounds| == n && forall k | 0 <= k < n :: rounds[k] == ran(k)
  {
    seq(n, k requires 0 <= k => ran(k))
  }

  ghost predicate LoopEnds(maxRetries: int, ran: Failures) {
    exists n :: !LoopContinues(maxRetries, Counter(FirstRounds(ran, n)))
  }

  /** Without a limit, every failed round is followed by a sleep. */
  lemma {:induction false} UnlimitedSleeps(maxRetries: int, ran: seq<bool>)
    requires maxRetries < 0
    ensures Sleeps(maxRetries, ran) == |ran|
  {
    if ran != [] { UnlimitedSleeps(maxRetries, ran[..|ran| - 1]); }
  }

  lemma {:induction false} CounterStaysInRange(ran: seq<bool>)
    requires forall k | 0 <= k < |ran| :: ran[k]
    ensures 0 <= Counter(ran) <= MAX_INT32
  {
    if ran != [] { CounterStaysInRange(ran[..|ran| - 1]); }
  }

  /** However the rounds fail, the loop ends exactly when the limit is not
      negative and below the value at which the counter is reset.
   */
  lemma LoopEndsIff(maxRetries: int)
    ensures (forall ran: Failures :: LoopEnds(maxRetries, ran)) <==> 0 <= maxRetries < 0x7FFF_FFFF
  {
    if 0 <= maxRetries < MAX_INT32 {
      forall ran: Failures ensures LoopEnds(maxRetries, ran) {
        CounterCounts(FirstRounds(ran, maxRetries + 1));
        assert !LoopContinues(maxRetries, Counter(FirstRounds(ran, maxRetries + 1)));
      }
    } else {
      var always: Failures := _ => true;
      forall n: nat ensures LoopContinues(maxRetries, Counter(FirstRounds(always, n))) {
        CounterStaysInRange(FirstRounds(always, n));
      }
      assert !LoopEnds(maxRetries, always);
    }
  }

  lemma CounterIsInt64(ran: seq<bool>)
    ensures -TWO_63 <= Counter(ran) < TWO_63
  {
  }

  /** If no client can ever be had, the reset is skipped: the loop ends exactly
      for the limits from 0 on that the counter can exceed.
   */
  lemma UnreachableLoopEndsIff(maxRetries: int, never: Failures)
    requires forall k :: !never(k)
    ensures LoopEnds(maxRetries, never) <==> 0 <= maxRetries < TWO_63 - 1
  {
    if 0 <= maxRetries < TWO_63 - 1 {
      CounterCounts(FirstRounds(never, maxRetries + 1));
      assert !LoopContinues(maxRetries, Counter(FirstRounds(never, maxRetries + 1)));
    } else {
      forall n: nat ensures LoopContinues(maxRetries, Counter(FirstRounds(never, n))) {
        CounterIsInt64(FirstRounds(never, n));
      }
    }
  }

  // ---------- the object and its retry loop ----------

  datatype Result<+T> = Ok(value: T) | Err(error: string)

  /** One round of the retry loop: no client could be had, or the operation
      ran on client c with the given outcome.
   */
  datatype Attempt = NoClient(error: string) | Ran(c: ClientId, result: Result<seq<Byte>>)

  predicate Failed(a: Attempt) {
    a.Ran? ==> a.result.Err?
  }

  function ErrorOf(a: Attempt): string
    requires Failed(a)
  {
    if a.Ran? then a.result.error else a.error
  }

  function RanIn(attempts: seq<Attempt>): (ran: seq<bool>)
    ensures |ran| == |attempts|
  {
    seq(|attempts|, k requires 0 <= k < |attempts| => attempts[k].Ran?)
  }

  predicate AllFailed(attempts: seq<Attempt>) {
    forall a | a in attempts :: Failed(a)
  }

  const CLOSED_ERROR := "client is closed"

  const RETRY_ERROR := "max retries exceeded: "

  /** Every client an operation ran on was made by the factory, and those of
      failed operations have been closed.
   */
  predicate Discarded(attempts: seq<Attempt>, closes: seq<nat>) {
    forall a | a in attempts && a.Ran? :: a.c < |closes| && (Failed(a) ==> closes[a.c] == 1)
  }

  lemma StaysDiscarded(attempts: seq<Attempt>, s: Slot, t: Slot)
    requires Discarded(attempts, s.closes) && Evolves(s, t) && Conserved(t)
    ensures Discarded(attempts, t.closes)
  {
  }

  lemma EvolvesStill(s: Slot)
    ensures Evolves(s, s)
  {
  }

  lemma EvolvesTwice(s: Slot, t: Slot, u: Slot)
    requires Evolves(s, t) && Evolves(t, u)
    ensures Evolves(s, u) && (s.closed ==> t.closed)
  {
  }

  /** What one call did to the outside world: its rounds and its sleeps. */
  class Trace {
    ghost var attempts: seq<Attempt>
    var sleeps: nat

    constructor ()
      ensures attempts == [] && sleeps == 0
    {
      attempts, sleeps := [], 0;
    }

    ghost method NoteNoClient(error: string)
      modifies this`attempts
      ensures attempts == old(attempts) + [NoClient(error)]
    {
      attempts := attempts + [NoClient(error)];
    }

    method RunOp(c: ClientId) returns (r: Result<seq<Byte>>)
      modifies this`attempts
      ensures attempts == old(attempts) + [Ran(c, r)]
    {
      r :| true;
      attempts := attempts + [Ran(c, r)];
    }

    method Sleep()
      modifies this`sleeps
      ensures sleeps == old(sleeps) + 1
    {
      sleeps := sleeps + 1;
    }
  }

  class ReconnectingClient {
    var client: Option<ClientId>
    var closed: bool
    var closes: seq<nat>
    const maxRetries: int

    ghost function View(): Slot
      reads this
    {
      Slot(client, closed, closes)
    }

    ghost predicate Valid()
      reads this
    {
      Conserved(View())
    }

    constructor (maxRetries: int)
      ensures Valid() && View() == Slot(None, false, []) && this.maxRetries == maxRetries
    {
      this.maxRetries := maxRetries;
      client, closed, closes := None, false, [];
    }

    method Connect(factoryWorks: bool) returns (ok: bool)
      requires Valid() && !closed && client.None?
      modifies this
      ensures Valid() && ok == factoryWorks && View() == if ok then Connected(old(View())) else old(View())
    {
      if !factoryWorks { return false; }
      client := Some(|closes|);
      closes := closes + [0];
      ok := true;
    }

    /** The locked part of getClient. */
    method Acquire(factoryWorks: bool) returns (r: Result<ClientId>)
      requires Valid()
      modifies this
      ensures Valid() && View() == Acquired(old(View()), factoryWorks)
      ensures r.Ok? ==> client == Some(r.value)
      ensures r.Ok? <==> !old(closed) && (old(client).Some? || factoryWorks)
    {
      if closed { return Err(CLOSED_ERROR); }
      if client.Some? { return Ok(client.value); }
      var ok := Connect(factoryWorks);
      if !ok { return Err("connect failed"); }
      r := Ok(client.value);
    }

    /** Close, with the close of the stored client inside the lock. */
    method Close()
      requires Valid()
      modifies this
      ensures Valid() && View() == Shut(old(View()))
    {
      closed := true;
      if client.Some? {
        closes := closes[client.value := closes[client.value] + 1];
        client := None;
      }
    }

    method Invalidate(c: ClientId)
      requires Valid()
      modifies this
      ensures Valid() && View() == Invalidated(old(View()), c)
      ensures old(client) != Some(c) ==> View() == old(View())
      ensures old(client) == Some(c) ==> client.None? && closes == old(closes)[c := 1] && closed == old(closed)
    {
      if client == Some(c) {
        closes := closes[c := closes[c] + 1];
        client := None;
      }
    }

    /** Other threads' turns between two critical sections: any number of them,
        in any order.
     */
    method Interfere()
      requires Valid()
      modifies this
      ensures Valid() && Evolves(old(View()), View())
    {
      var turns: nat :| true;
      while turns > 0
        invariant Valid() && Evolves(old(View()), View())
      {
        turns := turns - 1;
        ghost var before := View();
        var c: ClientId, works: bool :| true;
        SectionsConserve(before, c, works);
        if * {
          var r := Acquire(works);
        } else if * {
          Invalidate(c);
        } else {
          Close();
        }
      }
    }

    /** getClient, with other threads' turns between its two locks: a client it
        returns is the stored one.
     */
    method GetClient() returns (r: Result<ClientId>)
      requires Valid()
      modifies this
      ensures Valid() && Evolves(old(View()), View())
      ensures r.Ok? ==> client == Some(r.value) && !closed
      ensures old(closed) ==> r == Err(CLOSED_ERROR)
    {
      if closed { return Err(CLOSED_ERROR); }
      if client.Some? { return Ok(client.value); }
      Interfere();
      var works: bool :| true;
      SectionsConserve(View(), 0, works);
      r := Acquire(works);
    }

    /** One failed operation's clean-up, among other threads' turns: whoever
        got there first, the client has been closed exactly once.
     */
    method Discard(c: ClientId)
      requires Valid() && c < |closes|
      modifies this
      ensures Valid() && Evolves(old(View()), View())
      ensures closes[c] == 1
    {
      Interfere();
      SectionsConserve(View(), c, true);
      Invalidate(c);
      Interfere();
    }

    /** One round of the loop, up to its sleep. */
    method TryOnce(trace: Trace) returns (a: Attempt)
      requires Valid()
      modifies this, trace`attempts
      ensures Valid() && Evolves(old(View()), View())
      ensures trace.attempts == old(trace.attempts) + [a] && Discarded([a], closes)
      ensures old(closed) ==> a == NoClient(CLOSED_ERROR)
    {
      var client := GetClient();
      Interfere();
      if client.Err? {
        trace.NoteNoClient(client.error);
        return NoClient(client.error);
      }
      var res := trace.RunOp(client.value);
      if res.Err? {
        Discard(client.value);
      }
      a := Ran(client.value, res);
    }

    /** The retry loop, followed for at most `patience` rounds; None says that it
        is still running then. Every round but the last failed, and its client
        is gone; a success in the last round is the result; the loop gives up
        when the counter has passed the limit, with the last round's error; and
        the sleeps are those the failed rounds call for. For a limit below the
        reset that means at most maxRetries + 1 rounds, exactly as many on total
        failure, and a sleep between any two.
     */
    method ExecuteWithRetry(trace: Trace, patience: nat) returns (r: Option<Result<seq<Byte>>>)
      requires Valid() && trace.attempts == []
      modifies this, trace
      ensures Valid() && Evolves(old(View()), View())
      ensures |trace.attempts| <= patience && Discarded(trace.attempts, closes)
      ensures KeptGoing(maxRetries, RanIn(trace.attempts))
      ensures match r
        case None => AllFailed(trace.attempts) && |trace.attempts| == patience
        case Some(Err(error)) =>
          && AllFailed(trace.attempts) && trace.attempts != []
          && !LoopContinues(maxRetries, Counter(RanIn(trace.attempts)))
          && var last := trace.attempts[|trace.attempts| - 1];
          && Failed(last)
          && error == "max retries exceeded: " + if last.Ran? then last.result.error else last.error
        case Some(Ok(_)) =>
          && trace.attempts != [] && AllFailed(trace.attempts[..|trace.attempts| - 1])
          && trace.attempts[|trace.attempts| - 1].Ran? && trace.attempts[|trace.attempts| - 1].result == r.value
      ensures var failed := if r.Some? && r.value.Ok? then |trace.attempts| - 1 else |trace.attempts|;
              trace.sleeps == old(trace.sleeps) + Sleeps(maxRetries, RanIn(trace.attempts)[..failed])
      ensures 0 <= maxRetries < MAX_INT32 ==>
        && |trace.attempts| <= maxRetries + 1 && (patience > maxRetries ==> r.Some?)
        && (r.Some? ==> trace.sleeps == old(trace.sleeps) + |trace.attempts| - 1)
        && (r.Some? && r.value.Err? ==> |trace.attempts| == maxRetries + 1)
      ensures old(closed) ==> forall a | a in trace.attempts :: a == NoClient(CLOSED_ERROR)
    {
      hide Evolves, Conserved, Books, AllFailed, Discarded, Counter, Sleeps, KeptGoing, RanIn, Wrap64;
      ghost var was := View();
      EvolvesStill(was);
      NothingYet(closes, maxRetries);
      var lastErr := "";
      var i := 0;
      var rounds := 0;
      while maxRetries < 0 || i <= maxRetries
        invariant rounds == |trace.attempts| <= patience
        invariant Valid() && Evolves(was, View())
        invariant Books(maxRetries, trace.attempts, closes, i, trace.sleeps - old(trace.sleeps))
        invariant rounds == 0 ==> i == 0
        invariant rounds > 0 ==> Failed(trace.attempts[rounds - 1]) && lastErr == ErrorOf(trace.attempts[rounds - 1])
        invariant was.closed ==> forall a | a in trace.attempts :: a == NoClient(CLOSED_ERROR)
        decreases patience - rounds
      {
        if rounds == patience {
          BooksGiveUp(maxRetries, trace.attempts, closes, i, trace.sleeps - old(trace.sleeps));
          return None;
        }
        ghost var before, start, slept := trace.attempts, View(), trace.sleeps - old(trace.sleeps);
        var a := TryOnce(trace);
        EvolvesTwice(was, start, View());
        if a.Ran? && a.result.Ok? {
          BooksSucceed(maxRetries, before, a, start, View(), i, slept);
          return Some(a.result);
        }
        OneMoreRound(maxRetries, before, a, start, View(), i, slept);
        lastErr := ErrorOf(a);
        if maxRetries < 0 || i < maxRetries {
          trace.Sleep();
        }
        if a.Ran? && i == MAX_INT32 {
          i := 0;
        }
        i := Wrap64(i + 1);
        rounds := rounds + 1;
      }
      BooksGiveUp(maxRetries, trace.attempts, closes, i, trace.sleeps - old(trace.sleeps));
      r := Some(Err(RETRY_ERROR + lastErr));
    }
  }

  /** What the loop has done after rounds that all failed: `i` is its counter
      and `slept` the number of its sleeps.
   */
  predicate Books(maxRetries: int, attempts: seq<Attempt>, closes: seq<nat>, i: int, slept: int) {
    && AllFailed(attempts) && Discarded(attempts, closes)
    && KeptGoing(maxRetries, RanIn(attempts))
    && i == Counter(RanIn(attempts))
    && slept == Sleeps(maxRetries, RanIn(attempts))
  }

  lemma NothingYet(closes: seq<nat>, maxRetries: int)
    ensures Books(maxRetries, [], closes, 0, 0)
  {
  }

  lemma RanSnoc(before: seq<Attempt>, a: Attempt)
    ensures RanIn(before + [a]) == RanIn(before) + [a.Ran?]
    ensures RanIn(before + [a])[..|before|] == RanIn(before) && (before + [a])[..|before|] == before
  {
  }

  /** What one more failed round adds to the books. */
  lemma OneMoreRound(maxRetries: int, before: seq<Attempt>, a: Attempt, s: Slot, t: Slot, i: int, slept: int)
    requires Books(maxRetries, before, s.closes, i, slept) && LoopContinues(maxRetries, i)
    requires Failed(a) && Discarded([a], t.closes) && Evolves(s, t) && Conserved(t)
    ensures Books(maxRetries, before + [a], t.closes,
                  Wrap64((if a.Ran? && i == MAX_INT32 then 0 else i) + 1),
                  slept + if SleepsAfter(maxRetries, i) then 1 else 0)
  {
    StaysDiscarded(before, s, t);
    RanSnoc(before, a);
    KeepsGoing(maxRetries, RanIn(before), a.Ran?);
  }

  /** A loop that stops before or after a round: with no limit reached, or with
      the counter beyond it.
   */
  lemma BooksGiveUp(maxRetries: int, attempts: seq<Attempt>, closes: seq<nat>, i: int, slept: int)
    requires Books(maxRetries, attempts, closes, i, slept)
    ensures AllFailed(attempts) && Discarded(attempts, closes) && KeptGoing(maxRetries, RanIn(attempts))
    ensures i == Counter(RanIn(attempts)) && slept == Sleeps(maxRetries, RanIn(attempts)[..|attempts|])
    ensures 0 <= maxRetries < MAX_INT32 ==>
      && i == |attempts| <= maxRetries + 1
      && (|attempts| == maxRetries + 1 ==> slept == |attempts| - 1)
  {
    assert RanIn(attempts)[..|attempts|] == RanIn(attempts);
    if 0 <= maxRetries < MAX_INT32 { BoundedRun(maxRetries, RanIn(attempts)); }
  }

  lemma BooksSucceed(maxRetries: int, before: seq<Attempt>, a: Attempt, s: Slot, t: Slot, i: int, slept: int)
    requires Books(maxRetries, before, s.closes, i, slept) && LoopContinues(maxRetries, i)
    requires Discarded([a], t.closes) && Evolves(s, t) && Conserved(t)
    ensures (before + [a])[..|before|] == before && AllFailed(before)
    ensures Discarded(before + [a], t.closes) && KeptGoing(maxRetries, RanIn(before + [a]))
    ensures slept == Sleeps(maxRetries, RanIn(before + [a])[..|before|])
    ensures 0 <= maxRetries < MAX_INT32 ==> |before| <= maxRetries && slept == |before|
  {
    StaysDiscarded(before, s, t);
    RanSnoc(before, a);
    KeepsGoing(maxRetries, RanIn(before), a.Ran?);
    if 0 <= maxRetries < MAX_INT32 { BoundedRun(maxRetries, RanIn(before)); }
  }

  lemma BoundedRun(maxRetries: int, ran: seq<bool>)
    requires 0 <= maxRetries < MAX_INT32 && KeptGoing(maxRetries, ran)
    ensures |ran| <= maxRetries + 1 && Counter(ran) == |ran|
    ensures Sleeps(maxRetries, ran) == if |ran| <= maxRetries then |ran| else maxRetries
  {
    if |ran| > maxRetries + 1 {
      CounterCounts(ran[..maxRetries + 1]);
      assert !LoopContinues(maxRetries, Counter(ran[..maxRetries + 1]));
    }
    BoundedRounds(maxRetries, ran);
  }
}
