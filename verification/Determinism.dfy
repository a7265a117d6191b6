/** When the threaded runtime is deterministic: exactly when its input fits its queues. */
module Determinism {
  import opened Fifo
  import opened Messages
  import opened Oms
  import opened Pipeline
  import opened PipelineTheorems
  import opened ReplayRun
  import opened Risk
  import opened Stage

  ghost predicate RoomIs(s: State, room: nat) {
    s.toStrategy.room == s.toOms.room == s.toGateway.room == s.fromGateway.room == room
  }

  lemma StepKeepsSetup(s: State, room: nat, thread: Thread)
    requires RoomIs(s, room)
    ensures RoomIs(Next(s, thread), room)
    ensures var t := Next(s, thread); t.events == s.events && t.limits == s.limits && t.available == s.available
  {
    hide OnSignal, OnResponse, StrategyStage, GatewayStage;
  }

  lemma {:induction false} SetupStays(s: State, room: nat, schedule: seq<Thread>)
    requires RoomIs(s, room)
    ensures RoomIs(Execute(s, schedule), room)
    ensures var t := Execute(s, schedule); t.events == s.events && t.limits == s.limits && t.available == s.available
  {
    if schedule != [] {
      hide Next;
      SetupStays(s, room, schedule[..|schedule| - 1]);
      StepKeepsSetup(Execute(s, schedule[..|schedule| - 1]), room, schedule[|schedule| - 1]);
    }
  }

  lemma {:induction false} RunIsShort<S, A, B>(f: Machine<S, A, B>, s: S, inputs: seq<A>)
    ensures |Run(f, s, inputs).1| <= |inputs|
  {
    if inputs != [] {
      RunIsShort(f, s, inputs[..|inputs| - 1]);
    }
  }

  /** A queue that was offered no more than it has room for refused nothing. */
  lemma FewOffersAllTaken<T>(q: Fifo<T>)
    requires Conserves(q) && |q.offered| <= q.room
    ensures q.refused == []
  {
    InterleavesCounts(q.offered, q.pushed, q.refused);
  }

  lemma PopsAreFewer<T>(q: Fifo<T>)
    requires Conserves(q)
    ensures |q.popped| <= |q.pushed| <= |q.offered|
  {
    InterleavesCounts(q.offered, q.pushed, q.refused);
    assert |q.popped + q.items| == |q.pushed|;
  }

  /** No queue is ever offered more messages than there are events delivered. */
  lemma OffersAreBounded(s: State)
    requires Invariant(s)
    ensures |s.toStrategy.offered| == s.next <= |s.events|
    ensures |s.toOms.offered| <= |s.toStrategy.popped|
    ensures |s.toGateway.offered| <= |s.toOms.popped|
    ensures |s.fromGateway.offered| <= |s.toGateway.popped|
  {
    var start := Start(s.limits, s.available);
    RunIsShort(StrategyStage, start.strategy, s.toStrategy.popped);
    RunIsShort(OmsStage, start.oms, s.toOms.popped);
    RunIsShort(GatewayStage, start.gateway, s.toGateway.popped);
    hide Run, JournalAgrees, Conserves, OnResponses;
  }

  lemma FittingInputNeverDrops(s: State, room: nat)
    requires Invariant(s) && RoomIs(s, room) && |s.events| <= room
    ensures NothingDropped(s)
  {
    OffersAreBounded(s);
    PopsAreFewer(s.toStrategy);
    PopsAreFewer(s.toOms);
    PopsAreFewer(s.toGateway);
    hide Run, JournalAgrees, StagesAgree;
    FewOffersAllTaken(s.toStrategy);
    FewOffersAllTaken(s.toOms);
    FewOffersAllTaken(s.toGateway);
    FewOffersAllTaken(s.fromGateway);
  }

  /** The market data thread alone, k times. */
  function Burst(k: nat): seq<Thread> {
    if k == 0 then [] else Burst(k - 1) + [MarketDataThread]
  }

  /** From s to t, k events were delivered into the first queue, and those it had no room for were lost. */
  ghost predicate Filled(s: State, t: State, k: nat) {
    && t.next == s.next + k && t.events == s.events
    && |t.toStrategy.items| == |t.toStrategy.pushed| == (if k < s.toStrategy.room then k else s.toStrategy.room)
    && |t.toStrategy.refused| == |s.toStrategy.refused| + k - |t.toStrategy.items|
    && t.toStrategy.room == s.toStrategy.room
  }

  lemma BurstStep(s: State, t: State, k: nat)
    requires Filled(s, t, k) && s.next + k < |s.events|
    ensures Filled(s, Next(t, MarketDataThread), k + 1)
  {
    hide StrategyStep, OmsStep, GatewayStep;
  }

  /** A burst fills the first queue and loses the rest. */
  lemma {:induction false} BurstFillsQueue(s: State, k: nat)
    requires s.next + k <= |s.events| && s.toStrategy.pushed == [] && s.toStrategy.items == []
    ensures Filled(s, Execute(s, Burst(k)), k)
  {
    if k > 0 {
      hide Next, Filled;
      assert Burst(k)[..|Burst(k)| - 1] == Burst(k - 1);
      BurstFillsQueue(s, k - 1);
      BurstStep(s, Execute(s, Burst(k - 1)), k - 1);
    }
  }

  /** No schedule drops anything if and only if the queues hold all events at once. */
  lemma DropFreeExactly(events: seq<Message>, limits: RiskLimits, available: bool, room: nat)
    ensures (forall schedule :: NothingDropped(Execute(Init(events, limits, available, room), schedule)))
      <==> |events| <= room
  {
    var init := Init(events, limits, available, room);
    if |events| <= room {
      forall schedule ensures NothingDropped(Execute(init, schedule)) {
        InitInvariant(events, limits, available, room);
        ReachableInvariant(init, schedule);
        SetupStays(init, room, schedule);
        FittingInputNeverDrops(Execute(init, schedule), room);
      }
    } else {
      BurstFillsQueue(init, |events|);
      assert !NothingDropped(Execute(init, Burst(|events|)));
    }
  }

  /** So on an input that fits, every schedule agrees with the sequential loop, with no condition on the run. */
  lemma FittingInputIsDeterministic(
      events: seq<Message>, limits: RiskLimits, available: bool, room: nat, schedule: seq<Thread>)
    requires |events| <= room
    ensures var s, replay := Execute(Init(events, limits, available, room), schedule),
                             Replay(Start(limits, available), events);
      && s.toGateway.popped <= replay.orders && s.answered <= replay.responses
      && (Drained(s) ==>
            && s.toGateway.popped == replay.orders && s.answered == replay.responses
            && s.strategy == replay.strategy && s.oms == replay.oms && s.gateway == replay.gateway)
  {
    var init := Init(events, limits, available, room);
    var s := Execute(init, schedule);
    InitInvariant(events, limits, available, room);
    ReachableInvariant(init, schedule);
    SetupStays(init, room, schedule);
    FittingInputNeverDrops(s, room);
    assert Reachable(s);
    hide Execute, Replay, Drained, NothingDropped, Reachable;
    ScheduleIndependence(s);
    if Drained(s) { DrainedEqualsReplay(s); }
  }

  /** What is still to be worked off: every message weighs as many steps as it may yet need. */
  function Work(s: State): nat {
    9 * |s.toStrategy.items| + 8 * |InHand(s.signalInHand)| + 7 * |s.toOms.items|
    + (if s.omsPc.Journaling? then 6 else if s.omsPc.Sending? then 5 else 0)
    + 4 * |s.toGateway.items| + 3 * |InHand(s.responseInHand)| + 2 * |s.fromGateway.items|
    + (if s.omsPc.Recording? then 1 else 0)
  }

  function InFlight(s: State): nat {
    |s.toStrategy.items| + |InHand(s.signalInHand)| + |s.toOms.items| + |OrderInHand(s.omsPc)|
    + |s.toGateway.items| + |InHand(s.responseInHand)| + |s.fromGateway.items| + |ResponseAtOms(s.omsPc)|
  }

  /** Whether the order manager is about to look at an empty queue. */
  function Idling(s: State): nat {
    if s.omsPc.ReadingSignal? && s.toOms.items == [] then 1
    else if s.omsPc.ReadingResponse? && s.fromGateway.items == [] then 1
    else 0
  }

  predicate Idle(s: State) {
    Work(s) == 0
  }

  /** A thread that has something to do. */
  function Busy(s: State): Thread {
    if s.signalInHand.Some? || s.toStrategy.items != [] then StrategyThread
    else if s.responseInHand.Some? || s.toGateway.items != [] then GatewayThread
    else OmsThread
  }

  /** From s to t the end of the work came nearer, no event was delivered, and if one message was in flight
      and every queue had room for it, nothing was dropped. */
  ghost predicate Progress(s: State, t: State) {
    && (Work(t) < Work(s) || (Work(t) == Work(s) && Idling(t) < Idling(s)))
    && t.next == s.next && t.events == s.events
    && t.toStrategy.pushed == s.toStrategy.pushed && t.toStrategy.refused == s.toStrategy.refused
    && (Careful(s) ==> Careful(t))
  }

  /** At most one message in flight, room for it everywhere, and nothing dropped so far. */
  ghost predicate Careful(s: State) {
    InFlight(s) <= 1 && RoomIs(s, s.toStrategy.room) && s.toStrategy.room >= 1 && NothingDropped(s)
  }

  lemma StrategyProgress(s: State)
    requires s.signalInHand.Some? || s.toStrategy.items != []
    ensures Progress(s, StrategyStep(s))
  {
    hide StrategyStage;
  }

  lemma GatewayProgress(s: State)
    requires s.responseInHand.Some? || s.toGateway.items != []
    ensures Progress(s, GatewayStep(s))
  {
    hide GatewayStage;
  }

  lemma OmsWorksOff(s: State)
    requires !Idle(s) && Busy(s) == OmsThread
    ensures var t := OmsStep(s);
      && (Work(t) < Work(s) || (Work(t) == Work(s) && Idling(t) < Idling(s)))
      && t.next == s.next && t.events == s.events
      && t.toStrategy.pushed == s.toStrategy.pushed && t.toStrategy.refused == s.toStrategy.refused
  {
    hide OnSignal, OnResponse;
    match s.omsPc {
      case ReadingSignal =>
      case Journaling(_) =>
      case Sending(_) =>
      case ReadingResponse =>
      case Recording(_) =>
    }
  }

  lemma OmsStaysCareful(s: State)
    requires Careful(s)
    ensures Careful(OmsStep(s))
  {
    hide OnSignal, OnResponse;
  }

  lemma OmsProgress(s: State)
    requires !Idle(s) && Busy(s) == OmsThread
    ensures Progress(s, OmsStep(s))
  {
    hide OmsStep, Careful, Idle, Busy, Work, Idling;
    OmsWorksOff(s);
    if Careful(s) { OmsStaysCareful(s); }
  }

  lemma BusyMakesProgress(s: State)
    requires !Idle(s)
    ensures Progress(s, Next(s, Busy(s)))
  {
    hide Progress, StrategyStep, GatewayStep, OmsStep;
    match Busy(s) {
      case StrategyThread => StrategyProgress(s);
      case GatewayThread => GatewayProgress(s);
      case OmsThread => OmsProgress(s);
    }
  }

  lemma {:induction false} ExecuteAppend(s: State, a: seq<Thread>, b: seq<Thread>)
    ensures Execute(s, a + b) == Execute(Execute(s, a), b)
  {
    if b == [] {
      assert a + b == a;
    } else {
      assert (a + b)[..|a + b| - 1] == a + b[..|b| - 1];
      ExecuteAppend(s, a, b[..|b| - 1]);
    }
  }

  /** From any state some schedule works everything off without delivering another event: the runtime
      cannot get stuck. */
  lemma {:induction false} CanDrain(s: State) returns (schedule: seq<Thread>)
    ensures var t := Execute(s, schedule);
      && Idle(t) && t.next == s.next && t.events == s.events
      && t.toStrategy.pushed == s.toStrategy.pushed && t.toStrategy.refused == s.toStrategy.refused
      && (Careful(s) ==> Careful(t))
    decreases Work(s), Idling(s)
  {
    if Idle(s) {
      schedule := [];
    } else {
      BusyMakesProgress(s);
      var rest := CanDrain(Next(s, Busy(s)));
      schedule := [Busy(s)] + rest;
      assert Execute(s, [Busy(s)]) == Next(s, Busy(s)) by { assert [Busy(s)][..0] == []; }
      ExecuteAppend(s, [Busy(s)], rest);
    }
  }

  lemma IdleIsDrained(s: State)
    requires Idle(s) && s.next == |s.events|
    ensures Drained(s) && InFlight(s) == 0
  {
  }

  /** Some schedule delivers all events one by one without a drop. */
  lemma {:induction false} CanRunWithoutDrops(s: State, k: nat) returns (schedule: seq<Thread>)
    requires Idle(s) && Careful(s) && s.next + k == |s.events|
    ensures Drained(Execute(s, schedule)) && NothingDropped(Execute(s, schedule))
    decreases k
  {
    if k == 0 {
      schedule := [];
      IdleIsDrained(s);
    } else {
      IdleHasNothingInFlight(s);
      var delivered := Next(s, MarketDataThread);
      assert Careful(delivered);
      var drain := CanDrain(delivered);
      var t := Execute(delivered, drain);
      var rest := CanRunWithoutDrops(t, k - 1);
      schedule := [MarketDataThread] + drain + rest;
      assert Execute(s, [MarketDataThread]) == delivered by { assert [MarketDataThread][..0] == []; }
      ExecuteAppend(s, [MarketDataThread], drain);
      ExecuteAppend(s, [MarketDataThread] + drain, rest);
    }
  }

  lemma IdleHasNothingInFlight(s: State)
    requires Idle(s)
    ensures InFlight(s) == 0
  {
  }

  /** The orders the gateway received when a schedule has worked off the runtime's own feed. */
  ghost predicate FeedOutcome(n: nat, room: nat, orders: seq<Message>) {
    exists schedule :: OutcomeOf(n, room, schedule, orders)
  }

  ghost predicate OutcomeOf(n: nat, room: nat, schedule: seq<Thread>, orders: seq<Message>) {
    var s := Execute(Init(Feed(n), RUNTIME_LIMITS, true, room), schedule);
    Drained(s) && s.toGateway.popped == orders
  }

  /** Every event, delivered one by one, becomes an order. */
  lemma CarefulOutcome(n: nat, room: nat) returns (orders: seq<Message>)
    requires room >= 1
    ensures FeedOutcome(n, room, orders) && |orders| == n
  {
    var init := Init(Feed(n), RUNTIME_LIMITS, true, room);
    FeedInFigures(n);
    var schedule := CanRunWithoutDrops(init, n);
    var s := Execute(init, schedule);
    orders := s.toGateway.popped;
    assert OutcomeOf(n, room, schedule, orders);
    InitInvariant(Feed(n), RUNTIME_LIMITS, true, room);
    ReachableInvariant(init, schedule);
    assert Reachable(s);
    hide Execute, Replay, Drained, NothingDropped, Reachable;
    DrainedEqualsReplay(s);
    FeedIsOrderedAndAcked(n);
  }

  /** Delivered in one burst, no more events than the first queue holds ever become orders. */
  lemma BurstOutcome(n: nat, room: nat) returns (orders: seq<Message>)
    requires n > room
    ensures FeedOutcome(n, room, orders) && |orders| <= room
  {
    var init := Init(Feed(n), RUNTIME_LIMITS, true, room);
    FeedInFigures(n);
    BurstFillsQueue(init, n);
    var full := Execute(init, Burst(n));
    var drain := CanDrain(full);
    ExecuteAppend(init, Burst(n), drain);
    var s := Execute(init, Burst(n) + drain);
    IdleIsDrained(s);
    orders := s.toGateway.popped;
    assert OutcomeOf(n, room, Burst(n) + drain, orders);
    InitInvariant(Feed(n), RUNTIME_LIMITS, true, room);
    ReachableInvariant(init, Burst(n) + drain);
    hide Execute, Replay, Drained, Run, JournalAgrees, StagesAgree, Conserves, Burst, Feed;
    OrdersAreFewer(s);
  }

  lemma OrdersAreFewer(s: State)
    requires Invariant(s)
    ensures |s.toGateway.popped| <= |s.toStrategy.pushed|
  {
    OffersAreBounded(s);
    PopsAreFewer(s.toStrategy);
    PopsAreFewer(s.toOms);
    PopsAreFewer(s.toGateway);
  }

  /** Determinism, exactly: on its own feed of n updates the runtime sends the gateway the same orders in
      every completed run if and only if n does not exceed what a queue holds. */
  lemma DeterministicExactly(n: nat, room: nat)
    requires room >= 1
    ensures (forall a, b :: FeedOutcome(n, room, a) && FeedOutcome(n, room, b) ==> a == b) <==> n <= room
  {
    FeedInFigures(n);
    if n <= room {
      forall a, b | FeedOutcome(n, room, a) && FeedOutcome(n, room, b) ensures a == b {
        FittingOutcome(n, room, a);
        FittingOutcome(n, room, b);
      }
    } else {
      var a := CarefulOutcome(n, room);
      var b := BurstOutcome(n, room);
      assert a != b;
    }
  }

  lemma FittingOutcome(n: nat, room: nat, orders: seq<Message>)
    requires n <= room && FeedOutcome(n, room, orders)
    ensures orders == Replay(Start(RUNTIME_LIMITS, true), Feed(n)).orders
  {
    FeedInFigures(n);
    var schedule :| OutcomeOf(n, room, schedule, orders);
    FittingInputIsDeterministic(Feed(n), RUNTIME_LIMITS, true, room, schedule);
  }
}
