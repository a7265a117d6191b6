/** The sequential replay loop: strategy, order manager and gateway called one after the other. */
module ReplayRun {
  import opened Messages
  import opened Wrappers
  import opened Stage
  import opened Strategy
  import opened Risk
  import opened Oms
  import opened Gateway

  function StrategyStage(s: StrategyState, m: Message): (StrategyState, Option<Message>) {
    if !m.MarketDataMsg? then (s, None)
    else
      var (s', signal) := OnMarketData(s, m.update);
      (s', if signal == None then None else Some(SignalMsg(signal.value)))
  }

  /** The order manager on signals alone; only accepted orders come out. */
  function OmsStage(s: OmsState, m: Message): (OmsState, Option<Message>) {
    if !m.SignalMsg? then (s, None)
    else
      var (s', out) := OnSignal(s, m.signal);
      (s', if out.NewOrderMsg? then Some(out) else None)
  }

  function GatewayStage(g: GatewayState, m: Message): (GatewayState, Option<Message>) {
    if !m.NewOrderMsg? then (g, None)
    else
      var (g', out) := SendOrder(g, m.order);
      (g', Some(out))
  }

  function OnResponses(s: OmsState, ms: seq<Message>): OmsState {
    if ms == [] then s else OnResponse(OnResponses(s, ms[..|ms| - 1]), ms[|ms| - 1])
  }

  lemma OneMoreResponse(s: OmsState, ms: seq<Message>, m: Message)
    ensures OnResponses(s, ms + [m]) == OnResponse(OnResponses(s, ms), m)
  {
    assert (ms + [m])[..|ms|] == ms;
  }

  datatype System = System(
    strategy: StrategyState, oms: OmsState, gateway: GatewayState,
    signals: seq<Message>, orders: seq<Message>, responses: seq<Message>)

  function Start(limits: RiskLimits, available: bool): System {
    System(StrategyState(2, None, 0), NewOms(3, limits), NewGateway(4).(available := available), [], [], [])
  }

  /** One turn of the replay loop. */
  function ReplayStep(sys: System, m: Message): System {
    if !m.MarketDataMsg? then sys
    else
      var (strategy, signal) := OnMarketData(sys.strategy, m.update);
      if signal == None then sys.(strategy := strategy)
      else
        var signals := sys.signals + [SignalMsg(signal.value)];
        var (oms, order) := OnSignal(sys.oms, signal.value);
        if !order.NewOrderMsg? then sys.(strategy := strategy, oms := oms, signals := signals)
        else
          var (gateway, response) := SendOrder(sys.gateway, order.order);
          System(strategy, OnResponse(oms, response), gateway, signals,
                 sys.orders + [order], sys.responses + [response])
  }

  function Replay(sys: System, events: seq<Message>): System {
    if events == [] then sys else ReplayStep(Replay(sys, events[..|events| - 1]), events[|events| - 1])
  }

  /** Every response is about an order whose id is no longer to be given out. */
  ghost predicate Settled(s: OmsState, ms: seq<Message>) {
    forall i :: 0 <= i < |ms| ==> IsResponse(ms[i]) && ClientId(ms[i]) < s.nextClientId
  }

  lemma {:induction false} ResponsesKeepIds(s: OmsState, ms: seq<Message>)
    ensures OnResponses(s, ms) == s.(live := OnResponses(s, ms).live)
  {
    if ms != [] {
      ResponsesKeepIds(s, ms[..|ms| - 1]);
    }
  }

  /** A signal may be handled before or after any responses to earlier orders. */
  lemma {:induction false} SignalCommutesWithResponses(s: OmsState, ms: seq<Message>, signal: Signal)
    requires Settled(s, ms)
    ensures OnSignal(OnResponses(s, ms), signal) == (OnResponses(OnSignal(s, signal).0, ms), OnSignal(s, signal).1)
  {
    if ms != [] {
      var n := |ms| - 1;
      SignalCommutesWithResponses(s, ms[..n], signal);
      ResponsesKeepIds(s, ms[..n]);
      ResponseCommutesWithSignal(OnResponses(s, ms[..n]), ms[n], signal);
    }
  }

  /** The responses to the orders a run has produced are settled for the order manager that produced them. */
  ghost predicate Answerable(s: OmsState, orders: seq<Message>) {
    forall i :: 0 <= i < |orders| ==> orders[i].NewOrderMsg? && ClientId(orders[i]) < s.nextClientId
  }

  /** Client ids come out strictly increasing and stay below the next id to give out. */
  lemma {:induction false} OrdersAreNumbered(s: OmsState, signals: seq<Message>)
    ensures var (t, orders) := Run(OmsStage, s, signals);
      && Answerable(t, orders)
      && s.nextClientId <= t.nextClientId
      && (forall i, j :: 0 <= i < j < |orders| ==> ClientId(orders[i]) < ClientId(orders[j]))
  {
    if signals != [] {
      OrdersAreNumbered(s, signals[..|signals| - 1]);
    }
  }

  ghost predicate AllOrders(ms: seq<Message>) {
    forall i :: 0 <= i < |ms| ==> ms[i].NewOrderMsg?
  }

  /** The gateway answers every order, in order, and numbers its acks consecutively. */
  lemma {:induction false} GatewayAnswersInOrder(g: GatewayState, orders: seq<Message>)
    requires AllOrders(orders)
    ensures var (h, responses) := Run(GatewayStage, g, orders);
      && |responses| == |orders|
      && h.available == g.available
      && h.nextExchangeId == g.nextExchangeId + (if g.available then |orders| else 0)
      && (forall i :: 0 <= i < |orders| ==>
            && IsResponse(responses[i])
            && ClientId(responses[i]) == ClientId(orders[i])
            && (responses[i].AckMsg? <==> g.available)
            && (g.available ==> responses[i].ack.exchangeOrderId == g.nextExchangeId + i))
  {
    if orders != [] {
      GatewayAnswersInOrder(g, orders[..|orders| - 1]);
    }
  }

  /** The loop is where running each stage over everything the one before it produced would be. */
  ghost predicate Composed(limits: RiskLimits, available: bool, events: seq<Message>, sys: System) {
    var start := Start(limits, available);
    var (oms, orders) := Run(OmsStage, start.oms, sys.signals);
    && (sys.strategy, sys.signals) == Run(StrategyStage, start.strategy, events)
    && sys.orders == orders
    && sys.oms == OnResponses(oms, sys.responses)
    && (sys.gateway, sys.responses) == Run(GatewayStage, start.gateway, sys.orders)
  }

  lemma ComposedOneMore(limits: RiskLimits, available: bool, events: seq<Message>, sys: System, m: Message)
    requires Composed(limits, available, events, sys)
    ensures Composed(limits, available, events + [m], ReplayStep(sys, m))
  {
    RunOneMore(StrategyStage, Start(limits, available).strategy, events, m);
    hide Run, OnSignal, SendOrder, OnMarketData, OmsStage, GatewayStage, OnResponses, OnResponse, Start;
    if m.MarketDataMsg? && OnMarketData(sys.strategy, m.update).1.Some? {
      SignalStep(limits, available, sys, OnMarketData(sys.strategy, m.update).1.value);
    }
  }

  /** The loop is the composition of its stages: calling the components one event at a time gives the
      same states and outputs as running each component over everything the one before it produced. */
  lemma {:induction false} ReplayIsComposition(limits: RiskLimits, available: bool, events: seq<Message>)
    ensures var start := Start(limits, available);
      var sys := Replay(start, events);
      var (oms, orders) := Run(OmsStage, start.oms, sys.signals);
      && (sys.strategy, sys.signals) == Run(StrategyStage, start.strategy, events)
      && sys.orders == orders
      && sys.oms == OnResponses(oms, sys.responses)
      && (sys.gateway, sys.responses) == Run(GatewayStage, start.gateway, sys.orders)
  {
    ReplayComposed(limits, available, events);
    hide Run, Replay, OnResponses, Start;
  }

  lemma {:induction false} ReplayComposed(limits: RiskLimits, available: bool, events: seq<Message>)
    ensures Composed(limits, available, events, Replay(Start(limits, available), events))
  {
    if events != [] {
      hide Composed, ReplayStep, Start;
      var n := |events| - 1;
      ReplayComposed(limits, available, events[..n]);
      ComposedOneMore(limits, available, events[..n], Replay(Start(limits, available), events[..n]), events[n]);
      assert events == events[..n] + [events[n]];
    }
  }

  lemma SignalStep(limits: RiskLimits, available: bool, before: System, signal: Signal)
    requires var start := Start(limits, available);
      var (oms, orders) := Run(OmsStage, start.oms, before.signals);
      && before.orders == orders
      && before.oms == OnResponses(oms, before.responses)
      && (before.gateway, before.responses) == Run(GatewayStage, start.gateway, before.orders)
    ensures var start := Start(limits, available);
      var (oms', order) := OnSignal(before.oms, signal);
      var (oms, orders) := Run(OmsStage, start.oms, before.signals + [SignalMsg(signal)]);
      if order.NewOrderMsg? then
        var (gateway, response) := SendOrder(before.gateway, order.order);
        && orders == before.orders + [order]
        && OnResponse(oms', response) == OnResponses(oms, before.responses + [response])
        && (gateway, before.responses + [response]) == Run(GatewayStage, start.gateway, before.orders + [order])
      else orders == before.orders && oms' == OnResponses(oms, before.responses)
  {
    var start := Start(limits, available);
    var (oms, orders) := Run(OmsStage, start.oms, before.signals);
    OrdersAreNumbered(start.oms, before.signals);
    GatewayAnswersInOrder(start.gateway, orders);
    SignalCommutesWithResponses(oms, before.responses, signal);
    RunOneMore(OmsStage, start.oms, before.signals, SignalMsg(signal));
    var (oms', order) := OnSignal(before.oms, signal);
    if order.NewOrderMsg? {
      RunOneMore(GatewayStage, start.gateway, orders, order);
      var response := SendOrder(before.gateway, order.order).1;
      assert (before.responses + [response])[..|before.responses|] == before.responses;
    }
  }

  /** The i-th update of the runtime's market data thread. */
  function FeedUpdate(i: nat): MarketData {
    var bid := 10000 + i % 25;
    MarketData(Header(1, 2, i), 1, "AAPL", bid, 100, bid + 5, 100, i)
  }

  function Feed(n: nat): seq<Message> {
    if n == 0 then [] else Feed(n - 1) + [MarketDataMsg(FeedUpdate(n))]
  }

  /** Update i has a bid cycling through 10000..10024, an ask 5 above it, and number i. */
  lemma {:induction false} FeedInFigures(n: nat)
    ensures |Feed(n)| == n
    ensures forall i :: 0 <= i < n ==>
      var cycle := (i + 1) % 25;
      Feed(n)[i]
      == MarketDataMsg(MarketData(Header(1, 2, i + 1), 1, "AAPL", 10000 + cycle, 100, 10005 + cycle, 100, i + 1))
  {
    if n > 0 { FeedInFigures(n - 1); }
  }

  const RUNTIME_LIMITS := RiskLimits(10, 2, 1_000_000)

  /** What the runtime's limits let through, in figures. */
  lemma LimitsInFigures(position: int, order: NewOrder)
    ensures WithinLimits(RUNTIME_LIMITS, position, order) <==>
      && (order.qty == 1 || order.qty == 2)
      && order.qty * order.limitPx <= 1_000_000
      && -10 <= (if order.side == Buy then position + order.qty else position - order.qty) <= 10
  {
  }

  /** Order and response i are those of update i + 1. */
  predicate FollowsFeed(orders: seq<Message>, responses: seq<Message>, n: nat) {
    && |orders| == |responses| == n
    && forall i :: 0 <= i < n ==>
      && orders[i] == NewOrderMsg(NewOrder(Header(3, 4, i + 1), i + 1, 1, Buy, 10001 + (i + 1) % 25, 1))
      && responses[i] == AckMsg(Ack(Header(4, 3, i + 1), i + 1, 1000 + i))
  }

  predicate AfterFeed(sys: System, n: nat) {
    && sys.strategy.node == 2 && sys.strategy.book == (if n == 0 then None else Some(FeedUpdate(n)))
    && sys.strategy.signals == n
    && sys.oms == OmsState(3, RUNTIME_LIMITS, 0, n + 1, n, sys.oms.live)
    && sys.gateway == GatewayState(4, true, 1000 + n, n)
  }

  lemma FeedStep(sys: System, n: nat)
    requires AfterFeed(sys, n) && FollowsFeed(sys.orders, sys.responses, n)
    ensures var next := ReplayStep(sys, MarketDataMsg(FeedUpdate(n + 1)));
      AfterFeed(next, n + 1) && FollowsFeed(next.orders, next.responses, n + 1)
  {
    var next := ReplayStep(sys, MarketDataMsg(FeedUpdate(n + 1)));
    var order, response := next.orders[n], next.responses[n];
    assert order == NewOrderMsg(NewOrder(Header(3, 4, n + 1), n + 1, 1, Buy, 10001 + (n + 1) % 25, 1));
    assert response == AckMsg(Ack(Header(4, 3, n + 1), n + 1, 1000 + n));
    hide ReplayStep, FeedUpdate;
    assert next.orders == sys.orders + [order] && next.responses == sys.responses + [response];
  }

  /** On the runtime's own feed and limits nothing is filtered out: the n-th update becomes order n, one
      tick above its bid, acked under exchange id 999 + n. */
  lemma {:induction false} FeedIsOrderedAndAcked(n: nat)
    ensures var sys := Replay(Start(RUNTIME_LIMITS, true), Feed(n));
      AfterFeed(sys, n) && FollowsFeed(sys.orders, sys.responses, n)
  {
    if n > 0 {
      hide ReplayStep, FollowsFeed, AfterFeed, FeedUpdate, Start;
      FeedIsOrderedAndAcked(n - 1);
      assert Feed(n)[..|Feed(n)| - 1] == Feed(n - 1);
      FeedStep(Replay(Start(RUNTIME_LIMITS, true), Feed(n - 1)), n - 1);
    }
  }

  datatype Stats = Stats(events: nat, marketData: nat, signals: nat, orders: nat, acks: nat, rejects: nat)

  function MarketDataCount(events: seq<Message>): nat {
    if events == [] then 0
    else MarketDataCount(events[..|events| - 1]) + if events[|events| - 1].MarketDataMsg? then 1 else 0
  }

  /** The loop's gateway is always available, so every order it sends is acked. */
  lemma {:induction false} EveryOrderIsAcked(limits: RiskLimits, events: seq<Message>)
    ensures var sys := Replay(Start(limits, true), events);
      && |sys.responses| == |sys.orders|
      && forall i :: 0 <= i < |sys.responses| ==> sys.responses[i].AckMsg?
  {
    var start, sys := Start(limits, true), Replay(Start(limits, true), events);
    ReplayIsComposition(limits, true, events);
    OrdersAreNumbered(start.oms, sys.signals);
    GatewayAnswersInOrder(start.gateway, sys.orders);
  }

  /** Every order of a run buys one unit one tick above the bid of an update that was received, whose spread was
      at least 4, and keeps every limit in figures. */
  lemma {:induction false} OrdersAreJustified(limits: RiskLimits, available: bool, events: seq<Message>)
    ensures var sys := Replay(Start(limits, available), events);
      && (sys.strategy.book.Some? ==> MarketDataMsg(sys.strategy.book.value) in events)
      && sys.oms.limits == limits && sys.oms.position == 0
      && forall m :: m in sys.orders ==> m.NewOrderMsg? && Justified(limits, events, m.order)
  {
    if events != [] {
      var n := |events| - 1;
      var before := Replay(Start(limits, available), events[..n]);
      OrdersAreJustified(limits, available, events[..n]);
      hide Justified;
      forall order | Justified(limits, events[..n], order) ensures Justified(limits, events, order) {
        StillJustified(limits, events[..n], events[n], order);
      }
      assert events == events[..n] + [events[n]];
      if events[n].MarketDataMsg? {
        var (strategy, signal) := OnMarketData(before.strategy, events[n].update);
        assert MarketDataMsg(strategy.book.value) in events;
        if signal.Some? {
          NewlyJustified(events, strategy.book.value, before.oms, signal.value);
        }
      }
    }
  }

  ghost predicate Justified(limits: RiskLimits, events: seq<Message>, order: NewOrder) {
    && order.side == Buy && order.qty == 1
    && (exists u :: MarketDataMsg(u) in events
          && u.askPx - u.bidPx >= 4 && order.limitPx == u.bidPx + 1 && order.symbolId == u.symbolId)
    && order.limitPx <= limits.maxNotional && 1 <= limits.maxOrderQty && 1 <= limits.maxPosition
  }

  lemma StillJustified(limits: RiskLimits, events: seq<Message>, more: Message, order: NewOrder)
    requires Justified(limits, events, order)
    ensures Justified(limits, events + [more], order)
  {
    var u :| MarketDataMsg(u) in events
      && u.askPx - u.bidPx >= 4 && order.limitPx == u.bidPx + 1 && order.symbolId == u.symbolId;
    assert MarketDataMsg(u) in events + [more];
  }

  lemma NewlyJustified(events: seq<Message>, u: MarketData, oms: OmsState, signal: Signal)
    requires MarketDataMsg(u) in events && u.askPx - u.bidPx >= 4 && oms.position == 0
    requires signal.side == Buy && signal.qty == 1 && signal.limitPx == u.bidPx + 1 && signal.symbolId == u.symbolId
    ensures var m := OnSignal(oms, signal).1; m.NewOrderMsg? ==> Justified(oms.limits, events, m.order)
  {
  }

  function AckCount(responses: seq<Message>): (n: nat)
    ensures n <= |responses|
  {
    if responses == [] then 0
    else AckCount(responses[..|responses| - 1]) + if responses[|responses| - 1].AckMsg? then 1 else 0
  }

  lemma {:induction false} AllAcksCounted(responses: seq<Message>)
    requires forall i :: 0 <= i < |responses| ==> responses[i].AckMsg?
    ensures AckCount(responses) == |responses|
  {
    if responses != [] {
      AllAcksCounted(responses[..|responses| - 1]);
    }
  }

  lemma CountsStart(limits: RiskLimits)
    ensures Replay(Start(limits, true), []) == Start(limits, true) && MarketDataCount([]) == AckCount([]) == 0
  {
  }

  lemma CountsOneMore(events: seq<Message>, i: nat, limits: RiskLimits)
    requires i < |events|
    ensures MarketDataCount(events[..i + 1]) == MarketDataCount(events[..i]) + if events[i].MarketDataMsg? then 1 else 0
    ensures Replay(Start(limits, true), events[..i + 1]) == ReplayStep(Replay(Start(limits, true), events[..i]), events[i])
  {
    assert events[..i + 1][..i] == events[..i];
  }

  /** One turn of the loop, call by call. */
  lemma StepByStep(sys: System, m: Message)
    ensures var t := ReplayStep(sys, m);
      if !m.MarketDataMsg? then t == sys
      else
        var (strategy, signal) := OnMarketData(sys.strategy, m.update);
        t.strategy == strategy &&
        if signal == None then t == sys.(strategy := strategy)
        else
          var (oms, order) := OnSignal(sys.oms, signal.value);
          |t.signals| == |sys.signals| + 1 &&
          if !order.NewOrderMsg? then t == sys.(strategy := strategy, oms := oms, signals := t.signals)
          else
            var (gateway, response) := SendOrder(sys.gateway, order.order);
            && t.oms == OnResponse(oms, response) && t.gateway == gateway
            && |t.orders| == |sys.orders| + 1 && |t.responses| == |sys.responses| + 1
            && AckCount(t.responses) == AckCount(sys.responses) + if response.AckMsg? then 1 else 0
  {
    hide OnMarketData, OnSignal, SendOrder, OnResponse;
    var t := ReplayStep(sys, m);
    assert |t.responses| == |sys.responses| + 1 ==> t.responses[..|sys.responses|] == sys.responses;
  }

  lemma AcksAreOrders(limits: RiskLimits, events: seq<Message>)
    ensures var sys := Replay(Start(limits, true), events); AckCount(sys.responses) == |sys.responses| == |sys.orders|
  {
    EveryOrderIsAcked(limits, events);
    AllAcksCounted(Replay(Start(limits, true), events).responses);
  }

  /** The replay program over an opened log: its counters are the sizes of what the specification produces;
      its gateway never rejects, so every order is acked and the rejects are the signals risk turned down. */
  method RunReplay(events: seq<Message>, limits: RiskLimits) returns (stats: Stats)
    ensures var sys := Replay(Start(limits, true), events);
      && stats.events == |events| && stats.marketData == MarketDataCount(events)
      && stats.signals == |sys.signals| && stats.orders == |sys.orders|
      && stats.acks == |sys.responses| == |sys.orders|
      && stats.rejects == |sys.signals| - |sys.orders|
  {
    hide OnMarketData, OnSignal, SendOrder, OnResponse, ReplayStep, Replay, AckCount, MarketDataCount;
    CountsStart(limits);
    assert events[..0] == [];
    var strategy := new StrategyEngine(2);
    var oms := new OrderManager(3, limits);
    var gateway := new ExchangeGateway(4);
    stats := Stats(0, 0, 0, 0, 0, 0);
    ghost var sys := Start(limits, true);
    var i := 0;
    while i < |events|
      invariant 0 <= i <= |events|
      invariant sys == Replay(Start(limits, true), events[..i])
      invariant (strategy.View(), oms.View(), gateway.View()) == (sys.strategy, sys.oms, sys.gateway)
      invariant stats.events == i && stats.marketData == MarketDataCount(events[..i])
      invariant stats.signals == |sys.signals| && stats.orders == |sys.orders| && stats.acks == AckCount(sys.responses)
      invariant stats.rejects == |sys.signals| - |sys.orders| + |sys.responses| - stats.acks
      invariant fresh(strategy) && fresh(strategy.book) && fresh(oms) && fresh(gateway)
    {
      var event := events[i];
      CountsOneMore(events, i, limits);
      StepByStep(sys, event);
      sys := ReplayStep(sys, event);
      i := i + 1;
      stats := stats.(events := stats.events + 1);
      if !event.MarketDataMsg? { continue; }
      stats := stats.(marketData := stats.marketData + 1);
      var signal := strategy.Process(event.update);
      if signal == None { continue; }
      stats := stats.(signals := stats.signals + 1);
      var order := oms.ProcessSignal(signal.value);
      if order.RejectMsg? {
        stats := stats.(rejects := stats.rejects + 1);
        continue;
      }
      stats := stats.(orders := stats.orders + 1);
      var response := gateway.Send(order.order);
      if response.AckMsg? {
        var _ := oms.ProcessAck(response.ack);
        stats := stats.(acks := stats.acks + 1);
      } else {
        var _ := oms.ProcessReject(response.reject);
        stats := stats.(rejects := stats.rejects + 1);
      }
    }
    assert events[..i] == events;
    AcksAreOrders(limits, events);
  }
}
