/** What the threaded runtime guarantees over every schedule, event list, risk limit and queue size. */
module PipelineTheorems {
  import opened Fifo
  import opened Messages
  import opened Oms
  import opened Pipeline
  import opened ReplayRun
  import opened Risk
  import opened Stage
  import opened Wrappers

  ghost predicate Reachable(s: State) {
    exists events, limits, available, room, schedule ::
      s == Execute(Init(events, limits, available, room), schedule)
  }

  lemma ReachableHasInvariant(s: State)
    requires Reachable(s)
    ensures Invariant(s)
  {
    var events, limits, available, room, schedule :|
      s == Execute(Init(events, limits, available, room), schedule);
    InitInvariant(events, limits, available, room);
    ReachableInvariant(Init(events, limits, available, room), schedule);
  }

  predicate NothingDropped(s: State) {
    s.toStrategy.refused == s.toOms.refused == s.toGateway.refused == s.fromGateway.refused == []
  }

  /** Every event was delivered and every message has been worked off. */
  predicate Drained(s: State) {
    && s.next == |s.events|
    && s.toStrategy.items == s.toOms.items == s.toGateway.items == s.fromGateway.items == []
    && s.signalInHand == s.responseInHand == None
    && (s.omsPc.ReadingSignal? || s.omsPc.ReadingResponse?)
  }

  lemma PopsFromOffers<T>(q: Fifo<T>)
    requires Conserves(q) && q.refused == []
    ensures q.pushed == q.offered && q.popped <= q.offered
    ensures q.items == [] ==> q.popped == q.offered
  {
    InterleavesCounts(q.offered, q.pushed, q.refused);
    if q.items == [] { assert q.popped + [] == q.popped; }
  }

  /** As long as nothing was dropped, what each stage has emitted is a prefix of the sequential run of
      the stages over all events. */
  lemma EachStageIsAhead(s: State)
    requires Invariant(s) && NothingDropped(s)
    ensures var start := Start(s.limits, s.available);
      var signals := Run(StrategyStage, start.strategy, s.events).1;
      var orders := Run(OmsStage, start.oms, signals).1;
      && s.toOms.popped <= signals
      && s.toGateway.popped <= orders
      && s.fromGateway.popped <= Run(GatewayStage, start.gateway, orders).1
  {
    var start := Start(s.limits, s.available);
    var signals := Run(StrategyStage, start.strategy, s.events).1;
    var orders := Run(OmsStage, start.oms, signals).1;
    hide Run, JournalAgrees, Interleaves, OnResponses, OmsStage, StrategyStage, GatewayStage, Start;
    PopsFromOffers(s.toStrategy);
    PopsFromOffers(s.toOms);
    PopsFromOffers(s.toGateway);
    PopsFromOffers(s.fromGateway);
    hide Conserves;
    RunIsMonotone(StrategyStage, start.strategy, s.toStrategy.popped, s.events);
    assert s.toOms.offered <= Run(StrategyStage, start.strategy, s.toStrategy.popped).1;
    RunIsMonotone(OmsStage, start.oms, s.toOms.popped, signals);
    assert s.toGateway.offered <= Run(OmsStage, start.oms, s.toOms.popped).1;
    RunIsMonotone(GatewayStage, start.gateway, s.toGateway.popped, orders);
    assert s.fromGateway.offered <= Run(GatewayStage, start.gateway, s.toGateway.popped).1;
  }

  /** Scheduling independence: in every interleaving in which no push has failed so far, the orders the
      gateway received and the responses the order manager processed are prefixes of what the sequential
      replay loop produces from the same events. */
  lemma ScheduleIndependence(s: State)
    requires Reachable(s) && NothingDropped(s)
    ensures var replay := Replay(Start(s.limits, s.available), s.events);
      && s.toOms.popped <= replay.signals
      && s.toGateway.popped <= replay.orders
      && s.answered <= replay.responses
  {
    ReachableHasInvariant(s);
    EachStageIsAhead(s);
    ReplayIsComposition(s.limits, s.available, s.events);
    assert s.answered <= s.fromGateway.popped;
  }

  /** Once everything is worked off without a drop, the threads end exactly where the loop ends: same
      orders, same responses, same component states, whatever the schedule was. */
  lemma DrainedEqualsReplay(s: State)
    requires Reachable(s) && NothingDropped(s) && Drained(s)
    ensures var replay := Replay(Start(s.limits, s.available), s.events);
      && s.toGateway.popped == replay.orders
      && s.answered == replay.responses
      && s.strategy == replay.strategy && s.oms == replay.oms && s.gateway == replay.gateway
  {
    ReachableHasInvariant(s);
    ReplayIsComposition(s.limits, s.available, s.events);
    PopsFromOffers(s.toStrategy);
    PopsFromOffers(s.toOms);
    PopsFromOffers(s.toGateway);
    PopsFromOffers(s.fromGateway);
    hide Run, JournalAgrees, Interleaves, OnResponses, Replay;
    assert s.events[..s.next] == s.events;
    assert s.toOms.offered + [] == s.toOms.offered;
    assert s.toGateway.offered + [] == s.toGateway.offered;
    assert s.fromGateway.offered + [] == s.fromGateway.offered;
    assert s.answered + [] == s.answered;
  }

  /** With drops, each stage still computes its sequential function of exactly what it popped; the order
      manager's own state is that function's state with the processed responses applied afterwards. */
  lemma StagesSurviveDrops(s: State)
    requires Reachable(s)
    ensures var start := Start(s.limits, s.available);
      && s.next <= |s.events| && s.toStrategy.offered == s.events[..s.next]
      && (s.strategy, s.toOms.offered + InHand(s.signalInHand))
         == Run(StrategyStage, start.strategy, s.toStrategy.popped)
      && s.toGateway.offered + OrderInHand(s.omsPc) == Run(OmsStage, start.oms, s.toOms.popped).1
      && s.oms == OnResponses(Run(OmsStage, start.oms, s.toOms.popped).0, s.answered)
      && (s.gateway, s.fromGateway.offered + InHand(s.responseInHand))
         == Run(GatewayStage, start.gateway, s.toGateway.popped)
  {
    ReachableHasInvariant(s);
  }

  /** The accepted orders so far, in the order they were accepted. */
  function Accepted(s: State): seq<Message> {
    s.toGateway.offered + OrderInHand(s.omsPc)
  }

  lemma ClientIdsAppend(a: seq<Message>, b: seq<Message>)
    ensures multiset(ClientIds(a + b)) == multiset(ClientIds(a)) + multiset(ClientIds(b))
  {
    assert ClientIds(a + b) == ClientIds(a) + ClientIds(b);
  }

  lemma {:induction false} ClientIdsInterleave(all: seq<Message>, a: seq<Message>, b: seq<Message>)
    requires Interleaves(all, a, b)
    ensures multiset(ClientIds(all)) == multiset(ClientIds(a)) + multiset(ClientIds(b))
  {
    if all != [] {
      var n := |all| - 1;
      assert all == all[..n] + [all[n]];
      ClientIdsAppend(all[..n], [all[n]]);
      if a != [] && a[|a| - 1] == all[n] && Interleaves(all[..n], a[..|a| - 1], b) {
        assert a == a[..|a| - 1] + [all[n]];
        ClientIdsAppend(a[..|a| - 1], [all[n]]);
        ClientIdsInterleave(all[..n], a[..|a| - 1], b);
      } else {
        assert b == b[..|b| - 1] + [all[n]];
        ClientIdsAppend(b[..|b| - 1], [all[n]]);
        ClientIdsInterleave(all[..n], a, b[..|b| - 1]);
      }
    }
  }

  /** The ids offered to a queue are in it, were refused by it, or have come out of it. */
  lemma QueueConservesIds(q: Fifo<Message>)
    requires Conserves(q)
    ensures multiset(ClientIds(q.offered))
      == multiset(ClientIds(q.popped)) + multiset(ClientIds(q.items)) + multiset(ClientIds(q.refused))
  {
    ClientIdsInterleave(q.offered, q.pushed, q.refused);
    ClientIdsAppend(q.popped, q.items);
  }

  lemma GatewayEchoesIds(s: State)
    requires Invariant(s)
    ensures ClientIds(s.fromGateway.offered + InHand(s.responseInHand)) == ClientIds(s.toGateway.popped)
  {
    IdsFollow(s);
    GatewayAnswersInOrder(Start(s.limits, s.available).gateway, s.toGateway.popped);
    hide Run, Interleaves, JournalAgrees;
  }

  /** Order conservation: in every reachable state the accepted client ids are pairwise distinct, and
      each is in exactly one place: in the order manager's hand, waiting for the gateway, dropped before
      it, in the gateway's hand, waiting to come back, dropped on the way back, being recorded, or answered. */
  lemma OrdersAreConserved(s: State)
    requires Reachable(s)
    ensures forall i, j :: 0 <= i < j < |Accepted(s)| ==> ClientId(Accepted(s)[i]) < ClientId(Accepted(s)[j])
    ensures multiset(ClientIds(Accepted(s))) ==
         multiset(ClientIds(OrderInHand(s.omsPc)))
         + multiset(ClientIds(s.toGateway.items)) + multiset(ClientIds(s.toGateway.refused))
         + multiset(ClientIds(InHand(s.responseInHand)))
         + multiset(ClientIds(s.fromGateway.items)) + multiset(ClientIds(s.fromGateway.refused))
         + multiset(ClientIds(ResponseAtOms(s.omsPc)))
         + multiset(ClientIds(s.answered))
  {
    ReachableHasInvariant(s);
    IdsFollow(s);
    GatewayEchoesIds(s);
    hide Run, Interleaves, JournalAgrees, OnResponses, ClientIds;
    QueueConservesIds(s.toGateway);
    QueueConservesIds(s.fromGateway);
    ClientIdsAppend(s.toGateway.offered, OrderInHand(s.omsPc));
    ClientIdsAppend(s.fromGateway.offered, InHand(s.responseInHand));
    ClientIdsAppend(s.answered, ResponseAtOms(s.omsPc));
  }

  /** Responses reach the order manager with strictly increasing client ids, each answering an accepted
      order that passed the risk limits; acks carry strictly increasing exchange ids. */
  lemma ResponsesIncrease(s: State)
    requires Reachable(s)
    ensures forall i, j :: 0 <= i < j < |s.answered| ==> ClientId(s.answered[i]) < ClientId(s.answered[j])
    ensures forall i, j :: 0 <= i < j < |s.answered| && s.answered[i].AckMsg? && s.answered[j].AckMsg? ==>
      s.answered[i].ack.exchangeOrderId < s.answered[j].ack.exchangeOrderId
    ensures forall i :: 0 <= i < |s.answered| ==>
      IsResponse(s.answered[i]) && exists order :: order in Accepted(s) && ClientId(order) == ClientId(s.answered[i])
  {
    ReachableHasInvariant(s);
    IdsFollow(s);
    hide Run, Interleaves, JournalAgrees, OnResponses;
    assert s.answered <= s.fromGateway.popped <= s.fromGateway.pushed;
    forall i | 0 <= i < |s.answered|
      ensures IsResponse(s.answered[i])
      ensures exists order :: order in Accepted(s) && ClientId(order) == ClientId(s.answered[i])
    {
      assert s.answered[i] == s.fromGateway.pushed[i];
      assert s.answered[i] in s.fromGateway.pushed;
      var order := ResponseHasOrder(s, s.answered[i]);
      assert order in Accepted(s);
    }
    forall i, j | 0 <= i < j < |s.answered| && s.answered[i].AckMsg? && s.answered[j].AckMsg?
      ensures s.answered[i].ack.exchangeOrderId < s.answered[j].ack.exchangeOrderId
    {
      assert s.answered[i] == s.fromGateway.pushed[i] && s.answered[j] == s.fromGateway.pushed[j];
      assert s.answered[i] in s.fromGateway.pushed && s.answered[j] in s.fromGateway.pushed;
      AcksAreNumbered(s, s.answered[i], s.answered[j]);
    }
  }

  lemma EarlierHasSmallerId(ms: seq<Message>, i: nat, j: nat)
    requires Increasing(ms) && i < |ms| && j < |ms| && ClientId(ms[i]) < ClientId(ms[j])
    ensures i < j
  {
  }

  lemma AcksAreNumbered(s: State, a: Message, b: Message)
    requires Invariant(s) && a in s.fromGateway.offered && b in s.fromGateway.offered
    requires a.AckMsg? && b.AckMsg? && ClientId(a) < ClientId(b)
    ensures a.ack.exchangeOrderId < b.ack.exchangeOrderId
  {
    IdsFollow(s);
    GatewayAnswersInOrder(Start(s.limits, s.available).gateway, s.toGateway.popped);
    hide Run, Interleaves, JournalAgrees;
    var out := s.fromGateway.offered + InHand(s.responseInHand);
    var i :| 0 <= i < |s.fromGateway.offered| && s.fromGateway.offered[i] == a;
    var j :| 0 <= j < |s.fromGateway.offered| && s.fromGateway.offered[j] == b;
    assert out[i] == a && out[j] == b;
    EarlierHasSmallerId(s.fromGateway.offered, i, j);
  }

  /** Write-ahead order: the journaled intents are exactly the orders offered to the gateway plus at most
      the one about to be sent, records are numbered 1..n and are of the kind their message is, and every response record has exactly one
      earlier intent with its client id and is the only response record for that id. */
  lemma WriteAhead(s: State)
    requires Reachable(s)
    ensures s.toGateway.offered <= Journaled(s.journal, true)
      && |Journaled(s.journal, true)| <= |s.toGateway.offered| + 1
    ensures forall i :: 0 <= i < |s.journal| ==>
      var e := s.journal[i];
      && e.sequence == i + 1
      && (e.kind == OrderIntent <==> e.message.NewOrderMsg?)
      && (e.kind == GatewayAck <==> e.message.AckMsg?)
      && (e.kind == GatewayReject <==> e.message.RejectMsg?)
    ensures Journaled(s.journal, false) == s.answered
    ensures forall i :: 0 <= i < |s.journal| && !s.journal[i].kind.OrderIntent? ==> IntentBefore(s.journal, i)
    ensures forall i, j :: 0 <= i < j < |s.journal| && s.journal[i].kind.OrderIntent? == s.journal[j].kind.OrderIntent? ==>
      ClientId(s.journal[i].message) != ClientId(s.journal[j].message)
  {
    ReachableHasInvariant(s);
    JournaledIncreases(s);
    hide Run, Interleaves, Conserves, StagesAgree, IntentBefore, ClientId, Increasing, Reachable, Journaled;
    forall i, j | 0 <= i < j < |s.journal| && s.journal[i].kind.OrderIntent? == s.journal[j].kind.OrderIntent?
      ensures ClientId(s.journal[i].message) != ClientId(s.journal[j].message)
    {
      JournaledInOrder(s.journal, s.journal[i].kind.OrderIntent?, i, j);
    }
  }

  lemma JournaledIncreases(s: State)
    requires Invariant(s)
    ensures Increasing(Journaled(s.journal, true)) && Increasing(Journaled(s.journal, false))
  {
    IdsFollow(s);
    hide Run, Interleaves, IntentBefore, ClientId, Journaled, OnResponses;
    assert s.answered <= s.fromGateway.popped <= s.fromGateway.pushed;
    assert Journaled(s.journal, true) <= Staged(s).1;
  }

  lemma {:induction false} JournaledInOrder(journal: seq<Entry>, intents: bool, i: nat, j: nat)
    requires i < j < |journal| && journal[i].kind.OrderIntent? == journal[j].kind.OrderIntent? == intents
    requires Increasing(Journaled(journal, intents))
    ensures ClientId(journal[i].message) < ClientId(journal[j].message)
  {
    var n := |journal| - 1;
    var before := Journaled(journal[..n], intents);
    assert before == Journaled(journal, intents)[..|before|];
    if j < n {
      JournaledInOrder(journal[..n], intents, i, j);
    } else {
      var k := EntryIsJournaled(journal[..n], intents, i);
      var all := Journaled(journal, intents);
      assert all == before + [journal[n].message];
      assert all[k] == journal[i].message && all[|before|] == journal[j].message;
    }
  }

  lemma {:induction false} EntryIsJournaled(journal: seq<Entry>, intents: bool, i: nat) returns (k: nat)
    requires i < |journal| && journal[i].kind.OrderIntent? == intents
    ensures k < |Journaled(journal, intents)| && Journaled(journal, intents)[k] == journal[i].message
  {
    var n := |journal| - 1;
    if i == n {
      k := |Journaled(journal, intents)| - 1;
    } else {
      k := EntryIsJournaled(journal[..n], intents, i);
    }
  }

  lemma {:induction false} StagedOrdersAreWithinLimits(s: OmsState, signals: seq<Message>)
    ensures var (t, orders) := Run(OmsStage, s, signals);
      && t.limits == s.limits && t.position == s.position
      && forall i :: 0 <= i < |orders| ==> orders[i].NewOrderMsg? && WithinLimits(s.limits, s.position, orders[i].order)
  {
    if signals != [] {
      StagedOrdersAreWithinLimits(s, signals[..|signals| - 1]);
    }
  }

  /** No order ever reaches the gateway that breaks a limit on its own. (The runtime never feeds fills
      back, so the position stays 0 and no cumulative bound is claimed.) */
  lemma SentOrdersAreWithinLimits(s: State)
    requires Reachable(s)
    ensures forall m :: m in s.toGateway.popped ==> m.NewOrderMsg? && WithinLimits(s.limits, 0, m.order)
  {
    ReachableHasInvariant(s);
    IdsFollow(s);
    StagedOrdersAreWithinLimits(Start(s.limits, s.available).oms, s.toOms.popped);
    hide Run, Interleaves, JournalAgrees, OnResponses;
    forall m | m in s.toGateway.popped ensures m.NewOrderMsg? && WithinLimits(s.limits, 0, m.order) {
      var k :| 0 <= k < |s.toGateway.offered| && s.toGateway.offered[k] == m;
      assert Staged(s).1[k] == m;
    }
  }

  /** The order manager's thread running alone. */
  function OmsAlone(s: State, n: nat): State
    decreases n
  {
    if n == 0 then s else OmsAlone(OmsStep(s), n - 1)
  }

  /** From the gateway's queue back to the top of the loop. */
  lemma ResponseTurn(s: State) returns (n: nat)
    requires s.omsPc.ReadingResponse?
    ensures n <= 2
    ensures var t := OmsAlone(s, n);
      && t.omsPc.ReadingSignal? && t.toOms == s.toOms && t.fromGateway == Pop(s.fromGateway)
  {
    hide OnResponse;
    var u := OmsStep(s);
    assert OmsAlone(u, 0) == u && OmsAlone(s, 1) == OmsAlone(u, 0) && OmsAlone(s, 2) == OmsAlone(u, 1);
    assert OmsAlone(u, 1) == OmsAlone(OmsStep(u), 0);
    n := if u.omsPc.Recording? then 2 else 1;
  }

  /** One turn of the order manager's loop takes the oldest signal, if there is one, and then the oldest
      response, if there is one; it never reads a second signal before it has looked for a response. */
  lemma LoopTurn(s: State) returns (n: nat)
    requires s.omsPc.ReadingSignal?
    ensures n <= 5
    ensures var t := OmsAlone(s, n);
      && t.omsPc.ReadingSignal? && t.toOms == Pop(s.toOms) && t.fromGateway == Pop(s.fromGateway)
  {
    hide OnSignal, OnResponse, Push;
    var u := OmsStep(s);
    if u.omsPc.Journaling? {
      var v := OmsStep(u);
      var w := OmsStep(v);
      var m := ResponseTurn(w);
      assert OmsAlone(s, m + 3) == OmsAlone(u, m + 2) == OmsAlone(v, m + 1) == OmsAlone(w, m);
      n := m + 3;
    } else {
      var m := ResponseTurn(u);
      assert OmsAlone(s, m + 1) == OmsAlone(u, m);
      n := m + 1;
    }
  }
}
