/** What the two nodes make of the strategy's signals: over every schedule the journal holds exactly the orders
    the order manager's sequential run makes of the signals received, and without failures every one of them
    ends up answered. */
module LockStep {
  import opened Distributed
  import opened Gateway
  import opened Messages
  import opened Oms
  import opened ReplayRun
  import opened Risk
  import opened Stage

  /** The orders in a paired journal, and the responses to them. */
  function Intents(journal: seq<Entry>): seq<Message> {
    seq((|journal| + 1) / 2, k requires 0 <= k < (|journal| + 1) / 2 => journal[2 * k].message)
  }

  function Recorded(journal: seq<Entry>): seq<Message> {
    seq(|journal| / 2, k requires 0 <= k < |journal| / 2 => journal[2 * k + 1].message)
  }

  /** The reply is the gateway's answer, numbered n. */
  predicate IsReply(reply: Message, answer: Message, n: nat) {
    || (reply.AckMsg? && answer.AckMsg? && reply.ack.header.sequence == n
        && reply.ack.header.source == answer.ack.header.source
        && reply.ack.header.destination == answer.ack.header.destination
        && reply.ack.clientOrderId == answer.ack.clientOrderId
        && reply.ack.exchangeOrderId == answer.ack.exchangeOrderId)
    || (reply.RejectMsg? && answer.RejectMsg? && reply.reject.header.sequence == n
        && reply.reject.header.source == answer.reject.header.source
        && reply.reject.header.destination == answer.reject.header.destination
        && reply.reject.clientOrderId == answer.reject.clientOrderId
        && reply.reject.reason == answer.reject.reason)
  }

  ghost predicate AreReplies(replied: seq<Message>, answers: seq<Message>) {
    |replied| == |answers| && forall k :: 0 <= k < |replied| ==> IsReply(replied[k], answers[k], k + 1)
  }

  /** The order manager has journaled, or has in hand, exactly the orders its sequential run makes of the
      signals received, and is where that run and the recorded responses put it. */
  ghost predicate OmsAccounts(s: State, input: seq<Message>, limits: RiskLimits) {
    var (oms, orders) := Run(OmsStage, NewOms(3, limits), s.consumed);
    && s.consumed + s.fromStrategy == input
    && Intents(s.journal) + Unjournaled(s.omsPc) == orders && |Unjournaled(s.omsPc)| <= 1
    && s.oms == OnResponses(oms, Recorded(s.journal))
  }

  /** The gateway has answered the orders it saw, up to the one in its hand, as its sequential run does. */
  ghost predicate GatewayAccounts(s: State, available: bool) {
    |s.replied| <= |s.seen| &&
    var (gateway, answers) := Run(GatewayStage, NewGateway(4).(available := available), s.seen[..|s.replied|]);
    s.gateway == gateway && AreReplies(s.replied, answers)
  }

  lemma IntentsOneMore(journal: seq<Entry>, e: Entry)
    ensures Intents(journal + [e]) == Intents(journal) + if |journal| % 2 == 0 then [e.message] else []
    ensures Recorded(journal + [e]) == Recorded(journal) + if |journal| % 2 == 0 then [] else [e.message]
  {
    var all := journal + [e];
    if |journal| % 2 == 0 {
      assert |all| / 2 == |journal| / 2 && (|all| + 1) / 2 == (|journal| + 1) / 2 + 1;
    } else {
      assert |all| / 2 == |journal| / 2 + 1 && (|all| + 1) / 2 == (|journal| + 1) / 2;
    }
  }

  lemma RecordedIsSettled(journal: seq<Entry>, s: OmsState)
    requires Paired(journal) && AllBelow(journal, s.nextClientId)
    ensures Settled(s, Recorded(journal))
  {
    forall k | 0 <= k < |journal| / 2
      ensures IsResponse(journal[2 * k + 1].message) && ClientId(journal[2 * k + 1].message) < s.nextClientId
    {
      var i := 2 * k + 1;
      assert i % 2 == 1;
    }
  }

  lemma SignalAccounts(s: State, taken: bool, input: seq<Message>, limits: RiskLimits)
    requires Invariant(s) && OmsAccounts(s, input, limits) && s.omsPc.WaitingForSignal?
    ensures OmsAccounts(NextOms(s, taken), input, limits)
  {
    hide Run, OnResponses, Intents, Recorded, OnSignal;
    if s.fromStrategy != [] {
      var m := s.fromStrategy[0];
      var start := NewOms(3, limits);
      var (oms, orders) := Run(OmsStage, start, s.consumed);
      RunOneMore(OmsStage, start, s.consumed, m);
      assert s.consumed + [m] + s.fromStrategy[1..] == s.consumed + s.fromStrategy;
      assert Intents(s.journal) + [] == Intents(s.journal);
      if m.SignalMsg? {
        ResponsesKeepIds(oms, Recorded(s.journal));
        RecordedIsSettled(s.journal, oms);
        hide Invariant;
        SignalCommutesWithResponses(oms, Recorded(s.journal), m.signal);
      }
    }
  }

  lemma JournalAccounts(s: State, taken: bool, input: seq<Message>, limits: RiskLimits)
    requires Invariant(s) && OmsAccounts(s, input, limits) && (s.omsPc.Journaling? || s.omsPc.Recording?)
    ensures OmsAccounts(NextOms(s, taken), input, limits)
  {
    hide Run, OnResponses, OnResponse, Intents, Recorded, Paired, SeenIsJournaled, InTransit, AllBelow;
    if s.omsPc.Journaling? {
      IntentsOneMore(s.journal, Entry(OrderIntent, s.omsPc.order, s.journalSeq + 1));
      assert Intents(s.journal) + [s.omsPc.order] + [] == Intents(s.journal) + [s.omsPc.order];
      assert Recorded(s.journal) + [] == Recorded(s.journal);
    } else {
      var m := s.omsPc.response;
      var oms := Run(OmsStage, NewOms(3, limits), s.consumed).0;
      assert IsResponse(m);
      IntentsOneMore(s.journal, Entry(if m.AckMsg? then GatewayAck else GatewayReject, m, s.journalSeq + 1));
      OneMoreResponse(oms, Recorded(s.journal), m);
      assert Intents(s.journal) + [] == Intents(s.journal);
    }
  }

  lemma OmsStepAccounts(s: State, taken: bool, input: seq<Message>, limits: RiskLimits)
    requires Invariant(s) && OmsAccounts(s, input, limits)
    ensures OmsAccounts(NextOms(s, taken), input, limits)
  {
    hide Invariant, Run, OnResponses, Intents, Recorded, OnSignal, OnResponse;
    match s.omsPc
    case WaitingForSignal => SignalAccounts(s, taken, input, limits);
    case Journaling(_) => JournalAccounts(s, taken, input, limits);
    case Recording(_) => JournalAccounts(s, taken, input, limits);
    case _ =>
  }

  lemma GatewayStepAccounts(s: State, taken: bool, available: bool)
    requires Invariant(s) && GatewayAccounts(s, available)
    ensures GatewayAccounts(NextGateway(s, taken), available)
  {
    hide Run, SendOrder, Paired, AllBelow, SeenIsJournaled, RepliesMatch;
    var t, n := NextGateway(s, taken), |s.replied|;
    if s.gatewayPc.Answering? {
      hide SeenIsJournaled;
      AnsweringKnowsOrder(s);
      var order := s.gatewayPc.order;
      if order.NewOrderMsg? {
        RunOneMore(GatewayStage, NewGateway(4).(available := available), s.seen[..n], order);
        assert s.seen[..n + 1] == s.seen[..n] + [order];
      }
    } else {
      assert t.seen[..n] == s.seen[..n];
    }
  }

  ghost predicate Accounts(s: State, input: seq<Message>, limits: RiskLimits, available: bool) {
    Invariant(s) && OmsAccounts(s, input, limits) && GatewayAccounts(s, available)
  }

  lemma OmsStepLeavesGateway(s: State, taken: bool, available: bool)
    requires GatewayAccounts(s, available)
    ensures GatewayAccounts(NextOms(s, taken), available)
  {
    hide OnSignal, OnResponse, Run, AreReplies;
  }

  lemma GatewayStepLeavesOms(s: State, taken: bool, input: seq<Message>, limits: RiskLimits)
    requires OmsAccounts(s, input, limits)
    ensures OmsAccounts(NextGateway(s, taken), input, limits)
  {
    hide SendOrder, Renumbered, Run, OnResponses, Intents, Recorded;
  }

  predicate IsStep(a: Action) {
    a.OmsStep? || a.GatewayStep?
  }

  lemma FailureAccounts(s: State, a: Action, input: seq<Message>, limits: RiskLimits, available: bool)
    requires !IsStep(a) && OmsAccounts(s, input, limits) && GatewayAccounts(s, available)
    ensures OmsAccounts(Next(s, a), input, limits) && GatewayAccounts(Next(s, a), available)
  {
    hide Run, OnResponses, Intents, Recorded, AreReplies;
  }

  lemma NextAccounts(s: State, a: Action, input: seq<Message>, limits: RiskLimits, available: bool)
    requires Accounts(s, input, limits, available)
    ensures Accounts(Next(s, a), input, limits, available)
  {
    hide Invariant, OmsAccounts, GatewayAccounts, NextOms, NextGateway;
    NextKeeps(s, a);
    match a
    case OmsStep(taken) =>
      OmsStepAccounts(s, taken, input, limits);
      OmsStepLeavesGateway(s, taken, available);
    case GatewayStep(taken) =>
      GatewayStepAccounts(s, taken, available);
      GatewayStepLeavesOms(s, taken, input, limits);
    case _ => FailureAccounts(s, a, input, limits, available);
  }

  lemma {:induction false} ExecuteAccounts(
      input: seq<Message>, limits: RiskLimits, available: bool, schedule: seq<Action>)
    ensures Accounts(Execute(Init(input, limits, available), schedule), input, limits, available)
  {
    if schedule == [] {
      assert [] + input == input;
      assert Init(input, limits, available).seen[..0] == [];
    } else {
      hide Accounts, Next;
      var n := |schedule| - 1;
      ExecuteAccounts(input, limits, available, schedule[..n]);
      NextAccounts(Execute(Init(input, limits, available), schedule[..n]), schedule[n], input, limits, available);
    }
  }

  /** Over every schedule of steps, crashes and losses: the intents in the journal, with the one order that may be in hand or lost in a crash, are
      exactly the orders that the order manager's run makes of the signals received, its state is that run's
      with the recorded responses applied, the gateway saw those orders in order up to the last, and its
      replies are its own run's answers to them, numbered 1..m. */
  lemma NothingElseHappens(input: seq<Message>, limits: RiskLimits, available: bool, schedule: seq<Action>)
    ensures var s := Execute(Init(input, limits, available), schedule);
      var (oms, orders) := Run(OmsStage, NewOms(3, limits), s.consumed);
      && s.consumed + s.fromStrategy == input
      && Intents(s.journal) + Unjournaled(s.omsPc) == orders && |Unjournaled(s.omsPc)| <= 1
      && s.oms == OnResponses(oms, Recorded(s.journal))
      && s.seen <= orders && |Intents(s.journal)| <= |s.seen| + 1
      && Recorded(s.journal) <= s.replied
    ensures var s := Execute(Init(input, limits, available), schedule);
      && |s.replied| <= |s.seen|
      && var (gateway, answers) := Run(GatewayStage, NewGateway(4).(available := available), s.seen[..|s.replied|]);
         s.gateway == gateway && AreReplies(s.replied, answers)
  {
    ExecuteAccounts(input, limits, available, schedule);
    var s := Execute(Init(input, limits, available), schedule);
    hide Execute, Run, OnResponses, Init, Paired;
    SeenAreIntents(s);
  }

  lemma SeenAreIntents(s: State)
    requires SeenIsJournaled(s.journal, s.seen) && RepliesMatch(s.journal, s.seen, s.replied)
    ensures s.seen <= Intents(s.journal) && |Intents(s.journal)| <= |s.seen| + 1
    ensures Recorded(s.journal) <= s.replied
  {
    hide Renumbered;
  }

  /** No crash and no loss. */
  predicate FailureFree(schedule: seq<Action>) {
    forall i :: 0 <= i < |schedule| ==> IsStep(schedule[i])
  }

  /** Without failures the connection lasts until the strategy is done, and an awaited response is under way. */
  predicate Healthy(s: State) {
    && (s.connected <==> !s.omsPc.OmsStopped?)
    && (s.omsPc.OmsStopped? ==> s.fromStrategy == [] && Complete(s) && Unjournaled(s.omsPc) == [])
    && (s.gatewayPc.GatewayStopped? ==> s.omsPc.OmsStopped?)
    && (s.omsPc.Awaiting? ==>
          s.toGateway != [] || s.gatewayPc.Answering? || s.gatewayPc.Replying? || s.toOms != [])
  }

  lemma OmsStepStaysHealthy(s: State, taken: bool)
    requires Invariant(s) && Healthy(s)
    ensures Healthy(NextOms(s, taken))
  {
    hide Paired, AllBelow, SeenIsJournaled, RepliesMatch, OnSignal, OnResponse;
  }

  lemma GatewayStepStaysHealthy(s: State, taken: bool)
    requires Invariant(s) && Healthy(s)
    ensures Healthy(NextGateway(s, taken))
  {
    hide Paired, AllBelow, SeenIsJournaled, SendOrder, Renumbered;
    if s.gatewayPc.Answering? {
      assert s.gatewayPc.order.NewOrderMsg? by { AnsweringHasOrder(s); }
    }
    if s.toGateway != [] {
      assert s.toGateway[0].NewOrderMsg? by { TransitIsOrder(s); }
    }
  }

  lemma AnsweringHasOrder(s: State)
    requires Invariant(s) && s.gatewayPc.Answering?
    ensures s.gatewayPc.order.NewOrderMsg?
  {
    hide AllBelow, SeenIsJournaled, RepliesMatch;
    assert (|s.journal| - 1) % 2 == 0;
  }

  lemma TransitIsOrder(s: State)
    requires Invariant(s) && s.toGateway != []
    ensures s.toGateway[0].NewOrderMsg?
  {
    hide AllBelow, SeenIsJournaled, RepliesMatch;
    assert (|s.journal| - 1) % 2 == 0;
  }

  lemma {:induction false} FailureFreeIsHealthy(
      input: seq<Message>, limits: RiskLimits, available: bool, schedule: seq<Action>)
    requires FailureFree(schedule)
    ensures var s := Execute(Init(input, limits, available), schedule); Invariant(s) && Healthy(s)
  {
    ExecuteAccounts(input, limits, available, schedule);
    if schedule != [] {
      var n := |schedule| - 1;
      FailureFreeIsHealthy(input, limits, available, schedule[..n]);
      hide Invariant, Healthy, OmsAccounts, GatewayAccounts, NextOms, NextGateway;
      var before := Execute(Init(input, limits, available), schedule[..n]);
      assert IsStep(schedule[n]);
      match schedule[n] {
        case OmsStep(taken) => OmsStepStaysHealthy(before, taken);
        case GatewayStep(taken) => GatewayStepStaysHealthy(before, taken);
      }
    }
  }

  /** How far the current signal is from its answer. */
  function StepsToAnswer(s: State): nat {
    match s.omsPc
    case OmsStopped(_) => 0
    case WaitingForSignal => 1
    case Recording(_) => 2
    case Awaiting =>
      if s.toOms != [] then 3 else if s.gatewayPc.Replying? then 4 else if s.gatewayPc.Answering? then 5 else 6
    case Sending(_) => 7
    case Journaling(_) => 8
  }

  function Left(s: State): nat {
    8 * |s.fromStrategy| + StepsToAnswer(s)
  }

  /** A node that has something to do. */
  function Busy(s: State): Action {
    if s.omsPc.Awaiting? && s.toOms == [] then GatewayStep(true) else OmsStep(true)
  }

  lemma BusyNearsTheEnd(s: State)
    requires Invariant(s) && Healthy(s) && !s.omsPc.OmsStopped?
    ensures Left(Next(s, Busy(s))) < Left(s)
  {
    hide Paired, AllBelow, SeenIsJournaled, RepliesMatch, OnSignal, OnResponse, SendOrder, Renumbered;
    if s.gatewayPc.Answering? { AnsweringHasOrder(s); }
    if s.toGateway != [] { TransitIsOrder(s); }
  }

  /** From every state that was reached without failures, the nodes can finish: some failure-free steps work
      off everything the strategy sends. */
  lemma {:induction false} CanFinish(input: seq<Message>, limits: RiskLimits, available: bool, schedule: seq<Action>)
    returns (more: seq<Action>)
    requires FailureFree(schedule)
    ensures FailureFree(schedule + more)
    ensures Execute(Init(input, limits, available), schedule + more).omsPc.OmsStopped?
    decreases Left(Execute(Init(input, limits, available), schedule))
  {
    var s := Execute(Init(input, limits, available), schedule);
    hide Invariant, Healthy, Next, Left, Init;
    FailureFreeIsHealthy(input, limits, available, schedule);
    if s.omsPc.OmsStopped? {
      more := [];
      assert schedule + more == schedule;
    } else {
      BusyNearsTheEnd(s);
      assert (schedule + [Busy(s)])[..|schedule|] == schedule;
      var rest := CanFinish(input, limits, available, schedule + [Busy(s)]);
      more := [Busy(s)] + rest;
      assert schedule + more == schedule + [Busy(s)] + rest;
    }
  }

  /** And however failure-free steps are scheduled, a run that is finished has answered everything: the journal
      is the orders the order manager makes of all signals, each followed by the gateway's answer to it, the
      gateway saw exactly these orders, and both components are where their sequential runs end. */
  lemma FinishedIsComplete(input: seq<Message>, limits: RiskLimits, available: bool, schedule: seq<Action>)
    requires FailureFree(schedule)
    requires Execute(Init(input, limits, available), schedule).omsPc.OmsStopped?
    ensures var s := Execute(Init(input, limits, available), schedule);
      var (oms, orders) := Run(OmsStage, NewOms(3, limits), input);
      var (gateway, answers) := Run(GatewayStage, NewGateway(4).(available := available), orders);
      && |s.journal| == 2 * |orders| && Intents(s.journal) == s.seen == orders
      && AreReplies(Recorded(s.journal), answers)
      && s.oms == OnResponses(oms, Recorded(s.journal)) && s.gateway == gateway
  {
    var s := Execute(Init(input, limits, available), schedule);
    NothingElseHappens(input, limits, available, schedule);
    FailureFreeIsHealthy(input, limits, available, schedule);
    hide *;
    NothingOpen(s);
  }

  lemma NothingOpen(s: State)
    requires Invariant(s) && Healthy(s) && s.omsPc.OmsStopped?
    ensures s.consumed + s.fromStrategy == s.consumed
    ensures Intents(s.journal) + Unjournaled(s.omsPc) == Intents(s.journal)
    ensures |s.journal| == 2 * |Intents(s.journal)|
    ensures s.seen == Intents(s.journal) && s.seen[..|s.replied|] == s.seen && Recorded(s.journal) == s.replied
  {
    SeenAreIntents(s);
    hide Paired, Renumbered;
  }
}
