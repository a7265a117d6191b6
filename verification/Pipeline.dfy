/** The four-thread runtime: market data, strategy, order manager and gateway threads, scheduled in any
    order, connected by bounded queues and journaling before they send. */
module Pipeline {
  import opened Fifo
  import opened Gateway
  import opened Messages
  import opened Oms
  import opened ReplayRun
  import opened Risk
  import opened Stage
  import opened Strategy
  import opened Wrappers

  /** Where the order manager's thread stands in its loop. */
  datatype OmsPc =
    | ReadingSignal
    | Journaling(order: Message)
    | Sending(order: Message)
    | ReadingResponse
    | Recording(response: Message)

  datatype State = State(
    events: seq<Message>, limits: RiskLimits, available: bool,
    next: nat,
    toStrategy: Fifo<Message>, toOms: Fifo<Message>, toGateway: Fifo<Message>, fromGateway: Fifo<Message>,
    strategy: StrategyState, signalInHand: Option<Message>,
    oms: OmsState, omsPc: OmsPc, journal: seq<Entry>, journalSequence: nat, answered: seq<Message>,
    gateway: GatewayState, responseInHand: Option<Message>)

  /** The scheduler picks a thread, which takes its next queue operation or journal append. */
  datatype Thread = MarketDataThread | StrategyThread | OmsThread | GatewayThread

  function Init(events: seq<Message>, limits: RiskLimits, available: bool, room: nat): State {
    var start := Start(limits, available);
    State(events, limits, available, 0, Empty(room), Empty(room), Empty(room), Empty(room),
          start.strategy, None, start.oms, ReadingSignal, [], 0, [], start.gateway, None)
  }

  function MarketDataStep(s: State): State {
    if s.next < |s.events| then s.(toStrategy := Push(s.toStrategy, s.events[s.next]), next := s.next + 1) else s
  }

  function StrategyStep(s: State): State {
    match s.signalInHand
    case Some(signal) => s.(toOms := Push(s.toOms, signal), signalInHand := None)
    case None =>
      if s.toStrategy.items == [] then s
      else
        var (strategy, out) := StrategyStage(s.strategy, s.toStrategy.items[0]);
        s.(toStrategy := Pop(s.toStrategy), strategy := strategy, signalInHand := out)
  }

  function Journal(s: State, kind: EntryKind, m: Message): State {
    s.(journalSequence := s.journalSequence + 1, journal := s.journal + [Entry(kind, m, s.journalSequence + 1)])
  }

  function OmsStep(s: State): State {
    match s.omsPc
    case ReadingSignal =>
      if s.toOms.items == [] then s.(omsPc := ReadingResponse)
      else
        var m := s.toOms.items[0];
        var popped := s.(toOms := Pop(s.toOms));
        if !m.SignalMsg? then popped.(omsPc := ReadingResponse)
        else
          var (oms, out) := OnSignal(s.oms, m.signal);
          popped.(oms := oms, omsPc := if out.NewOrderMsg? then Journaling(out) else ReadingResponse)
    case Journaling(order) => Journal(s, OrderIntent, order).(omsPc := Sending(order))
    case Sending(order) => s.(toGateway := Push(s.toGateway, order), omsPc := ReadingResponse)
    case ReadingResponse =>
      if s.fromGateway.items == [] then s.(omsPc := ReadingSignal)
      else
        var m := s.fromGateway.items[0];
        s.(fromGateway := Pop(s.fromGateway), omsPc := if IsResponse(m) then Recording(m) else ReadingSignal)
    case Recording(m) =>
      Journal(s, if m.AckMsg? then GatewayAck else GatewayReject, m)
        .(oms := OnResponse(s.oms, m), answered := s.answered + [m], omsPc := ReadingSignal)
  }

  function GatewayStep(s: State): State {
    match s.responseInHand
    case Some(response) => s.(fromGateway := Push(s.fromGateway, response), responseInHand := None)
    case None =>
      if s.toGateway.items == [] then s
      else
        var (gateway, out) := GatewayStage(s.gateway, s.toGateway.items[0]);
        s.(toGateway := Pop(s.toGateway), gateway := gateway, responseInHand := out)
  }

  function Next(s: State, t: Thread): State {
    match t
    case MarketDataThread => MarketDataStep(s)
    case StrategyThread => StrategyStep(s)
    case OmsThread => OmsStep(s)
    case GatewayThread => GatewayStep(s)
  }

  function Execute(s: State, schedule: seq<Thread>): State {
    if schedule == [] then s else Next(Execute(s, schedule[..|schedule| - 1]), schedule[|schedule| - 1])
  }

  function InHand(m: Option<Message>): seq<Message> {
    if m == None then [] else [m.value]
  }

  function OrderInHand(pc: OmsPc): seq<Message> {
    if pc.Journaling? || pc.Sending? then [pc.order] else []
  }

  function ResponseAtOms(pc: OmsPc): seq<Message> {
    if pc.Recording? then [pc.response] else []
  }

  /** The journaled orders (responses), in journal order. */
  function Journaled(journal: seq<Entry>, intents: bool): seq<Message> {
    if journal == [] then []
    else
      var n := |journal| - 1;
      var before := Journaled(journal[..n], intents);
      if journal[n].kind.OrderIntent? == intents then before + [journal[n].message] else before
  }

  /** The order manager had it seen the same signals and no response yet, and the orders it made. */
  function Staged(s: State): (OmsState, seq<Message>) {
    Run(OmsStage, Start(s.limits, s.available).oms, s.toOms.popped)
  }

  ghost predicate QueuesConserve(s: State) {
    Conserves(s.toStrategy) && Conserves(s.toOms) && Conserves(s.toGateway) && Conserves(s.fromGateway)
  }

  /** Each stage has emitted, or holds in its hand, exactly its sequential output on what it popped. */
  ghost predicate StagesAgree(s: State) {
    var start := Start(s.limits, s.available);
    && s.next <= |s.events| && s.toStrategy.offered == s.events[..s.next]
    && (s.strategy, s.toOms.offered + InHand(s.signalInHand))
       == Run(StrategyStage, start.strategy, s.toStrategy.popped)
    && s.toGateway.offered + OrderInHand(s.omsPc) == Staged(s).1
    && s.oms == OnResponses(Staged(s).0, s.answered)
    && (s.gateway, s.fromGateway.offered + InHand(s.responseInHand))
       == Run(GatewayStage, start.gateway, s.toGateway.popped)
    && s.fromGateway.popped == s.answered + ResponseAtOms(s.omsPc)
  }

  ghost predicate IntentBefore(journal: seq<Entry>, i: nat)
    requires i < |journal|
  {
    exists j :: 0 <= j < i && journal[j].kind.OrderIntent? && ClientId(journal[j].message) == ClientId(journal[i].message)
  }

  /** A record says what it holds: an order, the gateway's ack or its reject. */
  predicate RightKind(e: Entry) {
    && (e.kind == OrderIntent <==> e.message.NewOrderMsg?)
    && (e.kind == GatewayAck <==> e.message.AckMsg?)
    && (e.kind == GatewayReject <==> e.message.RejectMsg?)
  }

  /** The journal holds an intent for every order before it is sent, and every response after its intent. */
  ghost predicate JournalAgrees(s: State) {
    && s.journalSequence == |s.journal|
    && (forall i :: 0 <= i < |s.journal| ==> s.journal[i].sequence == i + 1 && RightKind(s.journal[i]))
    && (forall m :: m in OrderInHand(s.omsPc) ==> m.NewOrderMsg?)
    && (forall m :: m in ResponseAtOms(s.omsPc) ==> IsResponse(m))
    && Journaled(s.journal, true) == s.toGateway.offered + (if s.omsPc.Sending? then [s.omsPc.order] else [])
    && Journaled(s.journal, false) == s.answered
    && (forall i :: 0 <= i < |s.journal| && !s.journal[i].kind.OrderIntent? ==> IntentBefore(s.journal, i))
  }

  ghost predicate Invariant(s: State) {
    QueuesConserve(s) && StagesAgree(s) && JournalAgrees(s)
  }

  ghost predicate Increasing(ms: seq<Message>) {
    forall i, j :: 0 <= i < j < |ms| ==> ClientId(ms[i]) < ClientId(ms[j])
  }

  lemma InterleavesMembers(all: seq<Message>, a: seq<Message>, b: seq<Message>)
    requires Interleaves(all, a, b)
    ensures forall m :: m in a || m in b ==> m in all
  {
    InterleavesCounts(all, a, b);
    forall m | m in a || m in b ensures m in all {
      assert m in multiset(a) || m in multiset(b);
      assert m in multiset(all);
    }
  }

  lemma IncreasingOneMore(front: seq<Message>, ms: seq<Message>, all: seq<Message>)
    requires ms != [] && all != [] && front == ms[..|ms| - 1] && ms[|ms| - 1] == all[|all| - 1]
    requires Increasing(front) && Increasing(all) && forall m :: m in front ==> m in all[..|all| - 1]
    ensures Increasing(ms)
  {
    forall i, j | 0 <= i < j < |ms| ensures ClientId(ms[i]) < ClientId(ms[j]) {
      if j < |front| {
        assert ClientId(front[i]) < ClientId(front[j]);
      } else {
        assert front[i] in front;
        var k :| 0 <= k < |all| - 1 && all[k] == ms[i];
      }
    }
  }

  /** What passes a queue keeps its order. */
  lemma {:induction false} InterleavesIncreasing(all: seq<Message>, a: seq<Message>, b: seq<Message>)
    requires Interleaves(all, a, b) && Increasing(all)
    ensures Increasing(a) && Increasing(b)
  {
    if all != [] {
      var n := |all| - 1;
      if a != [] && a[|a| - 1] == all[n] && Interleaves(all[..n], a[..|a| - 1], b) {
        InterleavesIncreasing(all[..n], a[..|a| - 1], b);
        InterleavesMembers(all[..n], a[..|a| - 1], b);
        IncreasingOneMore(a[..|a| - 1], a, all);
      } else {
        InterleavesIncreasing(all[..n], a, b[..|b| - 1]);
        InterleavesMembers(all[..n], a, b[..|b| - 1]);
        IncreasingOneMore(b[..|b| - 1], b, all);
      }
    }
  }

  /** Facts every reachable state has about ids: orders are numbered, and responses are about orders
      already made and already journaled. */
  ghost predicate IdsAgree(s: State) {
    && Answerable(Staged(s).0, Staged(s).1) && Increasing(Staged(s).1)
    && AllOrders(s.toGateway.popped) && Increasing(s.toGateway.popped)
    && (forall m :: m in s.toGateway.popped ==> m in s.toGateway.offered)
    && (forall i :: 0 <= i < |s.fromGateway.offered| ==>
          IsResponse(s.fromGateway.offered[i]) && i < |s.toGateway.popped|
          && ClientId(s.fromGateway.offered[i]) == ClientId(s.toGateway.popped[i]))
    && Increasing(s.fromGateway.offered) && Increasing(s.fromGateway.pushed)
    && (forall m :: m in s.fromGateway.pushed ==> m in s.fromGateway.offered)
  }

  lemma IdsFollow(s: State)
    requires QueuesConserve(s) && StagesAgree(s)
    ensures IdsAgree(s)
  {
    var start := Start(s.limits, s.available);
    OrdersAreNumbered(start.oms, s.toOms.popped);
    var orders := Staged(s).1;
    hide Run, Interleaves, OmsStage, GatewayStage;
    assert s.toGateway.offered == orders[..|s.toGateway.offered|];
    InterleavesIncreasing(s.toGateway.offered, s.toGateway.pushed, s.toGateway.refused);
    InterleavesMembers(s.toGateway.offered, s.toGateway.pushed, s.toGateway.refused);
    assert s.toGateway.popped == s.toGateway.pushed[..|s.toGateway.popped|];
    forall m | m in s.toGateway.popped ensures m in s.toGateway.offered { assert m in s.toGateway.pushed; }
    forall i | 0 <= i < |s.toGateway.popped| ensures s.toGateway.popped[i].NewOrderMsg? {
      assert s.toGateway.popped[i] in s.toGateway.popped;
      var k :| 0 <= k < |s.toGateway.offered| && s.toGateway.offered[k] == s.toGateway.popped[i];
      assert orders[k].NewOrderMsg?;
    }
    GatewayAnswersInOrder(start.gateway, s.toGateway.popped);
    var responses := Run(GatewayStage, start.gateway, s.toGateway.popped).1;
    assert s.fromGateway.offered == responses[..|s.fromGateway.offered|];
    assert Increasing(responses);
    InterleavesIncreasing(s.fromGateway.offered, s.fromGateway.pushed, s.fromGateway.refused);
    InterleavesMembers(s.fromGateway.offered, s.fromGateway.pushed, s.fromGateway.refused);
  }

  /** A response that has left the gateway's queue is about an order offered to the gateway. */
  lemma ResponseHasOrder(s: State, m: Message) returns (order: Message)
    requires QueuesConserve(s) && StagesAgree(s) && m in s.fromGateway.pushed
    ensures IsResponse(m) && order in s.toGateway.offered && order.NewOrderMsg? && ClientId(order) == ClientId(m)
    ensures ClientId(m) < Staged(s).0.nextClientId
  {
    IdsFollow(s);
    var i :| 0 <= i < |s.fromGateway.offered| && s.fromGateway.offered[i] == m;
    order := s.toGateway.popped[i];
    assert order in s.toGateway.popped;
    var k :| 0 <= k < |s.toGateway.offered| && s.toGateway.offered[k] == order;
    assert Staged(s).1[k] == order;
  }

  lemma AnsweredIsSettled(s: State)
    requires QueuesConserve(s) && StagesAgree(s)
    ensures Settled(Staged(s).0, s.answered)
  {
    forall i | 0 <= i < |s.answered|
      ensures IsResponse(s.answered[i]) && ClientId(s.answered[i]) < Staged(s).0.nextClientId
    {
      assert s.fromGateway.pushed[i] == s.fromGateway.popped[i] == s.answered[i];
      assert s.answered[i] in s.fromGateway.pushed;
      var _ := ResponseHasOrder(s, s.answered[i]);
    }
  }

  lemma {:induction false} JournaledContains(journal: seq<Entry>, m: Message) returns (j: nat)
    requires m in Journaled(journal, true)
    ensures j < |journal| && journal[j].kind.OrderIntent? && journal[j].message == m
  {
    var n := |journal| - 1;
    if journal[n].kind.OrderIntent? && journal[n].message == m {
      j := n;
    } else {
      j := JournaledContains(journal[..n], m);
    }
  }

  lemma MarketDataKeeps(s: State)
    requires Invariant(s)
    ensures Invariant(MarketDataStep(s))
  {
    hide Run, Interleaves, Journaled, OnResponses, IntentBefore;
    if s.next < |s.events| {
      PushConserves(s.toStrategy, s.events[s.next]);
      assert s.events[..s.next + 1] == s.events[..s.next] + [s.events[s.next]];
    }
  }

  lemma StrategyKeeps(s: State)
    requires Invariant(s)
    ensures Invariant(StrategyStep(s))
  {
    hide Run, Interleaves, Journaled, OnResponses, IntentBefore, StrategyStage;
    var t := StrategyStep(s);
    if s.signalInHand.Some? {
      PushConserves(s.toOms, s.signalInHand.value);
      assert t.toOms.offered + [] == s.toOms.offered + InHand(s.signalInHand);
    } else if s.toStrategy.items != [] {
      PopConserves(s.toStrategy);
      RunOneMore(StrategyStage, Start(s.limits, s.available).strategy, s.toStrategy.popped, s.toStrategy.items[0]);
      assert s.toOms.offered + [] == s.toOms.offered;
      assert t.toOms.offered + InHand(t.signalInHand) == Emit(s.toOms.offered, t.signalInHand);
    }
  }

  lemma GatewayKeeps(s: State)
    requires Invariant(s)
    ensures Invariant(GatewayStep(s))
  {
    hide Run, Interleaves, Journaled, OnResponses, IntentBefore, GatewayStage;
    var t := GatewayStep(s);
    if s.responseInHand.Some? {
      PushConserves(s.fromGateway, s.responseInHand.value);
      assert t.fromGateway.offered + [] == s.fromGateway.offered + InHand(s.responseInHand);
    } else if s.toGateway.items != [] {
      PopConserves(s.toGateway);
      RunOneMore(GatewayStage, Start(s.limits, s.available).gateway, s.toGateway.popped, s.toGateway.items[0]);
      assert s.fromGateway.offered + [] == s.fromGateway.offered;
      assert t.fromGateway.offered + InHand(t.responseInHand) == Emit(s.fromGateway.offered, t.responseInHand);
    }
  }

  lemma JournalOneMore(journal: seq<Entry>, e: Entry)
    ensures Journaled(journal + [e], true) == Journaled(journal, true) + if e.kind.OrderIntent? then [e.message] else []
    ensures Journaled(journal + [e], false) == Journaled(journal, false) + if e.kind.OrderIntent? then [] else [e.message]
    ensures forall i :: 0 <= i < |journal| && IntentBefore(journal, i) ==> IntentBefore(journal + [e], i)
  {
    assert (journal + [e])[..|journal|] == journal;
    forall i | 0 <= i < |journal| && IntentBefore(journal, i) ensures IntentBefore(journal + [e], i) {
      var j :| 0 <= j < i && journal[j].kind.OrderIntent? && ClientId(journal[j].message) == ClientId(journal[i].message);
      assert (journal + [e])[j].kind.OrderIntent?;
    }
  }

  lemma SignalReadKeeps(s: State)
    requires Invariant(s) && s.omsPc.ReadingSignal? && s.toOms.items != []
    ensures Invariant(OmsStep(s))
  {
    hide Run, Interleaves, Journaled, OnResponses, OnSignal, IntentBefore;
    var start, m := Start(s.limits, s.available), s.toOms.items[0];
    PopConserves(s.toOms);
    RunOneMore(OmsStage, start.oms, s.toOms.popped, m);
    if m.SignalMsg? {
      AnsweredIsSettled(s);
      SignalCommutesWithResponses(Staged(s).0, s.answered, m.signal);
    }
    assert s.toGateway.offered + [] == s.toGateway.offered;
  }

  lemma IntentKeeps(s: State)
    requires Invariant(s) && s.omsPc.Journaling?
    ensures Invariant(OmsStep(s))
  {
    hide Run, Interleaves, Conserves, Journaled, OnResponses, IntentBefore, ClientId;
    assert s.omsPc.order in OrderInHand(s.omsPc);
    var e := Entry(OrderIntent, s.omsPc.order, s.journalSequence + 1);
    assert RightKind(e);
    JournalOneMore(s.journal, e);
    assert Journaled(s.journal, false) + [] == Journaled(s.journal, false);
    assert s.toGateway.offered + [] == s.toGateway.offered;
    assert s.answered + [] == s.answered;
  }

  lemma SendKeeps(s: State)
    requires Invariant(s) && s.omsPc.Sending?
    ensures Invariant(OmsStep(s))
  {
    hide Run, Interleaves, Journaled, OnResponses, IntentBefore;
    PushConserves(s.toGateway, s.omsPc.order);
    assert OmsStep(s).toGateway.offered + [] == s.toGateway.offered + [s.omsPc.order];
  }

  lemma ResponseReadKeeps(s: State)
    requires Invariant(s) && s.omsPc.ReadingResponse? && s.fromGateway.items != []
    ensures Invariant(OmsStep(s))
  {
    hide Run, Interleaves, Journaled, OnResponses, IntentBefore;
    var m := s.fromGateway.items[0];
    assert s.fromGateway.pushed[|s.fromGateway.popped|] == m;
    var _ := ResponseHasOrder(s, m);
    PopConserves(s.fromGateway);
  }

  /** The response being recorded has its intent in the journal already. */
  lemma RecordedIntent(s: State, e: Entry)
    requires Invariant(s) && s.omsPc.Recording? && e.message == s.omsPc.response
    ensures IntentBefore(s.journal + [e], |s.journal|)
  {
    hide Run, Interleaves, Journaled, OnResponses;
    var m := s.omsPc.response;
    assert s.fromGateway.popped[|s.answered|] == s.fromGateway.pushed[|s.answered|] == m;
    var order := ResponseHasOrder(s, m);
    var j := JournaledContains(s.journal, order);
    assert (s.journal + [e])[j] == s.journal[j];
  }

  lemma RecordKeeps(s: State)
    requires Invariant(s) && s.omsPc.Recording?
    ensures Invariant(OmsStep(s))
  {
    hide Run, Interleaves, Journaled, IntentBefore, OnResponses, OnResponse;
    var m := s.omsPc.response;
    assert m in ResponseAtOms(s.omsPc);
    OneMoreResponse(Staged(s).0, s.answered, m);
    var e := Entry(if m.AckMsg? then GatewayAck else GatewayReject, m, s.journalSequence + 1);
    JournalOneMore(s.journal, e);
    RecordedIntent(s, e);
    assert Journaled(s.journal, true) + [] == Journaled(s.journal, true);
    assert s.answered + [m] + [] == s.answered + [m];
  }

  lemma EmptyReadKeeps(s: State)
    requires Invariant(s)
    requires (s.omsPc.ReadingSignal? && s.toOms.items == []) || (s.omsPc.ReadingResponse? && s.fromGateway.items == [])
    ensures Invariant(OmsStep(s))
  {
    hide Run, Interleaves, Conserves, Journaled, IntentBefore, OnResponses;
  }

  lemma OmsKeeps(s: State)
    requires Invariant(s)
    ensures Invariant(OmsStep(s))
  {
    hide Invariant;
    match s.omsPc
    case ReadingSignal => if s.toOms.items != [] { SignalReadKeeps(s); } else { EmptyReadKeeps(s); }
    case Journaling(_) => IntentKeeps(s);
    case Sending(_) => SendKeeps(s);
    case ReadingResponse => if s.fromGateway.items != [] { ResponseReadKeeps(s); } else { EmptyReadKeeps(s); }
    case Recording(_) => RecordKeeps(s);
  }

  lemma NextKeeps(s: State, thread: Thread)
    requires Invariant(s)
    ensures Invariant(Next(s, thread))
  {
    hide MarketDataStep, StrategyStep, OmsStep, GatewayStep, Invariant;
    match thread
    case MarketDataThread => MarketDataKeeps(s);
    case StrategyThread => StrategyKeeps(s);
    case OmsThread => OmsKeeps(s);
    case GatewayThread => GatewayKeeps(s);
  }

  lemma NextKeepsInputs(s: State, thread: Thread)
    ensures var t := Next(s, thread); t.events == s.events && t.limits == s.limits && t.available == s.available
  {
  }

  lemma {:induction false} ReachableInvariant(s: State, schedule: seq<Thread>)
    requires Invariant(s)
    ensures Invariant(Execute(s, schedule))
    ensures var t := Execute(s, schedule);
      t.events == s.events && t.limits == s.limits && t.available == s.available
  {
    hide Invariant, Next;
    if schedule != [] {
      var n := |schedule| - 1;
      ReachableInvariant(s, schedule[..n]);
      NextKeeps(Execute(s, schedule[..n]), schedule[n]);
      NextKeepsInputs(Execute(s, schedule[..n]), schedule[n]);
    }
  }

  lemma InitInvariant(events: seq<Message>, limits: RiskLimits, available: bool, room: nat)
    ensures Invariant(Init(events, limits, available, room))
  {
    var s, start := Init(events, limits, available, room), Start(limits, available);
    hide StrategyStage, OmsStage, GatewayStage;
    assert events[..0] == [];
    assert Run(StrategyStage, start.strategy, s.toStrategy.popped) == (start.strategy, []);
    assert Staged(s) == (start.oms, []);
    assert Run(GatewayStage, start.gateway, s.toGateway.popped) == (start.gateway, []);
  }
}
