/** The order manager node and the gateway node in lock step over a connection, each of which may stop
    between any two steps. One run from an empty journal, with the gateway in simulated mode. */
module Distributed {
  import opened Gateway
  import opened Messages
  import opened Oms
  import opened Risk

  /** Where the order manager node stands in its loop. Stopped is a crash or a broken loop; a crash loses the
      order in hand if it was accepted but not journaled yet. */
  datatype OmsPc =
    | WaitingForSignal
    | Journaling(order: Message)
    | Sending(order: Message)
    | Awaiting
    | Recording(response: Message)
    | OmsStopped(lost: seq<Message>)

  datatype GatewayPc =
    | WaitingForOrder
    | Answering(order: Message)
    | Replying(response: Message)
    | GatewayStopped

  /** `consumed` records what the order manager received of what the strategy sends, `seen` and `replied` what
      the gateway received and answered. */
  datatype State = State(
    fromStrategy: seq<Message>, consumed: seq<Message>,
    oms: OmsState, omsPc: OmsPc, journal: seq<Entry>, journalSeq: nat,
    connected: bool, toGateway: seq<Message>, toOms: seq<Message>,
    gateway: GatewayState, gatewayPc: GatewayPc, responseSeq: nat,
    seen: seq<Message>, replied: seq<Message>)

  /** A step of a node, a crash of a node, or a loss of the connection together with what was in
      flight in either direction. `taken` says whether a send on a lost connection still looks fine. */
  datatype Action =
    | OmsStep(taken: bool)
    | GatewayStep(taken: bool)
    | CrashOms
    | CrashGateway
    | LoseConnection(losesOrder: bool, losesResponse: bool)

  function Init(fromStrategy: seq<Message>, limits: RiskLimits, available: bool): State {
    State(fromStrategy, [], NewOms(3, limits), WaitingForSignal, [], 0, true, [], [],
          NewGateway(4).(available := available), WaitingForOrder, 0, [], [])
  }

  function Journal(s: State, kind: EntryKind, m: Message): State {
    s.(journalSeq := s.journalSeq + 1, journal := s.journal + [Entry(kind, m, s.journalSeq + 1)])
  }

  /** The order accepted but not journaled, in hand or lost. */
  function Unjournaled(pc: OmsPc): seq<Message> {
    match pc
    case Journaling(order) => [order]
    case OmsStopped(lost) => lost
    case _ => []
  }

  function StopOms(s: State): State {
    s.(omsPc := OmsStopped(Unjournaled(s.omsPc)), connected := false)
  }

  function StopGateway(s: State): State {
    s.(gatewayPc := GatewayStopped, connected := false)
  }

  function NextOms(s: State, taken: bool): State {
    match s.omsPc
    case WaitingForSignal =>
      if s.fromStrategy == [] then StopOms(s)
      else
        var m := s.fromStrategy[0];
        var received := s.(fromStrategy := s.fromStrategy[1..], consumed := s.consumed + [m]);
        if !m.SignalMsg? then received
        else
          var (oms, out) := OnSignal(s.oms, m.signal);
          if out.RejectMsg? then received.(oms := oms) else received.(oms := oms, omsPc := Journaling(out))
    case Journaling(order) => Journal(s, OrderIntent, order).(omsPc := Sending(order))
    case Sending(order) =>
      if s.connected then s.(toGateway := s.toGateway + [order], omsPc := Awaiting)
      else if taken then s.(omsPc := Awaiting)
      else StopOms(s)
    case Awaiting =>
      if s.toOms != [] then s.(toOms := s.toOms[1..], omsPc := Recording(s.toOms[0]))
      else if s.connected then s
      else StopOms(s)
    case Recording(m) =>
      if m.AckMsg? || m.RejectMsg? then
        Journal(s, if m.AckMsg? then GatewayAck else GatewayReject, m)
          .(oms := OnResponse(s.oms, m), omsPc := WaitingForSignal)
      else s.(omsPc := WaitingForSignal)
    case OmsStopped(_) => s
  }

  /** The gateway node overwrites the sequence its simulated gateway chose. */
  function Renumbered(m: Message, sequence: nat): Message {
    match m
    case AckMsg(a) => AckMsg(a.(header := a.header.(sequence := sequence)))
    case RejectMsg(r) => RejectMsg(r.(header := r.header.(sequence := sequence)))
    case _ => m
  }

  function NextGateway(s: State, taken: bool): State {
    match s.gatewayPc
    case WaitingForOrder =>
      if s.toGateway == [] then if s.connected then s else StopGateway(s)
      else
        var m := s.toGateway[0];
        var received := s.(toGateway := s.toGateway[1..]);
        if !m.NewOrderMsg? then received else received.(seen := s.seen + [m], gatewayPc := Answering(m))
    case Answering(order) =>
      if !order.NewOrderMsg? then s
      else
        var (gateway, out) := SendOrder(s.gateway, order.order);
        var response := Renumbered(out, s.responseSeq + 1);
        s.(gateway := gateway, responseSeq := s.responseSeq + 1, replied := s.replied + [response],
           gatewayPc := Replying(response))
    case Replying(response) =>
      if s.connected then s.(toOms := s.toOms + [response], gatewayPc := WaitingForOrder)
      else if taken then s.(gatewayPc := WaitingForOrder)
      else StopGateway(s)
    case GatewayStopped => s
  }

  function Next(s: State, a: Action): State {
    match a
    case OmsStep(taken) => NextOms(s, taken)
    case GatewayStep(taken) => NextGateway(s, taken)
    case CrashOms => StopOms(s)
    case CrashGateway => StopGateway(s)
    case LoseConnection(losesOrder, losesResponse) =>
      s.(connected := false,
         toGateway := if losesOrder then [] else s.toGateway,
         toOms := if losesResponse then [] else s.toOms)
  }

  function Execute(s: State, schedule: seq<Action>): State {
    if schedule == [] then s else Next(Execute(s, schedule[..|schedule| - 1]), schedule[|schedule| - 1])
  }

  /** Records numbered 1..n, alternating an intent and the response to it, with increasing client ids:
      complete pairs and at most one trailing intent. */
  predicate Paired(journal: seq<Entry>) {
    && (forall i :: 0 <= i < |journal| ==> journal[i].sequence == i + 1)
    && (forall i :: 0 <= i < |journal| && i % 2 == 0 ==>
          journal[i].kind.OrderIntent? && journal[i].message.NewOrderMsg?)
    && (forall i :: 0 <= i < |journal| && i % 2 == 1 ==>
          && ClientId(journal[i].message) == ClientId(journal[i - 1].message)
          && IsResponse(journal[i].message)
          && journal[i].kind == (if journal[i].message.AckMsg? then GatewayAck else GatewayReject))
    && (forall i, j :: 0 <= i < j < |journal| && j % 2 == 0 ==>
          ClientId(journal[i].message) < ClientId(journal[j].message))
  }

  /** The gateway saw the journaled intents in order: all of them, or all but the last. */
  predicate SeenIsJournaled(journal: seq<Entry>, seen: seq<Message>) {
    && |journal| / 2 <= |seen| <= (|journal| + 1) / 2
    && (forall k :: 0 <= k < |seen| ==> seen[k] == journal[2 * k].message)
  }

  /** The gateway's answers, numbered 1..m, are what the journal records as responses, in order. */
  predicate RepliesMatch(journal: seq<Entry>, seen: seq<Message>, replied: seq<Message>) {
    && |journal| / 2 <= |replied| <= |seen|
    && (forall k :: 0 <= k < |replied| ==>
          && IsResponse(replied[k]) && ClientId(replied[k]) == ClientId(seen[k])
          && replied[k] == Renumbered(replied[k], k + 1))
    && (forall k :: 0 <= k < |journal| / 2 ==> journal[2 * k + 1].message == replied[k])
  }

  predicate AllBelow(journal: seq<Entry>, id: nat) {
    forall i :: 0 <= i < |journal| ==> ClientId(journal[i].message) < id
  }

  /** Nothing of the current order is on its way: neither message, nor work at the gateway. */
  predicate Quiet(s: State) {
    s.toGateway == [] && s.toOms == [] && (s.gatewayPc.WaitingForOrder? || s.gatewayPc.GatewayStopped?)
  }

  predicate Complete(s: State) {
    |s.journal| % 2 == 0
  }

  /** The message in transit, if any, belongs to the one unanswered intent. */
  predicate InTransit(s: State) {
    var n, last := |s.journal| / 2, |s.journal| - 1;
    && (s.toGateway != [] ==>
          && !Complete(s) && s.toGateway == [s.journal[last].message] && |s.seen| == n
          && s.toOms == [] && !s.gatewayPc.Answering? && !s.gatewayPc.Replying?)
    && (s.gatewayPc.Answering? ==>
          && !Complete(s) && s.gatewayPc.order == s.journal[last].message && |s.seen| == n + 1 && |s.replied| == n
          && s.toOms == [])
    && (s.gatewayPc.Replying? ==>
          !Complete(s) && |s.replied| == n + 1 && s.gatewayPc.response == s.replied[n] && s.toOms == [])
    && (s.toOms != [] ==> !Complete(s) && |s.replied| == n + 1 && s.toOms == [s.replied[n]])
  }

  ghost predicate Invariant(s: State) {
    var n, last := |s.journal| / 2, |s.journal| - 1;
    && Paired(s.journal) && s.journalSeq == |s.journal| && AllBelow(s.journal, s.oms.nextClientId)
    && SeenIsJournaled(s.journal, s.seen)
    && RepliesMatch(s.journal, s.seen, s.replied) && s.responseSeq == |s.replied|
    && InTransit(s)
    && (s.omsPc.WaitingForSignal? ==> Complete(s) && Quiet(s))
    && (s.omsPc.Journaling? ==>
          && Complete(s) && Quiet(s) && s.omsPc.order.NewOrderMsg?
          && ClientId(s.omsPc.order) < s.oms.nextClientId && AllBelow(s.journal, ClientId(s.omsPc.order)))
    && (s.omsPc.Sending? ==>
          && !Complete(s) && Quiet(s) && s.omsPc.order == s.journal[last].message && |s.seen| == n)
    && (s.omsPc.Awaiting? ==> !Complete(s))
    && (s.omsPc.Recording? ==>
          && !Complete(s) && Quiet(s) && |s.replied| == n + 1 && s.omsPc.response == s.replied[n])
  }

  lemma AddIntent(journal: seq<Entry>, e: Entry, seen: seq<Message>, replied: seq<Message>, limit: nat)
    requires Paired(journal) && |journal| % 2 == 0
    requires e.kind.OrderIntent? && e.message.NewOrderMsg? && e.sequence == |journal| + 1
    requires AllBelow(journal, ClientId(e.message)) && ClientId(e.message) < limit
    requires SeenIsJournaled(journal, seen) && RepliesMatch(journal, seen, replied)
    ensures Paired(journal + [e]) && AllBelow(journal + [e], limit)
    ensures SeenIsJournaled(journal + [e], seen) && RepliesMatch(journal + [e], seen, replied)
    ensures |seen| == |journal| / 2 == (|journal| + 1) / 2
  {
    hide Renumbered;
  }

  lemma AddResponse(journal: seq<Entry>, e: Entry, seen: seq<Message>, replied: seq<Message>, limit: nat)
    requires Paired(journal) && |journal| % 2 == 1 && AllBelow(journal, limit)
    requires SeenIsJournaled(journal, seen) && RepliesMatch(journal, seen, replied)
    requires |replied| == |journal| / 2 + 1 && e.message == replied[|journal| / 2]
    requires e.kind == (if e.message.AckMsg? then GatewayAck else GatewayReject) && e.sequence == |journal| + 1
    ensures Paired(journal + [e]) && AllBelow(journal + [e], limit)
    ensures SeenIsJournaled(journal + [e], seen) && RepliesMatch(journal + [e], seen, replied)
  {
    hide Renumbered, Paired;
    var n, last := |journal| / 2, |journal| - 1;
    assert seen[n] == journal[2 * n].message;
    assert IsResponse(e.message) && ClientId(e.message) == ClientId(journal[last].message);
    hide RepliesMatch, AllBelow;
    CompletePair(journal, e);
    AnswerRecorded(journal, e, seen, replied);
    assert ClientId(journal[last].message) < limit by { LastIsBelow(journal, limit); }
    BelowOneMore(journal, e, limit);
  }

  lemma LastIsBelow(journal: seq<Entry>, limit: nat)
    requires AllBelow(journal, limit) && journal != []
    ensures ClientId(journal[|journal| - 1].message) < limit
  {
  }

  lemma BelowOneMore(journal: seq<Entry>, e: Entry, limit: nat)
    requires AllBelow(journal, limit) && ClientId(e.message) < limit
    ensures AllBelow(journal + [e], limit)
  {
  }

  lemma CompletePair(journal: seq<Entry>, e: Entry)
    requires Paired(journal) && |journal| % 2 == 1 && e.sequence == |journal| + 1
    requires IsResponse(e.message) && ClientId(e.message) == ClientId(journal[|journal| - 1].message)
    requires e.kind == (if e.message.AckMsg? then GatewayAck else GatewayReject)
    ensures Paired(journal + [e])
  {
    hide ClientId;
  }

  lemma AnswerRecorded(journal: seq<Entry>, e: Entry, seen: seq<Message>, replied: seq<Message>)
    requires |journal| % 2 == 1 && SeenIsJournaled(journal, seen) && RepliesMatch(journal, seen, replied)
    requires |replied| == |journal| / 2 + 1 && e.message == replied[|journal| / 2]
    ensures SeenIsJournaled(journal + [e], seen) && RepliesMatch(journal + [e], seen, replied)
  {
    hide Renumbered, ClientId;
  }

  lemma AddSeen(journal: seq<Entry>, seen: seq<Message>, replied: seq<Message>)
    requires SeenIsJournaled(journal, seen) && RepliesMatch(journal, seen, replied)
    requires |journal| % 2 == 1 && |seen| == |journal| / 2
    ensures var more := seen + [journal[|journal| - 1].message];
      SeenIsJournaled(journal, more) && RepliesMatch(journal, more, replied) && |replied| == |journal| / 2
  {
    hide Renumbered;
  }

  lemma AddReply(journal: seq<Entry>, seen: seq<Message>, replied: seq<Message>, m: Message)
    requires RepliesMatch(journal, seen, replied) && |replied| < |seen|
    requires IsResponse(m) && ClientId(m) == ClientId(seen[|replied|])
    ensures RepliesMatch(journal, seen, replied + [Renumbered(m, |replied| + 1)])
  {
  }

  lemma SignalKeeps(s: State, taken: bool)
    requires Invariant(s) && s.omsPc.WaitingForSignal?
    ensures Invariant(NextOms(s, taken))
  {
    hide Paired, SeenIsJournaled, RepliesMatch, OnSignal;
  }

  lemma IntentKeeps(s: State, taken: bool)
    requires Invariant(s) && s.omsPc.Journaling?
    ensures Invariant(NextOms(s, taken))
  {
    hide Paired, SeenIsJournaled, RepliesMatch, AllBelow;
    AddIntent(s.journal, Entry(OrderIntent, s.omsPc.order, s.journalSeq + 1), s.seen, s.replied, s.oms.nextClientId);
  }

  lemma ReplyIsResponse(journal: seq<Entry>, seen: seq<Message>, replied: seq<Message>, k: nat)
    requires RepliesMatch(journal, seen, replied) && k < |replied|
    ensures IsResponse(replied[k])
  {
  }

  lemma RecordKeeps(s: State, taken: bool)
    requires Invariant(s) && s.omsPc.Recording?
    ensures Invariant(NextOms(s, taken))
  {
    hide Paired, SeenIsJournaled, RepliesMatch, AllBelow;
    var m := s.omsPc.response;
    ReplyIsResponse(s.journal, s.seen, s.replied, |s.journal| / 2);
    AddResponse(s.journal, Entry(if m.AckMsg? then GatewayAck else GatewayReject, m, s.journalSeq + 1),
                s.seen, s.replied, s.oms.nextClientId);
  }

  lemma SendOrAwaitKeeps(s: State, taken: bool)
    requires Invariant(s) && (s.omsPc.Sending? || s.omsPc.Awaiting? || s.omsPc.OmsStopped?)
    ensures Invariant(NextOms(s, taken))
  {
    hide Paired, SeenIsJournaled, RepliesMatch, AllBelow;
  }

  lemma NextOmsKeeps(s: State, taken: bool)
    requires Invariant(s)
    ensures Invariant(NextOms(s, taken))
  {
    hide Invariant, NextOms;
    match s.omsPc
    case WaitingForSignal => SignalKeeps(s, taken);
    case Journaling(_) => IntentKeeps(s, taken);
    case Recording(_) => RecordKeeps(s, taken);
    case _ => SendOrAwaitKeeps(s, taken);
  }

  lemma OrderArrives(s: State, taken: bool)
    requires Invariant(s) && s.gatewayPc.WaitingForOrder?
    ensures Invariant(NextGateway(s, taken))
  {
    hide Paired, SeenIsJournaled, RepliesMatch, AllBelow;
    if s.toGateway != [] {
      AddSeen(s.journal, s.seen, s.replied);
      assert s.toGateway[1..] == [];
    }
  }

  lemma AnsweringKnowsOrder(s: State)
    requires Invariant(s) && s.gatewayPc.Answering?
    ensures |s.replied| < |s.seen| && s.seen[|s.replied|] == s.gatewayPc.order
  {
    hide Paired, RepliesMatch, AllBelow;
  }

  lemma OrderIsAnswered(s: State, taken: bool)
    requires Invariant(s) && s.gatewayPc.Answering?
    ensures Invariant(NextGateway(s, taken))
  {
    hide Paired, SeenIsJournaled, RepliesMatch, AllBelow, SendOrder, Renumbered;
    if s.gatewayPc.order.NewOrderMsg? {
      AnsweringKnowsOrder(s);
      AddReply(s.journal, s.seen, s.replied, SendOrder(s.gateway, s.gatewayPc.order.order).1);
    }
  }

  lemma ReplyLeaves(s: State, taken: bool)
    requires Invariant(s) && (s.gatewayPc.Replying? || s.gatewayPc.GatewayStopped?)
    ensures Invariant(NextGateway(s, taken))
  {
    hide Paired, SeenIsJournaled, RepliesMatch, AllBelow;
  }

  lemma NextGatewayKeeps(s: State, taken: bool)
    requires Invariant(s)
    ensures Invariant(NextGateway(s, taken))
  {
    hide Invariant, NextGateway;
    match s.gatewayPc
    case WaitingForOrder => OrderArrives(s, taken);
    case Answering(_) => OrderIsAnswered(s, taken);
    case _ => ReplyLeaves(s, taken);
  }

  lemma FailureKeeps(s: State, a: Action)
    requires Invariant(s) && !a.OmsStep? && !a.GatewayStep?
    ensures Invariant(Next(s, a))
  {
    hide Paired, SeenIsJournaled, RepliesMatch, AllBelow;
  }

  lemma NextKeeps(s: State, a: Action)
    requires Invariant(s)
    ensures Invariant(Next(s, a))
  {
    hide Invariant, NextOms, NextGateway;
    match a
    case OmsStep(taken) => NextOmsKeeps(s, taken);
    case GatewayStep(taken) => NextGatewayKeeps(s, taken);
    case _ => FailureKeeps(s, a);
  }

  lemma {:induction false} ReachableInvariant(s: State, schedule: seq<Action>)
    requires Invariant(s)
    ensures Invariant(Execute(s, schedule))
  {
    hide Invariant;
    if schedule != [] {
      var n := |schedule| - 1;
      ReachableInvariant(s, schedule[..n]);
      NextKeeps(Execute(s, schedule[..n]), schedule[n]);
    }
  }

  /** At most one order in doubt, after any schedule of steps, crashes and losses: the journal is a list
      of matching pairs with at most one trailing intent; the gateway saw exactly the journaled orders, up
      to that last one; and every recorded response is the gateway's answer to that order. */
  lemma AtMostOneInDoubt(fromStrategy: seq<Message>, limits: RiskLimits, available: bool, schedule: seq<Action>)
    ensures var s := Execute(Init(fromStrategy, limits, available), schedule);
      Paired(s.journal) && SeenIsJournaled(s.journal, s.seen) && RepliesMatch(s.journal, s.seen, s.replied)
  {
    assert Invariant(Init(fromStrategy, limits, available));
    hide Execute;
    ReachableInvariant(Init(fromStrategy, limits, available), schedule);
  }

  /** The shape survives the loss of any tail of the journal. */
  lemma PrefixStaysPaired(journal: seq<Entry>, cut: nat)
    requires Paired(journal) && cut <= |journal|
    ensures Paired(journal[..cut])
  {
  }
}
