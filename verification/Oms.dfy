/** The order manager: ids, risk check and the set of live orders. */
module Oms {
  import opened Messages
  import opened Risk

  datatype OmsState = OmsState(
    node: nat, limits: RiskLimits, position: int, nextClientId: nat, sequence: nat, live: set<nat>)

  function NewOms(node: nat, limits: RiskLimits): OmsState {
    OmsState(node, limits, 0, 1, 0, {})
  }

  function OrderFor(s: OmsState, signal: Signal): NewOrder {
    NewOrder(Header(s.node, 4, s.sequence + 1), s.nextClientId, signal.symbolId, signal.side, signal.limitPx, signal.qty)
  }

  /** A signal uses up one client id whether or not risk accepts the order; only an accepted order is live. */
  function OnSignal(s: OmsState, signal: Signal): (r: (OmsState, Message))
    ensures r.1.NewOrderMsg? || r.1.RejectMsg?
    ensures ClientId(r.1) == s.nextClientId < r.0.nextClientId
    ensures r.1.NewOrderMsg? ==>
      && WithinLimits(s.limits, s.position, r.1.order)
      && (r.1.order.symbolId, r.1.order.side, r.1.order.limitPx, r.1.order.qty)
         == (signal.symbolId, signal.side, signal.limitPx, signal.qty)
    ensures r.1.NewOrderMsg? <==> WithinLimits(s.limits, s.position, OrderFor(s, signal))
    ensures r.1.NewOrderMsg? ==> r.1.order.header == Header(s.node, 4, s.sequence + 1) && r.0.sequence == s.sequence + 1
    ensures r.1.RejectMsg? ==>
      && r.1.reject.reason == RiskLimit && r.1.reject.header == Header(s.node, signal.header.source, s.sequence + 2)
      && r.0.sequence == s.sequence + 2
    ensures r.0.live == s.live + if r.1.NewOrderMsg? then {s.nextClientId} else {}
    ensures r.0.nextClientId == s.nextClientId + 1
    ensures r.0.node == s.node && r.0.limits == s.limits && r.0.position == s.position
  {
    var order := OrderFor(s, signal);
    var s' := s.(nextClientId := s.nextClientId + 1, sequence := s.sequence + 1);
    if WithinLimits(s.limits, s.position, order) then
      (s'.(live := s.live + {order.clientOrderId}), NewOrderMsg(order))
    else
      (s'.(sequence := s.sequence + 2),
       RejectMsg(Reject(Header(s.node, signal.header.source, s.sequence + 2), order.clientOrderId, RiskLimit)))
  }

  /** A gateway response: an ack changes nothing, a reject ends the order. */
  function OnResponse(s: OmsState, m: Message): (t: OmsState)
    ensures t.live == s.live - if m.RejectMsg? then {ClientId(m)} else {}
    ensures t.(live := s.live) == s
  {
    if m.RejectMsg? then s.(live := s.live - {m.reject.clientOrderId}) else s
  }

  /** Responses commute with signals, except a response that runs ahead of its own order. */
  lemma ResponseCommutesWithSignal(s: OmsState, m: Message, signal: Signal)
    requires IsResponse(m)
    ensures OnSignal(OnResponse(s, m), signal).1 == OnSignal(s, signal).1
    ensures OnResponse(OnSignal(s, signal).0, m) == OnSignal(OnResponse(s, m), signal).0
        <==> !(m.RejectMsg? && OnSignal(s, signal).1.NewOrderMsg? && m.reject.clientOrderId == s.nextClientId)
  {
    var a, b := OnResponse(OnSignal(s, signal).0, m), OnSignal(OnResponse(s, m), signal).0;
    if m.RejectMsg? && OnSignal(s, signal).1.NewOrderMsg? {
      var id, next := m.reject.clientOrderId, s.nextClientId;
      assert a.live == s.live + {next} - {id} && b.live == s.live - {id} + {next};
      assert next in b.live;
      if id != next { assert a.live == b.live; }
    }
  }

  class OrderManager {
    const node: nat
    const risk: RiskEngine
    var nextClientId: nat
    var sequence: nat
    var live: set<nat>

    function View(): OmsState
      reads this, risk
    {
      OmsState(node, risk.limits, risk.position, nextClientId, sequence, live)
    }

    constructor (node: nat, limits: RiskLimits)
      ensures View() == NewOms(node, limits) && fresh(risk)
    {
      this.node := node;
      risk := new RiskEngine(limits);
      nextClientId, sequence, live := 1, 0, {};
    }

    method ProcessSignal(signal: Signal) returns (m: Message)
      modifies this
      ensures (View(), m) == OnSignal(old(View()), signal)
    {
      sequence := sequence + 1;
      var order :=
        NewOrder(Header(node, 4, sequence), nextClientId, signal.symbolId, signal.side, signal.limitPx, signal.qty);
      nextClientId := nextClientId + 1;
      var reason := risk.Check(order);
      if reason != NoReason {
        sequence := sequence + 1;
        return RejectMsg(Reject(Header(node, signal.header.source, sequence), order.clientOrderId, reason));
      }
      live := live + {order.clientOrderId};
      return NewOrderMsg(order);
    }

    method ProcessAck(ack: Ack) returns (m: Message)
      ensures m == AckMsg(ack) && View() == OnResponse(View(), m)
    {
      return AckMsg(ack);
    }

    method ProcessReject(reject: Reject) returns (m: Message)
      modifies this`live
      ensures m == RejectMsg(reject) && View() == OnResponse(old(View()), m)
    {
      live := live - {reject.clientOrderId};
      return RejectMsg(reject);
    }
  }
}
