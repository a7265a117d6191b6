/** The simulated exchange gateway. */
module Gateway {
  import opened Messages

  datatype GatewayState = GatewayState(node: nat, available: bool, nextExchangeId: nat, sequence: nat)

  function NewGateway(node: nat): GatewayState {
    GatewayState(node, true, 1000, 0)
  }

  /** One response per order, numbered consecutively; only acks use up an exchange id. */
  function SendOrder(g: GatewayState, order: NewOrder): (r: (GatewayState, Message))
    ensures IsResponse(r.1) && ClientId(r.1) == order.clientOrderId
    ensures r.1.AckMsg? <==> g.available
    ensures var header := if r.1.AckMsg? then r.1.ack.header else r.1.reject.header;
      header.source == g.node && header.destination == order.header.source && header.sequence == r.0.sequence == g.sequence + 1
    ensures r.1.AckMsg? ==> r.1.ack.exchangeOrderId == g.nextExchangeId && r.0.nextExchangeId == g.nextExchangeId + 1
    ensures r.1.RejectMsg? ==> r.1.reject.reason == GatewayUnavailable && r.0.nextExchangeId == g.nextExchangeId
    ensures r.0.node == g.node && r.0.available == g.available
  {
    var header := Header(g.node, order.header.source, g.sequence + 1);
    var g' := g.(sequence := g.sequence + 1);
    if g.available then
      (g'.(nextExchangeId := g.nextExchangeId + 1), AckMsg(Ack(header, order.clientOrderId, g.nextExchangeId)))
    else (g', RejectMsg(Reject(header, order.clientOrderId, GatewayUnavailable)))
  }

  class ExchangeGateway {
    const node: nat
    var available: bool
    var nextExchangeId: nat
    var sequence: nat

    function View(): GatewayState
      reads this
    {
      GatewayState(node, available, nextExchangeId, sequence)
    }

    constructor (node: nat)
      ensures View() == NewGateway(node)
    {
      this.node := node;
      available, nextExchangeId, sequence := true, 1000, 0;
    }

    method SetAvailable(value: bool)
      modifies this`available
      ensures available == value
    {
      available := value;
    }

    method Send(order: NewOrder) returns (m: Message)
      modifies this`nextExchangeId, this`sequence
      ensures (View(), m) == SendOrder(old(View()), order)
    {
      sequence := sequence + 1;
      if !available {
        return RejectMsg(Reject(Header(node, order.header.source, sequence), order.clientOrderId, GatewayUnavailable));
      }
      var id := nextExchangeId;
      nextExchangeId := nextExchangeId + 1;
      return AckMsg(Ack(Header(node, order.header.source, sequence), order.clientOrderId, id));
    }
  }
}
