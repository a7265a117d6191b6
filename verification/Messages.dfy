/** The messages of the order path. Timestamps are left out: messages are compared without them. */
module Messages {
  datatype Side = Buy | Sell

  datatype Header = Header(source: nat, destination: nat, sequence: nat)

  datatype MarketData = MarketData(
    header: Header, symbolId: nat, symbol: string,
    bidPx: int, bidQty: int, askPx: int, askQty: int, exchangeSequence: nat)

  datatype Signal = Signal(header: Header, symbolId: nat, side: Side, limitPx: int, qty: int, confidenceBps: int)

  datatype NewOrder = NewOrder(
    header: Header, clientOrderId: nat, symbolId: nat, side: Side, limitPx: int, qty: int)

  datatype Ack = Ack(header: Header, clientOrderId: nat, exchangeOrderId: nat)

  datatype RejectReason = NoReason | RiskLimit | GatewayUnavailable

  datatype Reject = Reject(header: Header, clientOrderId: nat, reason: RejectReason)

  datatype Message =
    | MarketDataMsg(update: MarketData)
    | SignalMsg(signal: Signal)
    | NewOrderMsg(order: NewOrder)
    | AckMsg(ack: Ack)
    | RejectMsg(reject: Reject)
    | FillMsg(fillClientOrderId: nat)
    | OtherMsg

  predicate IsResponse(m: Message) {
    m.AckMsg? || m.RejectMsg?
  }

  /** The client order id an order-path message is about. */
  function ClientId(m: Message): nat {
    match m
    case NewOrderMsg(o) => o.clientOrderId
    case AckMsg(a) => a.clientOrderId
    case RejectMsg(r) => r.clientOrderId
    case _ => 0
  }

  function ClientIds(ms: seq<Message>): (ids: seq<nat>)
    ensures |ids| == |ms|
  {
    seq(|ms|, i requires 0 <= i < |ms| => ClientId(ms[i]))
  }

  /** A journal record as the order path sees it. */
  datatype EntryKind = OrderIntent | GatewayAck | GatewayReject

  datatype Entry = Entry(kind: EntryKind, message: Message, sequence: nat)
}
