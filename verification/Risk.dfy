/** Pre-trade limits. */
module Risk {
  import opened Messages

  datatype RiskLimits = RiskLimits(maxPosition: int, maxOrderQty: int, maxNotional: int)

  function Signed(side: Side, qty: int): int {
    if side == Buy then qty else -qty
  }

  /** The limits an accepted order keeps, given the position it adds to. */
  predicate WithinLimits(limits: RiskLimits, position: int, order: NewOrder) {
    && 0 < order.qty <= limits.maxOrderQty
    && order.qty * order.limitPx <= limits.maxNotional
    && -limits.maxPosition <= position + Signed(order.side, order.qty) <= limits.maxPosition
  }

  class RiskEngine {
    const limits: RiskLimits
    var position: int

    constructor (limits: RiskLimits)
      ensures this.limits == limits && position == 0
    {
      this.limits := limits;
      position := 0;
    }

    method Check(order: NewOrder) returns (reason: RejectReason)
      ensures reason == (if WithinLimits(limits, position, order) then NoReason else RiskLimit)
    {
      if order.qty <= 0 || order.qty > limits.maxOrderQty { return RiskLimit; }
      var notional := order.qty * order.limitPx;
      if notional > limits.maxNotional { return RiskLimit; }
      var projected := position + if order.side == Buy then order.qty else -order.qty;
      var magnitude := if projected < 0 then -projected else projected;
      if magnitude > limits.maxPosition { return RiskLimit; }
      return NoReason;
    }

    method OnFill(side: Side, fillQty: int)
      modifies this
      ensures position == old(position) + Signed(side, fillQty)
    {
      position := position + if side == Buy then fillQty else -fillQty;
    }
  }
}
