/** The spread strategy. */
module Strategy {
  import opened Messages
  import opened OrderBook
  import opened Wrappers

  datatype StrategyState = StrategyState(node: nat, book: Book, signals: nat)

  function OnMarketData(s: StrategyState, update: MarketData): (r: (StrategyState, Option<Signal>))
    ensures r.0.book == Apply(s.book, update) && r.0.book.Some?
    ensures r.1.Some? <==> r.0.book.value.askPx >= r.0.book.value.bidPx + 4
    ensures r.1.Some? ==> r.1.value.side == Buy && r.0.book.value.bidPx < r.1.value.limitPx < r.0.book.value.askPx
    ensures r.1.Some? ==>
      var signal, top := r.1.value, r.0.book.value;
      && signal.limitPx == top.bidPx + 1 && signal.symbolId == top.symbolId
      && signal.qty == 1 && signal.confidenceBps == 7500
      && signal.header.source == s.node && signal.header.destination == 3
    ensures r.1.Some? ==> r.1.value.header.sequence == r.0.signals == s.signals + 1
    ensures r.1 == None ==> r.0.signals == s.signals
    ensures r.0.node == s.node
  {
    var s' := s.(book := Apply(s.book, update));
    var top := s'.book.value;
    if top.askPx - top.bidPx >= 4 then
      var n := s.signals + 1;
      (s'.(signals := n), Some(Signal(Header(s.node, 3, n), top.symbolId, Buy, top.bidPx + 1, 1, 7500)))
    else (s', None)
  }

  class StrategyEngine {
    const node: nat
    const book: TopOfBook
    var signalSequence: nat

    function View(): StrategyState
      reads this, book
    {
      StrategyState(node, book.View(), signalSequence)
    }

    constructor (node: nat)
      ensures View() == StrategyState(node, None, 0) && fresh(book)
    {
      this.node := node;
      book := new TopOfBook();
      signalSequence := 0;
    }

    method Process(update: MarketData) returns (signal: Option<Signal>)
      modifies this, book
      ensures (View(), signal) == OnMarketData(old(View()), update)
    {
      book.Update(update);
      var maybeBook := book.Snapshot();
      if maybeBook == None { return None; }
      var top := maybeBook.value;
      var spread := top.askPx - top.bidPx;
      if spread <= 0 { return None; }
      if spread >= 4 {
        signalSequence := signalSequence + 1;
        return Some(Signal(Header(node, 3, signalSequence), top.symbolId, Buy, top.bidPx + 1, 1, 7500));
      }
      return None;
    }
  }
}
