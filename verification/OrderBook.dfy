/** The top-of-book cache of one feed. */
module OrderBook {
  import opened Messages
  import opened Wrappers

  type Book = Option<MarketData>

  /** The book after one update: out-of-order and duplicate updates are ignored. */
  function Apply(book: Book, update: MarketData): Book {
    if book.Some? && update.exchangeSequence <= book.value.exchangeSequence then book else Some(update)
  }

  function BookAfter(updates: seq<MarketData>): Book {
    if updates == [] then None else Apply(BookAfter(updates[..|updates| - 1]), updates[|updates| - 1])
  }

  /** Whatever order updates arrive in, the book holds the first one of the highest exchange sequence. */
  lemma {:induction false} BookHoldsNewest(updates: seq<MarketData>) returns (k: nat)
    requires updates != []
    ensures k < |updates| && BookAfter(updates) == Some(updates[k])
    ensures forall i :: 0 <= i < |updates| ==> updates[i].exchangeSequence <= updates[k].exchangeSequence
    ensures forall i :: 0 <= i < k ==> updates[i].exchangeSequence < updates[k].exchangeSequence
  {
    var n := |updates| - 1;
    if n == 0 {
      assert BookAfter(updates[..n]) == None;
      k := 0;
    } else {
      k := BookHoldsNewest(updates[..n]);
      if updates[k].exchangeSequence < updates[n].exchangeSequence { k := n; }
    }
  }

  class TopOfBook {
    var last: MarketData
    var hasValue: bool

    function View(): Book
      reads this
    {
      if hasValue then Some(last) else None
    }

    constructor ()
      ensures View() == None
    {
      hasValue := false;
      last := MarketData(Header(0, 0, 0), 0, "", 0, 0, 0, 0, 0);
    }

    method Update(update: MarketData)
      modifies this
      ensures View() == Apply(old(View()), update)
    {
      if hasValue && update.exchangeSequence <= last.exchangeSequence { return; }
      last := update;
      hasValue := true;
    }

    method Snapshot() returns (book: Book)
      ensures book == View()
    {
      if !hasValue { return None; }
      return Some(last);
    }
  }
}
