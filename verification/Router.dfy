/** The multi-venue router: the latest accepted quote of every venue, and the best of them per symbol. */
module Router {
  import opened Messages
  import opened Wrappers

  datatype Venue = Binance | Coinbase | Polygon | Hyperliquid | SimulatedItch

  /** A normalized market data update together with the venue it came from. */
  datatype Quote = Quote(venue: Venue, update: MarketData)

  function VenueId(v: Venue): nat {
    match v
    case Binance => 1
    case Coinbase => 2
    case Polygon => 3
    case Hyperliquid => 4
    case SimulatedItch => 5
  }

  function VenueOf(id: nat): Venue {
    if id == 1 then Binance else if id == 2 then Coinbase else if id == 3 then Polygon
    else if id == 4 then Hyperliquid else SimulatedItch
  }

  /** Every adapter stamps the update with its venue's number as source node. */
  predicate FromAdapter(q: Quote) {
    q.update.header.source == VenueId(q.venue)
  }

  datatype Key = Key(venue: Venue, symbolId: nat)

  datatype Book = Book(
    venue: Venue, symbolId: nat, symbol: string,
    bidPx: int, bidQty: int, askPx: int, askQty: int, exchangeSequence: nat)

  datatype RouteDecision =
    | NotRouteable(symbolId: nat, side: Side, qty: int)
    | Route(venue: Venue, symbolId: nat, symbol: string, side: Side, limitPx: int, qty: int)

  predicate Accepts(u: MarketData) {
    u.symbolId != 0 && u.bidPx > 0 && u.askPx > 0 && u.bidPx <= u.askPx
  }

  function KeyOf(q: Quote): Key {
    Key(q.venue, q.update.symbolId)
  }

  function BookOf(q: Quote): Book {
    var u := q.update;
    Book(q.venue, u.symbolId, u.symbol, u.bidPx, u.bidQty, u.askPx, u.askQty, u.exchangeSequence)
  }

  function Record(books: map<Key, Book>, q: Quote): map<Key, Book> {
    if Accepts(q.update) then books[KeyOf(q) := BookOf(q)] else books
  }

  function Books(history: seq<Quote>): map<Key, Book> {
    if history == [] then map[] else Record(Books(history[..|history| - 1]), history[|history| - 1])
  }

  /** Quote k is the last accepted one of its venue and symbol. */
  predicate LastAccepted(history: seq<Quote>, k: int) {
    && 0 <= k < |history| && Accepts(history[k].update)
    && forall j :: k < j < |history| && Accepts(history[j].update) ==> KeyOf(history[j]) != KeyOf(history[k])
  }

  /** The book shows the quote, field by field. */
  predicate Shows(b: Book, q: Quote) {
    && b.venue == q.venue && b.symbolId == q.update.symbolId && b.symbol == q.update.symbol
    && b.bidPx == q.update.bidPx && b.bidQty == q.update.bidQty
    && b.askPx == q.update.askPx && b.askQty == q.update.askQty
    && b.exchangeSequence == q.update.exchangeSequence
  }

  /** The cache holds the last accepted quote of each venue and symbol, by arrival, and nothing else. */
  lemma {:induction false} CacheIsLastAccepted(history: seq<Quote>, key: Key)
    ensures key in Books(history) <==> exists k :: LastAccepted(history, k) && KeyOf(history[k]) == key
    ensures forall k :: LastAccepted(history, k) && KeyOf(history[k]) == key ==>
      Books(history)[key] == BookOf(history[k]) && Shows(Books(history)[key], history[k])
  {
    if history != [] {
      var n := |history| - 1;
      var front := history[..n];
      CacheIsLastAccepted(front, key);
      if Accepts(history[n].update) && KeyOf(history[n]) == key {
        assert LastAccepted(history, n);
      } else {
        forall k | 0 <= k < n && KeyOf(history[k]) == key
          ensures LastAccepted(history, k) <==> LastAccepted(front, k)
        {
          assert front[k] == history[k];
        }
      }
    }
  }

  /** What a side pays: the ask, or the negated bid; lower is better. */
  function Cost(b: Book, side: Side): int {
    if side == Buy then b.askPx else -b.bidPx
  }

  /** best is a book of the symbol that no other beats, and absent only if there is none. */
  ghost predicate IsBest(books: map<Key, Book>, symbolId: nat, side: Side, best: Option<Book>) {
    && (best == None ==> forall key :: key in books ==> books[key].symbolId != symbolId)
    && (best.Some? ==>
          && (exists key :: key in books && books[key] == best.value) && best.value.symbolId == symbolId
          && forall key :: key in books && books[key].symbolId == symbolId ==>
               Cost(best.value, side) <= Cost(books[key], side))
  }

  lemma BestExists(books: map<Key, Book>, symbolId: nat, side: Side, keys: set<Key>) returns (best: Option<Book>)
    requires keys <= books.Keys
    ensures best == None ==> forall key :: key in keys ==> books[key].symbolId != symbolId
    ensures best.Some? ==>
      && (exists key :: key in keys && books[key] == best.value) && best.value.symbolId == symbolId
      && forall key :: key in keys && books[key].symbolId == symbolId ==>
           Cost(best.value, side) <= Cost(books[key], side)
  {
    if keys == {} {
      best := None;
    } else {
      var k :| k in keys;
      best := BestExists(books, symbolId, side, keys - {k});
      if books[k].symbolId == symbolId && (best == None || Cost(books[k], side) < Cost(best.value, side)) {
        best := Some(books[k]);
      }
    }
  }

  lemma SomeBest(books: map<Key, Book>, symbolId: nat, side: Side)
    ensures exists best :: IsBest(books, symbolId, side, best)
  {
    var best := BestExists(books, symbolId, side, books.Keys);
    assert IsBest(books, symbolId, side, best);
  }

  /** The price a side is routed at: however ties are broken, all best books agree on it. */
  ghost function BestPrice(books: map<Key, Book>, symbolId: nat, side: Side): (price: Option<int>)
    ensures forall best :: IsBest(books, symbolId, side, best) ==>
      price == if best == None then None else Some(if side == Buy then best.value.askPx else best.value.bidPx)
  {
    SomeBest(books, symbolId, side);
    var best :| IsBest(books, symbolId, side, best);
    if best == None then None else Some(if side == Buy then best.value.askPx else best.value.bidPx)
  }

  /** The price is the lowest ask among the last accepted quotes of the symbol. */
  ghost predicate LowestAsk(history: seq<Quote>, symbolId: nat, price: int) {
    && (exists k :: LastAccepted(history, k) && history[k].update.symbolId == symbolId && history[k].update.askPx == price)
    && forall k :: LastAccepted(history, k) && history[k].update.symbolId == symbolId ==>
         price <= history[k].update.askPx
  }

  /** The price is the highest bid among the last accepted quotes of the symbol. */
  ghost predicate HighestBid(history: seq<Quote>, symbolId: nat, price: int) {
    && (exists k :: LastAccepted(history, k) && history[k].update.symbolId == symbolId && history[k].update.bidPx == price)
    && forall k :: LastAccepted(history, k) && history[k].update.symbolId == symbolId ==>
         history[k].update.bidPx <= price
  }

  /** Against the history: the best book is the last accepted quote of its venue, its ask is the lowest (its bid
      the highest) of all venues' last accepted quotes for the symbol, and it is absent exactly when none was
      ever accepted. */
  lemma BestOverHistory(history: seq<Quote>, symbolId: nat, side: Side, best: Option<Book>)
    requires IsBest(Books(history), symbolId, side, best)
    ensures best == None <==> forall k :: LastAccepted(history, k) ==> history[k].update.symbolId != symbolId
    ensures best.Some? ==> exists k :: LastAccepted(history, k) && Shows(best.value, history[k])
    ensures best.Some? && side == Buy ==> LowestAsk(history, symbolId, best.value.askPx)
    ensures best.Some? && side == Sell ==> HighestBid(history, symbolId, best.value.bidPx)
  {
    forall k | LastAccepted(history, k)
      ensures KeyOf(history[k]) in Books(history) && Books(history)[KeyOf(history[k])] == BookOf(history[k])
    {
      CacheIsLastAccepted(history, KeyOf(history[k]));
    }
    if best.Some? {
      var key :| key in Books(history) && Books(history)[key] == best.value;
      CacheIsLastAccepted(history, key);
      var k :| LastAccepted(history, k) && KeyOf(history[k]) == key;
      assert history[k].update.symbolId == symbolId;
    }
  }

  function Unnumbered(b: Book): Book {
    b.(exchangeSequence := 0)
  }

  /** The same quotes in the same order, whatever their exchange sequences. */
  ghost predicate SameButSequences(a: seq<Quote>, b: seq<Quote>) {
    |a| == |b| && forall i :: 0 <= i < |a| ==>
      a[i].venue == b[i].venue
      && a[i].update.(header := b[i].update.header, exchangeSequence := 0) == b[i].update.(exchangeSequence := 0)
  }

  ghost predicate SameBooks(a: map<Key, Book>, b: map<Key, Book>) {
    a.Keys == b.Keys && forall key :: key in a ==> Unnumbered(a[key]) == Unnumbered(b[key])
  }

  /** Arrival decides and the exchange sequence never does: renumbering the quotes of a history in any way,
      even backwards, changes no book but for the number itself, and no price that orders are routed at. */
  lemma {:induction false} ArrivalNotSequenceDecides(a: seq<Quote>, b: seq<Quote>)
    requires SameButSequences(a, b)
    ensures SameBooks(Books(a), Books(b))
    ensures forall symbolId, side :: BestPrice(Books(a), symbolId, side) == BestPrice(Books(b), symbolId, side)
  {
    if a != [] {
      var n := |a| - 1;
      ArrivalNotSequenceDecides(a[..n], b[..n]);
      assert a[n].update.(header := b[n].update.header, exchangeSequence := 0) == b[n].update.(exchangeSequence := 0);
    }
    forall symbolId, side ensures BestPrice(Books(a), symbolId, side) == BestPrice(Books(b), symbolId, side) {
      SameBest(Books(a), Books(b), symbolId, side);
    }
  }

  lemma SameBest(a: map<Key, Book>, b: map<Key, Book>, symbolId: nat, side: Side)
    requires SameBooks(a, b)
    ensures BestPrice(a, symbolId, side) == BestPrice(b, symbolId, side)
  {
    SomeBest(a, symbolId, side);
    var best :| IsBest(a, symbolId, side, best);
    if best == None {
      assert IsBest(b, symbolId, side, None);
    } else {
      var key :| key in a && a[key] == best.value;
      assert IsBest(b, symbolId, side, Some(b[key]));
    }
  }

  /** What a side is routed at, over any history: the lowest ask to buy, the highest bid to sell. */
  lemma RoutedAtBest(history: seq<Quote>, symbolId: nat, side: Side)
    ensures var price := BestPrice(Books(history), symbolId, side);
      && (price == None <==> forall k :: LastAccepted(history, k) ==> history[k].update.symbolId != symbolId)
      && (price.Some? && side == Buy ==> LowestAsk(history, symbolId, price.value))
      && (price.Some? && side == Sell ==> HighestBid(history, symbolId, price.value))
  {
    SomeBest(Books(history), symbolId, side);
    var best :| IsBest(Books(history), symbolId, side, best);
    hide IsBest, LastAccepted, LowestAsk, HighestBid;
    BestOverHistory(history, symbolId, side, best);
  }

  class MultiVenueRouter {
    var books: map<Key, Book>
    ghost var history: seq<Quote>

    ghost predicate Valid()
      reads this
    {
      books == Books(history)
    }

    constructor ()
      ensures Valid() && history == []
    {
      books := map[];
      history := [];
    }

    method Update(q: Quote) returns (ok: bool)
      requires Valid()
      modifies this
      ensures Valid() && history == old(history) + [q]
      ensures ok <==> q.update.symbolId != 0 && 0 < q.update.bidPx <= q.update.askPx
      ensures ok <==> Accepts(q.update)
      ensures books == Record(old(books), q)
    {
      var u := q.update;
      history := history + [q];
      assert history[..|history| - 1] == old(history);
      if u.symbolId == 0 { return false; }
      if u.bidPx <= 0 || u.askPx <= 0 || u.bidPx > u.askPx { return false; }
      books := books[Key(q.venue, u.symbolId) := BookOf(q)];
      return true;
    }

    /** The hash map may be walked in any order: the next key is an arbitrary one of those left. */
    method BestAsk(symbolId: nat) returns (best: Option<Book>)
      ensures IsBest(books, symbolId, Buy, best)
    {
      best := None;
      var rest := books.Keys;
      while rest != {}
        invariant rest <= books.Keys
        invariant best == None ==> forall key :: key in books && key !in rest ==> books[key].symbolId != symbolId
        invariant best.Some? ==>
          && (exists key :: key in books && books[key] == best.value) && best.value.symbolId == symbolId
          && forall key :: key in books && key !in rest && books[key].symbolId == symbolId ==>
               best.value.askPx <= books[key].askPx
        decreases rest
      {
        var key :| key in rest;
        rest := rest - {key};
        var book := books[key];
        if book.symbolId != symbolId { continue; }
        if best == None || book.askPx < best.value.askPx { best := Some(book); }
      }
    }

    method BestBid(symbolId: nat) returns (best: Option<Book>)
      ensures IsBest(books, symbolId, Sell, best)
    {
      best := None;
      var rest := books.Keys;
      while rest != {}
        invariant rest <= books.Keys
        invariant best == None ==> forall key :: key in books && key !in rest ==> books[key].symbolId != symbolId
        invariant best.Some? ==>
          && (exists key :: key in books && books[key] == best.value) && best.value.symbolId == symbolId
          && forall key :: key in books && key !in rest && books[key].symbolId == symbolId ==>
               best.value.bidPx >= books[key].bidPx
        decreases rest
      {
        var key :| key in rest;
        rest := rest - {key};
        var book := books[key];
        if book.symbolId != symbolId { continue; }
        if best == None || book.bidPx > best.value.bidPx { best := Some(book); }
      }
    }

    /** The price is the best one; the venue is one that offers it. */
    method RouteSignal(signal: Signal) returns (d: RouteDecision)
      ensures d.symbolId == signal.symbolId && d.side == signal.side && d.qty == signal.qty
      ensures d.Route? <==> BestPrice(books, signal.symbolId, signal.side).Some?
      ensures d.Route? ==> BestPrice(books, signal.symbolId, signal.side) == Some(d.limitPx)
      ensures d.Route? ==> exists best ::
        && IsBest(books, signal.symbolId, signal.side, Some(best))
        && best.venue == d.venue && best.symbol == d.symbol
    {
      if signal.side == Buy {
        var venue := BestAsk(signal.symbolId);
        if venue == None { return NotRouteable(signal.symbolId, signal.side, signal.qty); }
        var b := venue.value;
        return Route(b.venue, signal.symbolId, b.symbol, signal.side, b.askPx, signal.qty);
      }
      var venue := BestBid(signal.symbolId);
      if venue == None { return NotRouteable(signal.symbolId, signal.side, signal.qty); }
      var b := venue.value;
      return Route(b.venue, signal.symbolId, b.symbol, signal.side, b.bidPx, signal.qty);
    }
  }
}
