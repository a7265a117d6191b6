/** The live multi-venue router: what one market data update does to the shared state under its mutex. */
module LiveRouter {
  import opened KillSwitch
  import opened Messages
  import opened Router
  import opened Wrappers

  datatype LogRecord = LogRecord(sequence: nat, message: Message)

  datatype LiveState = LiveState(
    books: map<Key, Book>, switch: SwitchState,
    replayLog: seq<LogRecord>, journal: seq<LogRecord>,
    replaySeq: nat, journalSeq: nat, signalSeq: nat, updates: nat, routes: nat)

  function RouteSignalMsg(symbolId: nat, side: Side, limitPx: int, sequence: nat): Message {
    SignalMsg(Signal(Header(2, 3, sequence), symbolId, side, limitPx, 1, 9000))
  }

  /** One message in both logs, each under its own next sequence. */
  function Logged(s: LiveState, m: Message): LiveState {
    s.(replaySeq := s.replaySeq + 1, replayLog := s.replayLog + [LogRecord(s.replaySeq + 1, m)],
       journalSeq := s.journalSeq + 1, journal := s.journal + [LogRecord(s.journalSeq + 1, m)])
  }

  /** Route one side, if it has a price. */
  ghost function RouteSide(s: LiveState, symbolId: nat, side: Side): LiveState {
    var price := BestPrice(s.books, symbolId, side);
    if price == None then s
    else
      var t := s.(switch := After(s.switch, Routed), signalSeq := s.signalSeq + 1);
      Logged(t, RouteSignalMsg(symbolId, side, price.value, t.signalSeq)).(routes := s.routes + 1)
  }

  ghost function Process(s: LiveState, q: Quote, haltFile: bool): LiveState {
    var polled := s.(switch := After(s.switch, Polled(haltFile)));
    if !polled.switch.enabled || !Accepts(q.update) then polled
    else
      var t := polled.(books := Record(s.books, q));
      var u := Logged(t, MarketDataMsg(q.update)).(updates := s.updates + 1);
      RouteSide(RouteSide(u, q.update.symbolId, Buy), q.update.symbolId, Sell)
  }

  class SharedState {
    const router: MultiVenueRouter
    const killSwitch: KillSwitch
    var replayLog: seq<LogRecord>
    var journal: seq<LogRecord>
    var replaySeq: nat
    var journalSeq: nat
    var signalSeq: nat
    var updatesSeen: nat
    var routesSeen: nat

    function View(): LiveState
      reads this, router, killSwitch
    {
      LiveState(router.books, killSwitch.View(), replayLog, journal, replaySeq, journalSeq, signalSeq,
                updatesSeen, routesSeen)
    }

    constructor (limits: Limits)
      ensures View() == Initial(limits)
      ensures router.Valid() && router.history == [] && fresh(router) && fresh(killSwitch)
    {
      router := new MultiVenueRouter();
      killSwitch := new KillSwitch(limits);
      replayLog, journal := [], [];
      replaySeq, journalSeq, signalSeq, updatesSeen, routesSeen := 0, 0, 0, 0, 0;
      new;
      assert router.books == map[];
    }

    method LogBoth(m: Message)
      modifies this`replayLog, this`journal, this`replaySeq, this`journalSeq
      ensures View() == Logged(old(View()), m)
    {
      replaySeq := replaySeq + 1;
      replayLog := replayLog + [LogRecord(replaySeq, m)];
      journalSeq := journalSeq + 1;
      journal := journal + [LogRecord(journalSeq, m)];
    }

    method LogRoute(d: RouteDecision)
      requires d.qty == 1 && (d.NotRouteable? <==> BestPrice(router.books, d.symbolId, d.side) == None)
      requires d.Route? ==> BestPrice(router.books, d.symbolId, d.side) == Some(d.limitPx)
      modifies this, killSwitch
      ensures View() == RouteSide(old(View()), d.symbolId, d.side)
    {
      hide BestPrice, After;
      if d.Route? {
        killSwitch.OnRoute();
        signalSeq := signalSeq + 1;
        LogBoth(RouteSignalMsg(d.symbolId, d.side, d.limitPx, signalSeq));
        routesSeen := routesSeen + 1;
      }
    }

    /** Both decisions are taken before either is recorded. */
    method ProcessUpdate(q: Quote, haltFile: bool)
      requires router.Valid()
      modifies this, router, killSwitch
      ensures router.Valid()
      ensures View() == Process(old(View()), q, haltFile)
    {
      hide BestPrice, IsBest, Record, Accepts, After, RouteSide, Books;
      var enabled := killSwitch.TradingEnabled(haltFile);
      if !enabled { return; }
      var ok := router.Update(q);
      if !ok {
        RecordRejected(old(router.books), q);
        return;
      }
      LogBoth(MarketDataMsg(q.update));
      updatesSeen := updatesSeen + 1;
      var id := q.update.symbolId;
      var buy := router.RouteSignal(Signal(Header(0, 0, 0), id, Buy, 0, 1, 0));
      var sell := router.RouteSignal(Signal(Header(0, 0, 0), id, Sell, 0, 1, 0));
      LogRoute(buy);
      LogRoute(sell);
    }
  }

  lemma RecordRejected(books: map<Key, Book>, q: Quote)
    requires !Accepts(q.update)
    ensures Record(books, q) == books
  {
  }

  function Initial(limits: Limits): LiveState {
    LiveState(map[], Fresh(limits), [], [], 0, 0, 0, 0, 0)
  }

  /** One call of process_update: a quote, and whether the halt file is there. */
  datatype Input = Input(quote: Quote, haltFile: bool)

  ghost function Run(limits: Limits, inputs: seq<Input>): LiveState {
    if inputs == [] then Initial(limits)
    else
      var n := |inputs| - 1;
      Process(Run(limits, inputs[..n]), inputs[n].quote, inputs[n].haltFile)
  }

  /** An accepted update always has both prices: its own book competes for them. */
  lemma AcceptedHasPrices(books: map<Key, Book>, q: Quote)
    requires Accepts(q.update)
    ensures BestPrice(Record(books, q), q.update.symbolId, Buy).Some?
    ensures BestPrice(Record(books, q), q.update.symbolId, Sell).Some?
  {
    var after := Record(books, q);
    assert after[KeyOf(q)].symbolId == q.update.symbolId;
    forall side ensures BestPrice(after, q.update.symbolId, side).Some? {
      SomeBest(after, q.update.symbolId, side);
      var best :| IsBest(after, q.update.symbolId, side, best);
      assert KeyOf(q) in after;
    }
  }

  /** The messages an accepted update adds to the logs. */
  ghost function Emitted(books: map<Key, Book>, u: MarketData, signals: nat): seq<Message> {
    var buy, sell := BestPrice(books, u.symbolId, Buy), BestPrice(books, u.symbolId, Sell);
    [MarketDataMsg(u)]
    + (if buy == None then [] else [RouteSignalMsg(u.symbolId, Buy, buy.value, signals + 1)])
    + (if sell == None then [] else [RouteSignalMsg(u.symbolId, Sell, sell.value, signals + 2)])
  }

  function LoggedMessages(log: seq<LogRecord>): (ms: seq<Message>)
    ensures |ms| == |log|
  {
    seq(|log|, i requires 0 <= i < |log| => log[i].message)
  }

  /** Whether a call gets past the kill switch and the router's validity check. */
  predicate TakesEffect(s: LiveState, q: Quote, haltFile: bool) {
    s.switch.enabled && !haltFile && Accepts(q.update)
  }

  /** One call in full: it counts one update and two routes and adds three records, or none of these. */
  lemma ProcessCounts(s: LiveState, q: Quote, haltFile: bool)
    requires s.replayLog == s.journal && s.replaySeq == s.journalSeq == |s.journal|
    ensures var t := Process(s, q, haltFile); var more := if TakesEffect(s, q, haltFile) then 1 else 0;
      && t.updates == s.updates + more
      && t.routes == s.routes + 2 * more && t.signalSeq == s.signalSeq + 2 * more
      && t.switch.routes == s.switch.routes + 2 * more
      && t.replayLog == t.journal && t.replaySeq == t.journalSeq == |t.journal| == |s.journal| + 3 * more
      && t.books == (if more == 1 then Record(s.books, q) else s.books)
      && s.journal <= t.journal
      && LoggedMessages(t.journal)
         == LoggedMessages(s.journal) + (if more == 1 then Emitted(t.books, q.update, s.signalSeq) else [])
      && t.switch.limits == s.switch.limits
      && (t.switch.enabled <==>
            s.switch.enabled && !haltFile && (more == 1 ==> s.switch.routes + 2 <= s.switch.limits.maxRoutes))
      && (!s.switch.enabled ==> t.switch.reason == s.switch.reason)
  {
    hide BestPrice, IsBest, Record, Accepts;
    if TakesEffect(s, q, haltFile) {
      AcceptedHasPrices(s.books, q);
      var t := Process(s, q, haltFile);
      assert LoggedMessages(t.journal)[..|s.journal|] == LoggedMessages(s.journal);
    }
  }

  /** Exact bookkeeping between any two calls, for every input sequence: routes and signal numbers are
      twice the updates, both logs hold three records per update, numbered 1..n, and are equal. */
  lemma {:induction false} ExactCounts(limits: Limits, inputs: seq<Input>)
    ensures var s := Run(limits, inputs);
      && s.routes == s.signalSeq == s.switch.routes == 2 * s.updates
      && s.replaySeq == s.journalSeq == |s.journal| == 3 * s.updates
      && s.replayLog == s.journal
      && s.switch.limits == limits
      && s.updates <= limits.maxRoutes / 2 + 1
      && (s.switch.enabled ==> s.routes <= limits.maxRoutes)
  {
    if inputs != [] {
      var n := |inputs| - 1;
      ExactCounts(limits, inputs[..n]);
      ProcessCounts(Run(limits, inputs[..n]), inputs[n].quote, inputs[n].haltFile);
      hide Process;
    }
  }

  function AcceptedCount(inputs: seq<Input>): nat {
    if inputs == [] then 0
    else AcceptedCount(inputs[..|inputs| - 1]) + if Accepts(inputs[|inputs| - 1].quote.update) then 1 else 0
  }

  /** The number of calls before the first whose poll finds the halt file. */
  function BeforeHalt(inputs: seq<Input>): (k: nat)
    ensures k <= |inputs|
    ensures forall i :: 0 <= i < k ==> !inputs[i].haltFile
    ensures k < |inputs| ==> inputs[k].haltFile
  {
    if inputs == [] then 0
    else
      var n := |inputs| - 1;
      var k := BeforeHalt(inputs[..n]);
      if k < n || inputs[n].haltFile then k else n + 1
  }

  function ValidBeforeHalt(inputs: seq<Input>): nat {
    AcceptedCount(inputs[..BeforeHalt(inputs)])
  }

  lemma ValidOneMore(inputs: seq<Input>)
    requires inputs != []
    ensures var n := |inputs| - 1; var halted := BeforeHalt(inputs[..n]) < n || inputs[n].haltFile;
      && (BeforeHalt(inputs) == |inputs| <==> !halted)
      && ValidBeforeHalt(inputs) == ValidBeforeHalt(inputs[..n])
         + if !halted && Accepts(inputs[n].quote.update) then 1 else 0
  {
    var n := |inputs| - 1;
    assert inputs[..n][..BeforeHalt(inputs[..n])] == inputs[..BeforeHalt(inputs[..n])];
    assert inputs[..n + 1] == inputs;
    hide Accepts;
  }

  /** The bound is met exactly: every valid update before the halt file is found is routed until the limit
      trips, so the number of routes is 2 * min(valid updates before the halt, maxRoutes / 2 + 1). */
  lemma {:induction false} ExactRouteBound(limits: Limits, inputs: seq<Input>)
    ensures var s, bound := Run(limits, inputs), limits.maxRoutes / 2 + 1;
      && s.routes == 2 * Min(ValidBeforeHalt(inputs), bound)
      && (s.switch.enabled <==> ValidBeforeHalt(inputs) < bound && BeforeHalt(inputs) == |inputs|)
  {
    if inputs != [] {
      var n := |inputs| - 1;
      ExactRouteBound(limits, inputs[..n]);
      ExactCounts(limits, inputs[..n]);
      ProcessCounts(Run(limits, inputs[..n]), inputs[n].quote, inputs[n].haltFile);
      ValidOneMore(inputs);
      hide Process, Accepts, LoggedMessages, Emitted, ValidBeforeHalt, BeforeHalt;
    }
  }

  /** Once tripped, no later call logs or routes anything, and the first reason stays. */
  lemma {:induction false} TrippedIsFinal(limits: Limits, inputs: seq<Input>, more: seq<Input>)
    requires !Run(limits, inputs).switch.enabled
    ensures var s, t := Run(limits, inputs), Run(limits, inputs + more);
      && !t.switch.enabled && t.switch.reason == s.switch.reason
      && t.journal == s.journal && t.replayLog == s.replayLog && t.routes == s.routes && t.books == s.books
  {
    if more == [] {
      assert inputs + more == inputs;
    } else {
      var n := |more| - 1;
      assert (inputs + more)[..|inputs| + n] == inputs + more[..n];
      TrippedIsFinal(limits, inputs, more[..n]);
    }
  }

  /** The quotes whose calls took effect. */
  ghost function Taken(limits: Limits, inputs: seq<Input>): seq<Quote> {
    if inputs == [] then []
    else
      var n := |inputs| - 1;
      var q := inputs[n].quote;
      Taken(limits, inputs[..n])
      + if TakesEffect(Run(limits, inputs[..n]), q, inputs[n].haltFile) then [q] else []
  }

  /** The three messages logged for the k-th quote taken, in their own fields: the update itself, an order to
      buy one at the lowest ask, and one to sell one at the highest bid, of all venues up to then. */
  ghost predicate Turn(taken: seq<Quote>, k: nat, md: Message, buy: Message, sell: Message)
    requires k < |taken|
  {
    var u := taken[k].update;
    && md == MarketDataMsg(u)
    && buy.SignalMsg? && sell.SignalMsg?
    && buy.signal.side == Buy && sell.signal.side == Sell
    && buy.signal.symbolId == sell.signal.symbolId == u.symbolId
    && buy.signal.qty == sell.signal.qty == 1
    && buy.signal.confidenceBps == sell.signal.confidenceBps == 9000
    && buy.signal.header == Header(2, 3, 2 * k + 1) && sell.signal.header == Header(2, 3, 2 * k + 2)
    && LowestAsk(taken[..k + 1], u.symbolId, buy.signal.limitPx)
    && HighestBid(taken[..k + 1], u.symbolId, sell.signal.limitPx)
  }

  /** Record i has number i + 1. */
  predicate Numbered(log: seq<LogRecord>) {
    forall i :: 0 <= i < |log| ==> log[i].sequence == i + 1
  }

  lemma ProcessNumbers(s: LiveState, q: Quote, haltFile: bool)
    requires s.replayLog == s.journal && s.replaySeq == s.journalSeq == |s.journal| && Numbered(s.journal)
    ensures Numbered(Process(s, q, haltFile).journal)
  {
    hide BestPrice, Accepts, Record, After;
  }

  /** The messages are those of the quotes taken, three for each, in order. */
  ghost predicate Turns(taken: seq<Quote>, ms: seq<Message>) {
    |ms| == 3 * |taken| && forall k :: 0 <= k < |taken| ==> Turn(taken, k, ms[3 * k], ms[3 * k + 1], ms[3 * k + 2])
  }

  /** What stands in the logs after any run: of every quote taken its three messages, numbered through. */
  lemma {:induction false} LogInFields(limits: Limits, inputs: seq<Input>)
    ensures var s, taken := Run(limits, inputs), Taken(limits, inputs);
      && s.replayLog == s.journal && Numbered(s.journal) && |taken| == s.updates
      && s.books == Books(taken)
      && Turns(taken, LoggedMessages(s.journal))
  {
    if inputs != [] {
      var n := |inputs| - 1;
      var before, taken := Run(limits, inputs[..n]), Taken(limits, inputs[..n]);
      var q, haltFile := inputs[n].quote, inputs[n].haltFile;
      LogInFields(limits, inputs[..n]);
      ExactCounts(limits, inputs[..n]);
      ProcessNumbers(before, q, haltFile);
      ProcessCounts(before, q, haltFile);
      if TakesEffect(before, q, haltFile) {
        BooksOneMore(taken, q);
        EmittedIsTurn(taken, q);
        TurnsOneMore(taken, q, LoggedMessages(before.journal), Emitted(Books(taken + [q]), q.update, 2 * |taken|));
      }
      hide Process, Turns, Turn, Numbered, BestPrice, Accepts, Emitted, LoggedMessages, Record, Books;
      assert taken + [] == taken && LoggedMessages(before.journal) + [] == LoggedMessages(before.journal);
    }
  }

  lemma BooksOneMore(taken: seq<Quote>, q: Quote)
    ensures Books(taken + [q]) == Record(Books(taken), q)
  {
    assert (taken + [q])[..|taken|] == taken;
  }

  lemma TurnsOneMore(taken: seq<Quote>, q: Quote, ms: seq<Message>, e: seq<Message>)
    requires Turns(taken, ms) && |e| == 3 && Turn(taken + [q], |taken|, e[0], e[1], e[2])
    ensures Turns(taken + [q], ms + e)
  {
    hide Turn;
    forall k | 0 <= k < |taken|
      ensures Turn(taken + [q], k, ms[3 * k], ms[3 * k + 1], ms[3 * k + 2])
    {
      TurnStays(taken, q, k, ms[3 * k], ms[3 * k + 1], ms[3 * k + 2]);
    }
  }

  lemma TurnStays(taken: seq<Quote>, q: Quote, k: nat, md: Message, buy: Message, sell: Message)
    requires k < |taken| && Turn(taken, k, md, buy, sell)
    ensures Turn(taken + [q], k, md, buy, sell)
  {
    hide LowestAsk, HighestBid;
    assert (taken + [q])[..k + 1] == taken[..k + 1];
  }

  lemma EmittedIsTurn(taken: seq<Quote>, q: Quote)
    requires Accepts(q.update)
    ensures var all, e := taken + [q], Emitted(Books(taken + [q]), q.update, 2 * |taken|);
      |e| == 3 && Turn(all, |taken|, e[0], e[1], e[2])
  {
    var k, all := |taken|, taken + [q];
    AcceptedHasPrices(Books(taken), q);
    BooksOneMore(taken, q);
    assert all[..k + 1] == all && all[k] == q;
    RoutedAtBest(all, q.update.symbolId, Buy);
    RoutedAtBest(all, q.update.symbolId, Sell);
    hide LowestAsk, HighestBid, BestPrice, LastAccepted, Accepts, Books, Record;
  }

  /** The market data in a log, in order. */
  function MarketDataOf(ms: seq<Message>): seq<MarketData> {
    if ms == [] then []
    else
      var n := |ms| - 1;
      MarketDataOf(ms[..n]) + if ms[n].MarketDataMsg? then [ms[n].update] else []
  }

  function AsQuotes(mds: seq<MarketData>): (qs: seq<Quote>)
    ensures |qs| == |mds|
  {
    seq(|mds|, i requires 0 <= i < |mds| => Quote(VenueOf(mds[i].header.source), mds[i]))
  }

  /** What a fresh router makes of recorded market data, taking the venue from the source node. */
  ghost function Certified(mds: seq<MarketData>): seq<Message> {
    if mds == [] then []
    else
      var n := |mds| - 1;
      Certified(mds[..n]) + Emitted(Books(AsQuotes(mds)), mds[n], 2 * n)
  }

  lemma MarketDataOfOneMore(ms: seq<Message>, m: Message)
    ensures MarketDataOf(ms + [m]) == MarketDataOf(ms) + if m.MarketDataMsg? then [m.update] else []
  {
    assert (ms + [m])[..|ms|] == ms;
  }

  lemma MarketDataOfEmitted(ms: seq<Message>, books: map<Key, Book>, u: MarketData, signals: nat)
    requires BestPrice(books, u.symbolId, Buy).Some? && BestPrice(books, u.symbolId, Sell).Some?
    ensures MarketDataOf(ms + Emitted(books, u, signals)) == MarketDataOf(ms) + [u]
  {
    hide BestPrice, MarketDataOf;
    var e := Emitted(books, u, signals);
    assert ms + e == ms + [e[0]] + [e[1]] + [e[2]];
    MarketDataOfOneMore(ms, e[0]);
    MarketDataOfOneMore(ms + [e[0]], e[1]);
    MarketDataOfOneMore(ms + [e[0]] + [e[1]], e[2]);
  }

  /** Self-certifying log: for every run fed by the adapters, replaying only the market data records of the
      replay log through a fresh router reproduces the whole log: every recorded route with its symbol,
      side, quantity and limit price, in order. */
  lemma {:induction false} LogCertifiesItself(limits: Limits, inputs: seq<Input>)
    requires forall i :: 0 <= i < |inputs| ==> FromAdapter(inputs[i].quote)
    ensures var s := Run(limits, inputs); var mds := MarketDataOf(LoggedMessages(s.replayLog));
      && LoggedMessages(s.replayLog) == Certified(mds)
      && |mds| == s.updates
      && s.books == Books(AsQuotes(mds))
  {
    if inputs != [] {
      var n := |inputs| - 1;
      var before, q, haltFile := Run(limits, inputs[..n]), inputs[n].quote, inputs[n].haltFile;
      LogCertifiesItself(limits, inputs[..n]);
      ExactCounts(limits, inputs[..n]);
      ProcessCounts(before, q, haltFile);
      if TakesEffect(before, q, haltFile) {
        CertifiedOneMore(before, q);
      }
      hide Process, Books, BestPrice, Accepts, LoggedMessages, MarketDataOf, Certified, Emitted;
    } else {
      assert LoggedMessages(Run(limits, inputs).replayLog) == [];
      assert AsQuotes([]) == [];
    }
  }

  lemma CertifiedOneMore(s: LiveState, q: Quote)
    requires Accepts(q.update) && FromAdapter(q)
    requires var mds := MarketDataOf(LoggedMessages(s.replayLog));
      LoggedMessages(s.replayLog) == Certified(mds) && s.books == Books(AsQuotes(mds)) && s.signalSeq == 2 * |mds|
    ensures var ms := LoggedMessages(s.replayLog);
      var books := Record(s.books, q);
      var more := ms + Emitted(books, q.update, s.signalSeq);
      && MarketDataOf(more) == MarketDataOf(ms) + [q.update]
      && more == Certified(MarketDataOf(more))
      && books == Books(AsQuotes(MarketDataOf(more)))
  {
    hide BestPrice, Emitted, MarketDataOf, LoggedMessages, Accepts, Record;
    var ms := LoggedMessages(s.replayLog);
    var mds, books := MarketDataOf(ms), Record(s.books, q);
    AcceptedHasPrices(s.books, q);
    MarketDataOfEmitted(ms, books, q.update, s.signalSeq);
    QuotesOneMore(mds, q);
    assert (mds + [q.update])[..|mds|] == mds;
  }

  lemma QuotesOneMore(mds: seq<MarketData>, q: Quote)
    requires FromAdapter(q)
    ensures Books(AsQuotes(mds + [q.update])) == Record(Books(AsQuotes(mds)), q)
  {
    hide Record;
    assert AsQuotes(mds + [q.update]) == AsQuotes(mds) + [q];
    assert (AsQuotes(mds) + [q])[..|mds|] == AsQuotes(mds);
  }
}
