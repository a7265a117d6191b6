/** The pipe-separated quote feed: reassembling lines from received chunks and normalizing a line. */
module Itch {
  import opened Decimal
  import opened Messages
  import opened Router
  import opened Text
  import opened Wrappers

  const UINT64_MAX := 0xFFFF_FFFF_FFFF_FFFF
  const SYMBOL_CHARS := 15

  function Concat(chunks: seq<string>): string {
    if chunks == [] then [] else Concat(chunks[..|chunks| - 1]) + chunks[|chunks| - 1]
  }

  /** split_pipe_line: parts up to each '|', and the rest. */
  method SplitPipeLine(line: string) returns (parts: seq<string>)
    ensures parts == Split(line, '|')
  {
    hide Split;
    parts := [];
    var start := 0;
    assert line[0..] == line;
    while true
      invariant 0 <= start <= |line|
      invariant Split(line, '|') == parts + Split(line[start..], '|')
      decreases |line| - start
    {
      var pos := Find(line, '|', start);
      if pos == |line| {
        SplitNothing(line[start..], '|');
        return parts + [line[start..]];
      }
      SplitPiece(line, start, pos, '|');
      assert parts + ([line[start..pos]] + Split(line[pos + 1..], '|'))
        == parts + [line[start..pos]] + Split(line[pos + 1..], '|');
      parts := parts + [line[start..pos]];
      start := pos + 1;
    }
  }

  /** The inner loop: every complete line leaves the buffer. */
  method TakeLines(received: string) returns (lines: seq<string>, buffer: string)
    ensures lines + [buffer] == Split(received, '\n')
  {
    hide Split;
    lines, buffer := [], received;
    assert [] + Split(received, '\n') == Split(received, '\n');
    while true
      invariant lines + Split(buffer, '\n') == Split(received, '\n')
      decreases |buffer|
    {
      var pos := Find(buffer, '\n', 0);
      if pos == |buffer| { break; }
      var line := buffer[..pos];
      assert buffer[0..] == buffer && buffer[0..pos] == line;
      SplitPiece(buffer, 0, pos, '\n');
      assert lines + ([line] + Split(buffer[pos + 1..], '\n')) == lines + [line] + Split(buffer[pos + 1..], '\n');
      buffer := buffer[pos + 1..];
      lines := lines + [line];
    }
    assert buffer[0..|buffer|] == buffer;
    SplitNothing(buffer, '\n');
  }

  /** The receive loop over any sequence of chunks. The lines and the leftover depend only on the bytes
      received, not on how they were chunked. */
  method Reassemble(chunks: seq<string>) returns (lines: seq<string>, buffer: string)
    ensures lines + [buffer] == Split(Concat(chunks), '\n')
  {
    lines, buffer := [], [];
    for i := 0 to |chunks|
      invariant lines + [buffer] == Split(Concat(chunks[..i]), '\n')
    {
      ghost var before := Concat(chunks[..i]);
      assert chunks[..i + 1][..i] == chunks[..i];
      SplitExtends(before, chunks[i], '\n');
      assert (lines + [buffer])[..|lines|] == lines;
      buffer := buffer + chunks[i];
      var more;
      more, buffer := TakeLines(buffer);
      assert lines + (more + [buffer]) == lines + more + [buffer];
      lines := lines + more;
    }
    assert chunks[..|chunks|] == chunks;
  }

  /** For every byte stream: the lines with their newlines and the leftover are the stream, nothing emitted
      contains a newline, and this determines lines and leftover. */
  lemma ReassemblyIsExact(received: string, lines: seq<string>, leftover: string)
    ensures lines + [leftover] == Split(received, '\n') <==>
      Stream(lines, leftover, '\n') == received && Clean(lines, '\n') && '\n' !in leftover
  {
    var parts := lines + [leftover];
    StreamIsJoin(lines, leftover, '\n');
    JoinSplit(received, '\n');
    if parts == Split(received, '\n') {
      assert forall i :: 0 <= i < |lines| ==> parts[i] == lines[i];
      assert parts[|lines|] == leftover;
    }
    if Stream(lines, leftover, '\n') == received && Clean(lines, '\n') && '\n' !in leftover {
      SplitJoin(parts, '\n');
    }
  }

  function DigitRun(s: string): seq<digit> {
    if s == [] || !IsDigit(s[0]) then [] else [s[0]] + DigitRun(s[1..])
  }

  /** std::from_chars for a 64-bit unsigned number. */
  function ParseSequence(s: string): Option<nat> {
    var ds := DigitRun(s);
    if ds == [] || Value(ds) > UINT64_MAX then None else Some(Value(ds))
  }

  predicate IsSpace(c: char) {
    c == ' ' || '\t' <= c <= '\r'
  }

  function SkipSpace(s: string): string {
    if s != [] && IsSpace(s[0]) then SkipSpace(s[1..]) else s
  }

  /** std::stoll; None is a thrown exception. */
  function ParseLong(s: string): Option<int> {
    var t := SkipSpace(s);
    var negative := t != [] && t[0] == '-';
    var ds := DigitRun(if t != [] && (t[0] == '-' || t[0] == '+') then t[1..] else t);
    var n := Signed(negative, Value(ds));
    if ds == [] || n < INT64_MIN || n > INT64_MAX then None else Some(n)
  }

  /** A symbol as stored: at most 15 characters, read back up to the first NUL. */
  function StoredSymbol(s: string): string {
    UpToNul(if |s| <= SYMBOL_CHARS then s else s[..SYMBOL_CHARS])
  }

  function UpToNul(s: string): string {
    if s == [] || s[0] == 0 as char then [] else [s[0]] + UpToNul(s[1..])
  }

  /** What is stored is the start of the symbol: up to 15 characters, and no further than its first NUL. */
  lemma {:induction false} StoredSymbolIsStart(s: string)
    ensures var stored := StoredSymbol(s);
      && stored <= s && |stored| <= 15 && (0 as char) !in stored
      && (|stored| == 15 || |stored| == |s| || s[|stored|] == 0 as char)
  {
    UpToNulIsStart(if |s| <= SYMBOL_CHARS then s else s[..SYMBOL_CHARS]);
  }

  lemma {:induction false} UpToNulIsStart(s: string)
    ensures var t := UpToNul(s);
      t <= s && (0 as char) !in t && (|t| == |s| || s[|t|] == 0 as char)
  {
    if s != [] && s[0] != 0 as char {
      UpToNulIsStart(s[1..]);
      assert s == [s[0]] + s[1..];
    }
  }

  /** The text does not go on with a digit. */
  predicate Ends(s: string) {
    s == [] || !IsDigit(s[0])
  }

  lemma {:induction false} DigitRunThen(ds: seq<digit>, tail: string)
    requires Ends(tail)
    ensures DigitRun(ds + tail) == ds
  {
    if ds == [] {
      assert ds + tail == tail;
    } else {
      assert (ds + tail)[1..] == ds[1..] + tail;
      DigitRunThen(ds[1..], tail);
    }
  }

  lemma {:induction false} SkipSpaces(spaces: string, s: string)
    requires (forall c :: c in spaces ==> IsSpace(c)) && (s == [] || !IsSpace(s[0]))
    ensures SkipSpace(spaces + s) == s
  {
    if spaces == [] {
      assert spaces + s == s;
    } else {
      assert (spaces + s)[1..] == spaces[1..] + s;
      SkipSpaces(spaces[1..], s);
    }
  }

  /** A number may have space before it and anything but a digit behind it, and is read if it fits 64 bits. */
  lemma LongIsRead(spaces: string, n: int, tail: string)
    requires (forall c :: c in spaces ==> IsSpace(c)) && Ends(tail)
    ensures ParseLong(spaces + PrintInt(n) + tail) == if Is64(n) then Some(n) else None
  {
    hide Print, Value, DigitRun;
    var ds := Print(Abs(n));
    assert IsDigit(ds[0]);
    var s := PrintInt(n) + tail;
    assert spaces + PrintInt(n) + tail == spaces + s;
    SkipSpaces(spaces, s);
    DigitRunThen(ds, tail);
    if n < 0 {
      assert s == "-" + (ds + tail) && s[1..] == ds + tail;
    } else {
      assert s == ds + tail;
    }
  }

  /** No number is read where there is no digit. */
  lemma NoDigitNoLong(s: string)
    requires forall c :: c in s ==> !IsDigit(c)
    ensures ParseLong(s) == None && ParseSequence(s) == None
  {
    SkipKeepsMembers(s);
    var t := SkipSpace(s);
    assert t != [] ==> t[0] in t;
    assert |t| > 1 ==> t[1..][0] in t;
    assert s != [] ==> s[0] in s;
  }

  lemma {:induction false} SkipKeepsMembers(s: string)
    ensures forall c :: c in SkipSpace(s) ==> c in s
  {
    if s != [] && IsSpace(s[0]) {
      SkipKeepsMembers(s[1..]);
    }
  }

  /** A sequence is read like that too, but with neither space nor sign before it. */
  lemma SequenceIsRead(n: nat, tail: string)
    requires Ends(tail)
    ensures ParseSequence(Print(n) + tail) == if n <= UINT64_MAX then Some(n) else None
    ensures ParseSequence(tail) == None
  {
    DigitRunThen(Print(n), tail);
  }

  datatype Outcome = Malformed | Threw | Normalized(quote: Quote)

  function QuoteFor(symbolId: nat, symbol: string, sequence: nat, bidPx: int, bidQty: int, askPx: int, askQty: int): Quote {
    Quote(SimulatedItch, MarketData(Header(VenueId(SimulatedItch), 2, sequence), symbolId, symbol,
                                    bidPx, bidQty, askPx, askQty, sequence))
  }

  function Normalize(line: string, symbolId: nat): Outcome {
    var parts := Split(line, '|');
    if |parts| != 7 || parts[0] != "Q" then Malformed
    else
      var sequence := ParseSequence(parts[1]);
      var bidPx, bidQty, askPx, askQty :=
        ParseLong(parts[3]), ParseLong(parts[4]), ParseLong(parts[5]), ParseLong(parts[6]);
      if sequence == None then Malformed
      else if bidPx == None || bidQty == None || askPx == None || askQty == None then Threw
      else Normalized(QuoteFor(symbolId, StoredSymbol(parts[2]), sequence.value,
                               bidPx.value, bidQty.value, askPx.value, askQty.value))
  }

  /** The fields of one feed line. */
  datatype Fields = Fields(sequence: nat, symbol: string, bidPx: int, bidQty: int, askPx: int, askQty: int)

  predicate Is64(n: int) {
    INT64_MIN <= n <= INT64_MAX
  }

  /** Fields a line can carry: 64-bit numbers and a short symbol free of separators and NUL. */
  predicate Printable(f: Fields) {
    && f.sequence <= UINT64_MAX && Is64(f.bidPx) && Is64(f.bidQty) && Is64(f.askPx) && Is64(f.askQty)
    && |f.symbol| <= SYMBOL_CHARS && '|' !in f.symbol && '\n' !in f.symbol && (0 as char) !in f.symbol
  }

  function Parts(f: Fields): (parts: seq<string>)
    ensures |parts| == 7
  {
    ["Q", Print(f.sequence), f.symbol, PrintInt(f.bidPx), PrintInt(f.bidQty), PrintInt(f.askPx), PrintInt(f.askQty)]
  }

  /** The line the feed generator sends for a quote. */
  function PrintLine(f: Fields): string {
    Join(Parts(f), '|')
  }

  lemma {:induction false} DigitRunOfDigits(ds: seq<digit>)
    ensures DigitRun(ds) == ds
  {
    if ds != [] { DigitRunOfDigits(ds[1..]); }
  }

  lemma ParsePrinted(n: int)
    requires Is64(n)
    ensures ParseLong(PrintInt(n)) == Some(n)
    ensures '|' !in PrintInt(n) && '\n' !in PrintInt(n)
  {
    hide Print, Value, DigitRun;
    var s := PrintInt(n);
    var ds := Print(Abs(n));
    assert IsDigit(ds[0]);
    assert forall c :: c in ds ==> IsDigit(c);
    if n < 0 {
      assert s == "-" + ds && s[1..] == ds;
      assert SkipSpace(s) == s;
    } else {
      assert SkipSpace(s) == s == ds;
    }
    DigitRunOfDigits(ds);
  }

  lemma {:induction false} NoNul(s: string)
    requires (0 as char) !in s
    ensures UpToNul(s) == s
  {
    if s != [] { NoNul(s[1..]); }
  }

  lemma ParsePrintedSequence(n: nat)
    requires n <= UINT64_MAX
    ensures ParseSequence(Print(n)) == Some(n)
    ensures '|' !in Print(n) && '\n' !in Print(n)
  {
    DigitRunOfDigits(Print(n));
    assert forall c :: c in Print(n) ==> IsDigit(c);
  }

  lemma PartsAreClean(f: Fields)
    requires Printable(f)
    ensures Clean(Parts(f), '|') && Clean(Parts(f), '\n')
  {
    hide Print, PrintInt, ParseLong, ParseSequence;
    ParsePrintedSequence(f.sequence);
    ParsePrinted(f.bidPx);
    ParsePrinted(f.bidQty);
    ParsePrinted(f.askPx);
    ParsePrinted(f.askQty);
  }

  /** The quote has exactly the line's fields, and comes from the simulated feed. */
  predicate Carries(q: Quote, f: Fields, symbolId: nat) {
    && q.update.bidPx == f.bidPx && q.update.bidQty == f.bidQty
    && q.update.askPx == f.askPx && q.update.askQty == f.askQty
    && q.update.symbol == f.symbol && q.update.symbolId == symbolId
    && q.update.exchangeSequence == q.update.header.sequence == f.sequence
    && q.update.header.source == 5 && q.update.header.destination == 2
    && q.venue.SimulatedItch? && FromAdapter(q)
  }

  /** A printed quote normalizes back to its fields. */
  lemma QuoteRoundTrip(f: Fields, symbolId: nat)
    requires Printable(f)
    ensures var out := Normalize(PrintLine(f), symbolId); out.Normalized? && Carries(out.quote, f, symbolId)
    ensures '\n' !in PrintLine(f)
  {
    hide Print, PrintInt, ParseLong, ParseSequence, Split, Join, Clean, UpToNul;
    PartsAreClean(f);
    SplitJoin(Parts(f), '|');
    JoinIsClean(Parts(f), '|', '\n');
    ParsePrintedSequence(f.sequence);
    ParsePrinted(f.bidPx);
    ParsePrinted(f.bidQty);
    ParsePrinted(f.askPx);
    ParsePrinted(f.askQty);
    NoNul(f.symbol);
  }

  /** What a line is worth: it is skipped exactly if it does not have seven parts, the first one Q, and a
      sequence; the program throws exactly if it has, and one of its four numbers cannot be read. */
  lemma LineIsWorth(parts: seq<string>, symbolId: nat)
    requires |parts| > 0 && Clean(parts, '|')
    ensures var out := Normalize(Join(parts, '|'), symbolId);
      && (out.Malformed? <==> |parts| != 7 || parts[0] != ['Q'] || ParseSequence(parts[1]) == None)
      && (out.Threw? <==>
            && |parts| == 7 && parts[0] == ['Q'] && ParseSequence(parts[1]).Some?
            && (ParseLong(parts[3]) == None || ParseLong(parts[4]) == None
                || ParseLong(parts[5]) == None || ParseLong(parts[6]) == None))
      && (out.Normalized? ==>
            && var u := out.quote.update;
            && Some(u.exchangeSequence) == Some(u.header.sequence) == ParseSequence(parts[1])
            && u.symbol == StoredSymbol(parts[2]) && u.symbolId == symbolId
            && Some(u.bidPx) == ParseLong(parts[3]) && Some(u.bidQty) == ParseLong(parts[4])
            && Some(u.askPx) == ParseLong(parts[5]) && Some(u.askQty) == ParseLong(parts[6])
            && out.quote.venue.SimulatedItch? && FromAdapter(out.quote))
  {
    SplitJoin(parts, '|');
    hide ParseSequence, ParseLong, StoredSymbol, Split, Join, Clean;
    assert Split(Join(parts, '|'), '|') == parts;
  }

  lemma {:induction false} JoinIsClean(parts: seq<string>, separator: char, c: char)
    requires |parts| > 0 && Clean(parts, c) && c != separator
    ensures c !in Join(parts, separator)
  {
    if |parts| > 1 { JoinIsClean(parts[1..], separator, c); }
  }

  function PrintLines(quotes: seq<Fields>): (lines: seq<string>)
    ensures |lines| == |quotes|
  {
    seq(|quotes|, i requires 0 <= i < |quotes| => PrintLine(quotes[i]))
  }

  /** The lines of a stream that have been received whole. */
  function CompleteLines(received: string): seq<string> {
    var parts := Split(received, '\n');
    parts[..|parts| - 1]
  }

  /** What a run makes of its lines: each is normalized in turn, malformed ones included, until the first that
      makes the program throw; if there is none, all are. */
  predicate IsRun(lines: seq<string>, symbolId: nat, out: seq<Outcome>) {
    && |out| <= |lines|
    && (forall i :: 0 <= i < |out| ==> out[i] == Normalize(lines[i], symbolId))
    && (forall i :: 0 <= i < |out| - 1 ==> !out[i].Threw?)
    && (|out| < |lines| ==> out != [] && out[|out| - 1].Threw?)
  }

  /** A run is determined by its lines. */
  lemma RunIsUnique(lines: seq<string>, symbolId: nat, a: seq<Outcome>, b: seq<Outcome>)
    requires IsRun(lines, symbolId, a) && IsRun(lines, symbolId, b)
    ensures a == b
  {
    hide Normalize;
    assert a != [] && |a| <= |b| ==> a[|a| - 1] == b[|a| - 1];
    assert b != [] && |b| <= |a| ==> b[|b| - 1] == a[|b| - 1];
  }

  lemma {:induction false} ConcatAll(chunks: seq<string>, i: nat)
    requires i <= |chunks|
    ensures Concat(chunks[..i]) <= Concat(chunks)
    decreases |chunks|
  {
    if i == |chunks| {
      assert chunks[..i] == chunks;
    } else {
      var n := |chunks| - 1;
      ConcatAll(chunks[..n], i);
      assert chunks[..n][..i] == chunks[..i];
    }
  }

  lemma CompleteLinesStay(received: string, all: string)
    requires received <= all
    ensures CompleteLines(received) <= CompleteLines(all)
  {
    hide Split;
    assert all == received + all[|received|..];
    SplitExtends(received, all[|received|..], '\n');
  }

  lemma MoreLinesSameRun(lines: seq<string>, more: seq<string>, symbolId: nat, out: seq<Outcome>)
    requires lines <= more && IsRun(lines, symbolId, out)
    requires out != [] && out[|out| - 1].Threw?
    ensures IsRun(more, symbolId, out)
  {
    hide Normalize;
  }

  /** The lines of one read: they are handled in order until one throws. */
  method Handle(lines: seq<string>, symbolId: nat) returns (out: seq<Outcome>)
    ensures IsRun(lines, symbolId, out)
  {
    hide Normalize;
    out := [];
    for i := 0 to |lines|
      invariant |out| == i && IsRun(lines[..i], symbolId, out)
      invariant forall k :: 0 <= k < i ==> !out[k].Threw?
    {
      out := out + [Normalize(lines[i], symbolId)];
      if out[i].Threw? { return; }
    }
    assert lines[..|lines|] == lines;
  }

  /** The receiver on any bytes in any chunks: what it makes of them is the run over the complete lines of
      the whole stream, so it depends neither on the chunks nor on anything behind a line that throws. */
  method Receive(chunks: seq<string>, symbolId: nat) returns (out: seq<Outcome>)
    ensures IsRun(CompleteLines(Concat(chunks)), symbolId, out)
  {
    hide Normalize, Split, Concat;
    out := [];
    var buffer := "";
    ghost var lines: seq<string> := [];
    NothingReceived(chunks);
    for i := 0 to |chunks|
      invariant lines + [buffer] == Split(Concat(chunks[..i]), '\n')
      invariant |out| == |lines| && IsRun(lines, symbolId, out) && forall k :: 0 <= k < |out| ==> !out[k].Threw?
    {
      ChunkArrives(chunks, i, lines, buffer);
      var taken;
      taken, buffer := TakeLines(buffer + chunks[i]);
      var more := Handle(taken, symbolId);
      RunsAppend(lines, taken, symbolId, out, more);
      out := out + more;
      lines := lines + taken;
      assert lines + [buffer] == Split(Concat(chunks[..i + 1]), '\n');
      if |more| > 0 && more[|more| - 1].Threw? {
        assert lines == CompleteLines(Concat(chunks[..i + 1])) by {
          assert (lines + [buffer])[..|lines|] == lines;
        }
        ConcatAll(chunks, i + 1);
        CompleteLinesStay(Concat(chunks[..i + 1]), Concat(chunks));
        MoreLinesSameRun(lines, CompleteLines(Concat(chunks)), symbolId, out);
        return;
      }
    }
    assert chunks[..|chunks|] == chunks;
    assert (lines + [buffer])[..|lines|] == lines;
  }

  lemma NothingReceived(chunks: seq<string>)
    ensures [] + [""] == Split(Concat(chunks[..0]), '\n')
  {
  }

  lemma ChunkArrives(chunks: seq<string>, i: nat, lines: seq<string>, buffer: string)
    requires i < |chunks| && lines + [buffer] == Split(Concat(chunks[..i]), '\n')
    ensures Split(Concat(chunks[..i + 1]), '\n') == lines + Split(buffer + chunks[i], '\n')
  {
    assert chunks[..i + 1][..i] == chunks[..i];
    SplitExtends(Concat(chunks[..i]), chunks[i], '\n');
    assert (lines + [buffer])[..|lines|] == lines;
    hide Split;
  }

  lemma RunsAppend(lines: seq<string>, taken: seq<string>, symbolId: nat, out: seq<Outcome>, more: seq<Outcome>)
    requires |out| == |lines| && IsRun(lines, symbolId, out) && forall k :: 0 <= k < |out| ==> !out[k].Threw?
    requires IsRun(taken, symbolId, more)
    ensures IsRun(lines + taken, symbolId, out + more)
  {
    hide Normalize;
  }

  /** A feed of printed quotes, however chunked: exactly one outcome per quote, with the quote's fields. */
  method ReceiveFeed(quotes: seq<Fields>, chunks: seq<string>, symbolId: nat) returns (out: seq<Outcome>)
    requires forall i :: 0 <= i < |quotes| ==> Printable(quotes[i])
    requires Concat(chunks) == Stream(PrintLines(quotes), "", '\n')
    ensures |out| == |quotes|
    ensures forall i :: 0 <= i < |quotes| ==>
      var f := quotes[i];
      && out[i].Normalized?
      && var q := out[i].quote;
      && q.update.bidPx == f.bidPx && q.update.bidQty == f.bidQty
      && q.update.askPx == f.askPx && q.update.askQty == f.askQty
      && q.update.symbol == f.symbol && q.update.symbolId == symbolId
      && q.update.exchangeSequence == q.update.header.sequence == f.sequence
      && q.venue.SimulatedItch? && FromAdapter(q)
  {
    hide PrintLine, Normalize, Split, Stream, Concat;
    out := Receive(chunks, symbolId);
    forall i | 0 <= i < |quotes|
      ensures '\n' !in PrintLines(quotes)[i]
      ensures Normalize(PrintLines(quotes)[i], symbolId).Normalized?
    {
      QuoteRoundTrip(quotes[i], symbolId);
    }
    ReassemblyIsExact(Concat(chunks), PrintLines(quotes), "");
    assert (PrintLines(quotes) + [""])[..|quotes|] == PrintLines(quotes);
    forall i | 0 <= i < |quotes|
      ensures i < |out| && out[i].Normalized? && Carries(out[i].quote, quotes[i], symbolId)
    {
      QuoteRoundTrip(quotes[i], symbolId);
    }
  }
}
