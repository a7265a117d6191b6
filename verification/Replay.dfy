/** Replay files: the record format, the writer and the reader. */
module Replay {
  import opened Bytes
  import opened Checksum
  import opened ExactIo
  import opened Framing
  import opened Words
  import opened Wrappers

  const MAGIC := 0x52504C31
  const VERSION := 2
  const HEADER_SIZE := 34
  /** The in-memory size of an envelope: its type, padding and the largest payload. */
  const ENVELOPE_SIZE := 112

  datatype Header = Header(magic: u32, version: u16, headerSize: u16, nodeRole: byte, sequence: u64,
                           timestamp: u64, messageType: byte, payloadSize: u32, checksum: u32)

  datatype Event = Event(nodeRole: byte, sequence: u64, timestamp: u64, messageType: byte, envelope: seq<byte>)

  predicate ValidEvent(e: Event) {
    |e.envelope| == ENVELOPE_SIZE
  }

  function EncodeHeader(h: Header): (s: seq<byte>)
    ensures |s| == HEADER_SIZE
  {
    LittleEndian(h.magic, 4) + LittleEndian(h.version, 2) + LittleEndian(h.headerSize, 2) + [h.nodeRole]
    + LittleEndian(h.sequence, 8) + LittleEndian(h.timestamp, 8) + [h.messageType]
    + LittleEndian(h.payloadSize, 4) + LittleEndian(h.checksum, 4)
  }

  function DecodeHeader(s: seq<byte>): (h: Header)
    requires |s| == HEADER_SIZE
  {
    Header(Get32(s[0..4]), Get16(s[4..6]), Get16(s[6..8]), s[8], Get64(s[9..17]), Get64(s[17..25]), s[25],
           Get32(s[26..30]), Get32(s[30..34]))
  }

  lemma DecodeEncodedHeader(h: Header)
    ensures DecodeHeader(EncodeHeader(h)) == h
  {
    var s := EncodeHeader(h);
    assert s[0..4] == LittleEndian(h.magic, 4);
    assert s[4..6] == LittleEndian(h.version, 2);
    assert s[6..8] == LittleEndian(h.headerSize, 2);
    assert s[9..17] == LittleEndian(h.sequence, 8);
    assert s[17..25] == LittleEndian(h.timestamp, 8);
    assert s[26..30] == LittleEndian(h.payloadSize, 4);
    assert s[30..34] == LittleEndian(h.checksum, 4);
    GetWhatWasPut(h.version, h.magic, h.sequence);
    GetWhatWasPut(h.headerSize, h.payloadSize, h.timestamp);
    GetWhatWasPut(0, h.checksum, 0);
  }

  lemma EncodeDecodedHeader(s: seq<byte>)
    requires |s| == HEADER_SIZE
    ensures EncodeHeader(DecodeHeader(s)) == s
  {
    assert s == s[0..4] + s[4..6] + s[6..8] + [s[8]] + s[9..17] + s[17..25] + [s[25]] + s[26..30] + s[30..34];
  }

  function HeaderOf(e: Event): Header {
    Header(MAGIC, VERSION, HEADER_SIZE, e.nodeRole, e.sequence, e.timestamp, e.messageType, ENVELOPE_SIZE,
           Fnv(e.envelope))
  }

  function EncodeEvent(e: Event): (s: seq<byte>)
    ensures |s| == HEADER_SIZE + |e.envelope|
  {
    EncodeHeader(HeaderOf(e)) + e.envelope
  }

  lemma HeaderBytes(h: Header)
    ensures var e := EncodeHeader(h);
      && e[0..4] == LittleEndian(h.magic, 4) && e[4..6] == LittleEndian(h.version, 2)
      && e[6..8] == LittleEndian(h.headerSize, 2) && e[8] == h.nodeRole && e[25] == h.messageType
      && Get64(e[9..17]) == h.sequence && Get64(e[17..25]) == h.timestamp
      && e[26..30] == LittleEndian(h.payloadSize, 4) && Get32(e[30..34]) == h.checksum
  {
    DecodeEncodedHeader(h);
    hide EncodeHeader, LittleEndian, FromLittleEndian;
  }

  lemma Constants()
    ensures LittleEndian(MAGIC, 4) == [0x31, 0x4C, 0x50, 0x52]
    ensures LittleEndian(VERSION, 2) == [2, 0] && LittleEndian(HEADER_SIZE, 2) == [34, 0]
    ensures LittleEndian(ENVELOPE_SIZE, 4) == [112, 0, 0, 0]
  {
  }

  /** An event in the file, byte by byte. */
  lemma BytesInFile(e: Event)
    ensures var s := EncodeEvent(e);
      && s[..9] == [0x31, 0x4C, 0x50, 0x52, 2, 0, 34, 0, e.nodeRole]
      && Get64(s[9..17]) == e.sequence && Get64(s[17..25]) == e.timestamp && s[25] == e.messageType
      && s[26..30] == [112, 0, 0, 0] && Get32(s[30..34]) == Fnv(e.envelope)
      && s[34..] == e.envelope
  {
    var h := EncodeHeader(HeaderOf(e));
    HeaderBytes(HeaderOf(e));
    Constants();
    hide EncodeHeader, DecodeHeader, LittleEndian, FromLittleEndian, Fnv, Get16, Get32, Get64;
    var s := EncodeEvent(e);
    assert s[0..4] == h[0..4] && s[4..6] == h[4..6] && s[6..8] == h[6..8] && s[8] == h[8] && s[25] == h[25];
    assert s[..9] == s[0..4] + s[4..6] + s[6..8] + [s[8]];
    assert h[9..17] == s[9..17] && h[17..25] == s[17..25] && h[26..30] == s[26..30] && h[30..34] == s[30..34];
  }

  function Accept(h: Header, body: seq<byte>): Option<(Event, nat)> {
    if h.magic != MAGIC || h.version != VERSION || h.headerSize != HEADER_SIZE || h.payloadSize != ENVELOPE_SIZE
    then None
    else if |body| < ENVELOPE_SIZE then None
    else if Fnv(body[..ENVELOPE_SIZE]) != h.checksum then None
    else Some((Event(h.nodeRole, h.sequence, h.timestamp, h.messageType, body[..ENVELOPE_SIZE]),
               HEADER_SIZE + ENVELOPE_SIZE))
  }

  function ParseEvent(s: seq<byte>): Option<(Event, nat)> {
    if |s| < HEADER_SIZE then None else Accept(DecodeHeader(s[..HEADER_SIZE]), s[HEADER_SIZE..])
  }

  lemma EncodingParses(e: Event, rest: seq<byte>)
    requires ValidEvent(e)
    ensures ParsesBack(ParseEvent, EncodeEvent, e, rest)
  {
    hide EncodeHeader, DecodeHeader, Fnv;
    var s := EncodeEvent(e) + rest;
    assert s[..HEADER_SIZE] == EncodeHeader(HeaderOf(e));
    assert s[HEADER_SIZE..][..ENVELOPE_SIZE] == e.envelope;
    DecodeEncodedHeader(HeaderOf(e));
  }

  lemma ParsedIsEncoding(s: seq<byte>)
    ensures ParsesExactly(ParseEvent, EncodeEvent, ValidEvent, s)
  {
    hide FromLittleEndian, LittleEndian, Fnv;
    if ParseEvent(s).Some? {
      var (e, n) := ParseEvent(s).value;
      assert HeaderOf(e) == DecodeHeader(s[..HEADER_SIZE]);
      EncodeDecodedHeader(s[..HEADER_SIZE]);
      assert s[..n] == s[..HEADER_SIZE] + s[HEADER_SIZE..][..n - HEADER_SIZE];
    }
  }

  lemma ReplayAgrees()
    ensures Agree(ParseEvent, EncodeEvent, ValidEvent)
  {
    forall e: Event, rest: seq<byte> | ValidEvent(e) ensures ParsesBack(ParseEvent, EncodeEvent, e, rest) {
      EncodingParses(e, rest);
    }
    forall s: seq<byte> ensures ParsesExactly(ParseEvent, EncodeEvent, ValidEvent, s) {
      ParsedIsEncoding(s);
    }
  }

  /** Bytes the checks do not cover: node role, sequence, timestamp and the message type. */
  predicate Undetectable(j: nat) {
    8 <= j < 26
  }

  function DamagedHeader(e: Event, j: nat, x: byte): Header
    requires j < HEADER_SIZE
  {
    DecodeHeader(EncodeHeader(HeaderOf(e))[j := x])
  }

  /** The event with byte j of its role, sequence, timestamp or message type set to x. */
  function WithHeaderByte(e: Event, j: nat, x: byte): Event
    requires Undetectable(j)
  {
    var h := DamagedHeader(e, j, x);
    Event(h.nodeRole, h.sequence, h.timestamp, h.messageType, e.envelope)
  }

  /** Damage to one header byte changes the field that holds it and no other. */
  lemma DamageHitsOneField(e: Event, j: nat, x: byte)
    requires j < HEADER_SIZE && x != EncodeEvent(e)[j]
    ensures var h, d := HeaderOf(e), DamagedHeader(e, j, x);
      && (d.magic == h.magic <==> !(j < 4))
      && (d.version == h.version <==> !(4 <= j < 6))
      && (d.headerSize == h.headerSize <==> !(6 <= j < 8))
      && d.nodeRole == (if j == 8 then x else h.nodeRole)
      && (d.sequence == h.sequence <==> !(9 <= j < 17))
      && (d.timestamp == h.timestamp <==> !(17 <= j < 25))
      && d.messageType == (if j == 25 then x else h.messageType)
      && (d.payloadSize == h.payloadSize <==> !(26 <= j < 30))
      && (d.checksum == h.checksum <==> !(30 <= j))
  {
    var s := EncodeHeader(HeaderOf(e));
    DecodeEncodedHeader(HeaderOf(e));
    assert s[j] == EncodeEvent(e)[j];
    OneByteChangesNumber(s, j, x, 0, 4);
    OneByteChangesNumber(s, j, x, 4, 6);
    OneByteChangesNumber(s, j, x, 6, 8);
    OneByteChangesNumber(s, j, x, 9, 17);
    OneByteChangesNumber(s, j, x, 17, 25);
    OneByteChangesNumber(s, j, x, 26, 30);
    OneByteChangesNumber(s, j, x, 30, 34);
  }

  lemma DamagedHeaderParse(e: Event, j: nat, x: byte, rest: seq<byte>)
    requires ValidEvent(e) && j < HEADER_SIZE && x != EncodeEvent(e)[j]
    ensures ParseEvent(EncodeEvent(e)[j := x] + rest) ==
      if Undetectable(j) then Some((WithHeaderByte(e, j, x), |EncodeEvent(e)|)) else None
  {
    var s := EncodeEvent(e)[j := x] + rest;
    assert s[..HEADER_SIZE] == EncodeHeader(HeaderOf(e))[j := x];
    assert s[HEADER_SIZE..][..ENVELOPE_SIZE] == e.envelope;
    DamageHitsOneField(e, j, x);
  }

  lemma DamagedEnvelope(e: Event, j: nat, x: byte, rest: seq<byte>)
    requires ValidEvent(e) && HEADER_SIZE <= j < |EncodeEvent(e)| && x != EncodeEvent(e)[j]
    ensures ParseEvent(EncodeEvent(e)[j := x] + rest) == None
  {
    var s := EncodeEvent(e)[j := x] + rest;
    assert s[..HEADER_SIZE] == EncodeHeader(HeaderOf(e));
    assert s[HEADER_SIZE..][..ENVELOPE_SIZE] == e.envelope[j - HEADER_SIZE := x];
    DecodeEncodedHeader(HeaderOf(e));
    SingleByteChangesChecksum(e.envelope, j - HEADER_SIZE, x);
  }

  lemma DamageShows(e: Event, j: nat, x: byte)
    requires Undetectable(j) && x != EncodeEvent(e)[j]
    ensures WithHeaderByte(e, j, x) != e
  {
    DamageHitsOneField(e, j, x);
    hide EncodeEvent, DamagedHeader;
  }

  /** One corrupted byte anywhere in a replay file: the reader stops right before the damaged event exactly
      when the checks cover the byte. Otherwise the event comes out with that one field altered, and role,
      sequence and timestamp are what the merge sorts by. */
  lemma SingleByteCorruption(before: seq<Event>, e: Event, rest: seq<byte>, j: nat, x: byte)
    requires AllValid(ValidEvent, before) && ValidEvent(e)
    requires j < |EncodeEvent(e)| && x != EncodeEvent(e)[j]
    ensures var file := EncodeAll(EncodeEvent, before) + EncodeEvent(e)[j := x] + rest;
      && (Events(file) == before <==> !Undetectable(j))
      && (Undetectable(j) ==> Events(file) == before + [WithHeaderByte(e, j, x)] + Events(rest))
      && (Undetectable(j) ==> WithHeaderByte(e, j, x) != e)
  {
    if Undetectable(j) { DamageShows(e, j, x); }
    hide EncodeEvent, EncodeAll, DecodeAll, ParseEvent, WithHeaderByte, Undetectable, ValidEvent;
    ReplayAgrees();
    if j < HEADER_SIZE { DamagedHeaderParse(e, j, x, rest); } else { DamagedEnvelope(e, j, x, rest); }
    var altered := if Undetectable(j) then Some(WithHeaderByte(e, j, x)) else None;
    DecodeDamaged(ParseEvent, EncodeEvent, ValidEvent, before, EncodeEvent(e)[j := x], altered, rest);
    if Undetectable(j) {
      Regroup(before, [WithHeaderByte(e, j, x)], Events(rest));
    } else {
      assert before + [] == before;
    }
  }

  /** The events a reader yields from a file before it first fails. */
  function Events(file: seq<byte>): seq<Event> {
    DecodeAll(ParseEvent, file)
  }

  lemma EventsAreValid(file: seq<byte>)
    ensures AllValid(ValidEvent, Events(file))
  {
    ReplayAgrees();
    ReencodedIsPrefix(ParseEvent, EncodeEvent, ValidEvent, file);
  }

  /** Reading a written file gives back every event. */
  lemma ReadsBack(events: seq<Event>)
    requires AllValid(ValidEvent, events)
    ensures Events(EncodeAll(EncodeEvent, events)) == events
  {
    hide ParseEvent, EncodeEvent;
    ReplayAgrees();
    DecodeEncode(ParseEvent, EncodeEvent, ValidEvent, events, []);
    assert EncodeAll(EncodeEvent, events) + [] == EncodeAll(EncodeEvent, events);
    assert ParsesExactly(ParseEvent, EncodeEvent, ValidEvent, []);
    assert events + [] == events;
  }

  class ReplayWriter {
    const fd: Descriptor
    const nodeRole: byte
    /** The events whose append reported success. */
    ghost var written: seq<Event>

    ghost predicate Valid()
      reads this, fd
    {
      AllValid(ValidEvent, written) && fd.outgoing == EncodeAll(EncodeEvent, written)
    }

    constructor (fd: Descriptor, nodeRole: byte)
      requires fd.outgoing == []
      ensures Valid() && written == [] && this.fd == fd && this.nodeRole == nodeRole
    {
      this.fd := fd;
      this.nodeRole := nodeRole;
      written := [];
    }

    method AppendEvent(event: Event) returns (ok: bool)
      requires ValidEvent(event)
      modifies fd`outgoing, fd`calls, this`written
      ensures ok <==> Smooth(fd.plan, old(fd.calls), fd.calls)
      ensures old(fd.calls) <= fd.calls <= old(fd.calls) + HEADER_SIZE + ENVELOPE_SIZE
      ensures ok ==> written == old(written) + [event]
      ensures ok && old(Valid()) ==> Valid()
      ensures !ok ==> written == old(written)
      ensures old(fd.outgoing) <= fd.outgoing <= old(fd.outgoing) + EncodeEvent(event)
    {
      hide EncodeAll, EncodeHeader, HeaderOf;
      var header := EncodeHeader(HeaderOf(event));
      assert EncodeEvent(event) == header + event.envelope;
      ok := fd.SendBoth(header, event.envelope);
      if ok {
        EncodeOneMore(EncodeEvent, written, event);
        written := written + [event];
      }
    }

    /** The header repeats the type byte the envelope starts with. */
    method Append(envelope: seq<byte>, sequence: u64, timestamp: u64) returns (ok: bool)
      requires |envelope| == ENVELOPE_SIZE
      modifies fd`outgoing, fd`calls, this`written
      ensures ok <==> Smooth(fd.plan, old(fd.calls), fd.calls)
      ensures old(fd.calls) <= fd.calls <= old(fd.calls) + HEADER_SIZE + ENVELOPE_SIZE
      ensures ok ==> written == old(written) + [Event(nodeRole, sequence, timestamp, envelope[0], envelope)]
      ensures ok && old(Valid()) ==> Valid()
      ensures !ok ==> written == old(written)
    {
      ok := AppendEvent(Event(nodeRole, sequence, timestamp, envelope[0], envelope));
    }
  }

  class ReplayReader {
    const fd: Descriptor

    constructor (fd: Descriptor)
      ensures this.fd == fd
    {
      this.fd := fd;
    }

    method Next() returns (event: Option<Event>)
      modifies fd`incoming, fd`calls
      ensures |fd.incoming| <= |old(fd.incoming)| && old(fd.calls) <= fd.calls <= old(fd.calls) + |old(fd.incoming)|
      ensures event.Some? <==> ParseEvent(old(fd.incoming)).Some? && Smooth(fd.plan, old(fd.calls), fd.calls)
      ensures event.Some? ==>
        var (e, n) := ParseEvent(old(fd.incoming)).value;
        event == Some(e) && n <= |old(fd.incoming)| && fd.incoming == old(fd.incoming)[n..] && fd.calls <= old(fd.calls) + n
    {
      hide DecodeHeader, Fnv;
      var ok, bytes := fd.ReceiveExact(HEADER_SIZE);
      if !ok { return None; }
      ghost var body := fd.incoming;
      var h := DecodeHeader(bytes);
      if h.magic != MAGIC || h.version != VERSION || h.headerSize != HEADER_SIZE || h.payloadSize != ENVELOPE_SIZE {
        return None;
      }
      var envelope;
      ok, envelope := fd.ReceiveExact(ENVELOPE_SIZE);
      if !ok { return None; }
      var actual := ComputeChecksum(envelope);
      if actual != h.checksum { return None; }
      assert body[ENVELOPE_SIZE..] == old(fd.incoming)[HEADER_SIZE + ENVELOPE_SIZE..];
      return Some(Event(h.nodeRole, h.sequence, h.timestamp, h.messageType, envelope));
    }
  }
}
