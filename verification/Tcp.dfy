/** TCP frames: the format, the connection's send and receive, and what arrives however the stream is
    chunked or cut. */
module Tcp {
  import opened Bytes
  import opened Checksum
  import opened ExactIo
  import opened Framing
  import opened Wire
  import opened Words
  import opened Wrappers

  const MAGIC := 0x4C4C5431
  const VERSION := 1
  const HEADER_SIZE := 25
  const MAX_PAYLOAD := 4096

  /** The packed frame header. The receiver does not look at headerSize and hands on no sequence. */
  datatype Header = Header(magic: u32, version: u16, headerSize: u16, messageType: byte,
                           payloadSize: u32, sequence: u64, checksum: u32)

  datatype Frame = Frame(headerSize: u16, sequence: u64, envelope: Envelope)

  function EncodeHeader(h: Header): (s: seq<byte>)
    ensures |s| == HEADER_SIZE
  {
    LittleEndian(h.magic, 4) + LittleEndian(h.version, 2) + LittleEndian(h.headerSize, 2) + [h.messageType]
    + LittleEndian(h.payloadSize, 4) + LittleEndian(h.sequence, 8) + LittleEndian(h.checksum, 4)
  }

  function DecodeHeader(s: seq<byte>): (h: Header)
    requires |s| == HEADER_SIZE
  {
    Header(Get32(s[0..4]), Get16(s[4..6]), Get16(s[6..8]), s[8], Get32(s[9..13]), Get64(s[13..21]), Get32(s[21..25]))
  }

  lemma DecodeEncodedHeader(h: Header)
    ensures DecodeHeader(EncodeHeader(h)) == h
  {
    var s := EncodeHeader(h);
    assert s[0..4] == LittleEndian(h.magic, 4);
    assert s[4..6] == LittleEndian(h.version, 2);
    assert s[6..8] == LittleEndian(h.headerSize, 2);
    assert s[9..13] == LittleEndian(h.payloadSize, 4);
    assert s[13..21] == LittleEndian(h.sequence, 8);
    assert s[21..25] == LittleEndian(h.checksum, 4);
    GetWhatWasPut(h.version, h.magic, h.sequence);
    GetWhatWasPut(h.headerSize, h.payloadSize, 0);
    GetWhatWasPut(0, h.checksum, 0);
  }

  lemma EncodeDecodedHeader(s: seq<byte>)
    requires |s| == HEADER_SIZE
    ensures EncodeHeader(DecodeHeader(s)) == s
  {
    assert s == s[0..4] + s[4..6] + s[6..8] + [s[8]] + s[9..13] + s[13..21] + s[21..25];
  }

  predicate ValidFrame(f: Frame) {
    HasPayload(f.envelope)
  }

  function HeaderOf(f: Frame): Header {
    Header(MAGIC, VERSION, f.headerSize, f.envelope.messageType, |f.envelope.payload|, f.sequence, Fnv(f.envelope.payload))
  }

  function EncodeFrame(f: Frame): (s: seq<byte>)
    ensures |s| == HEADER_SIZE + |f.envelope.payload|
  {
    EncodeHeader(HeaderOf(f)) + f.envelope.payload
  }

  lemma HeaderBytes(h: Header)
    ensures var e := EncodeHeader(h);
      && e[0..4] == LittleEndian(h.magic, 4) && e[4..6] == LittleEndian(h.version, 2)
      && Get16(e[6..8]) == h.headerSize && e[8] == h.messageType
      && Get32(e[9..13]) == h.payloadSize && Get64(e[13..21]) == h.sequence && Get32(e[21..25]) == h.checksum
  {
    DecodeEncodedHeader(h);
    hide EncodeHeader, LittleEndian, FromLittleEndian;
  }

  lemma Constants()
    ensures LittleEndian(MAGIC, 4) == [0x31, 0x54, 0x4C, 0x4C] && LittleEndian(VERSION, 2) == [1, 0]
  {
  }

  /** A frame on the wire, byte by byte. */
  lemma BytesOnWire(f: Frame)
    ensures var s := EncodeFrame(f);
      && s[..6] == [0x31, 0x54, 0x4C, 0x4C, 1, 0] && Get16(s[6..8]) == f.headerSize
      && s[8] == f.envelope.messageType
      && Get32(s[9..13]) == |f.envelope.payload| && Get64(s[13..21]) == f.sequence
      && Get32(s[21..25]) == Fnv(f.envelope.payload)
      && s[25..] == f.envelope.payload
  {
    var h := EncodeHeader(HeaderOf(f));
    HeaderBytes(HeaderOf(f));
    Constants();
    hide EncodeHeader, DecodeHeader, LittleEndian, FromLittleEndian, Fnv, Get16, Get32, Get64;
    var s := EncodeFrame(f);
    assert s[0..4] == h[0..4] && s[4..6] == h[4..6] && s[6..8] == h[6..8] && s[8] == h[8];
    assert s[..6] == s[0..4] + s[4..6];
    assert h[9..13] == s[9..13] && h[13..21] == s[13..21] && h[21..25] == s[21..25];
  }

  /** The receiver's checks on a header and the bytes behind it. */
  function Accept(h: Header, body: seq<byte>): Option<(Frame, nat)> {
    var expected := PayloadSize(h.messageType);
    if h.magic != MAGIC || h.version != VERSION then None
    else if h.payloadSize > MAX_PAYLOAD then None
    else if expected == 0 || expected != h.payloadSize then None
    else if |body| < expected then None
    else if Fnv(body[..expected]) != h.checksum then None
    else Some((Frame(h.headerSize, h.sequence, RawEnvelope(h.messageType, body[..expected])), HEADER_SIZE + expected))
  }

  function ParseFrame(s: seq<byte>): Option<(Frame, nat)> {
    if |s| < HEADER_SIZE then None else Accept(DecodeHeader(s[..HEADER_SIZE]), s[HEADER_SIZE..])
  }

  lemma EncodingParses(f: Frame, rest: seq<byte>)
    requires ValidFrame(f)
    ensures ParsesBack(ParseFrame, EncodeFrame, f, rest)
  {
    hide EncodeHeader, DecodeHeader, Fnv, PayloadSize;
    var s, payload := EncodeFrame(f) + rest, f.envelope.payload;
    assert s[..HEADER_SIZE] == EncodeHeader(HeaderOf(f));
    assert s[HEADER_SIZE..][..|payload|] == payload;
    DecodeEncodedHeader(HeaderOf(f));
  }

  lemma ParsedIsEncoding(s: seq<byte>)
    ensures ParsesExactly(ParseFrame, EncodeFrame, ValidFrame, s)
  {
    hide FromLittleEndian, LittleEndian, Fnv;
    if ParseFrame(s).Some? {
      var (f, n) := ParseFrame(s).value;
      assert HeaderOf(f) == DecodeHeader(s[..HEADER_SIZE]);
      EncodeDecodedHeader(s[..HEADER_SIZE]);
      assert s[..n] == s[..HEADER_SIZE] + s[HEADER_SIZE..][..n - HEADER_SIZE];
    }
  }

  lemma TcpAgrees()
    ensures Agree(ParseFrame, EncodeFrame, ValidFrame)
  {
    forall f: Frame, rest: seq<byte> | ValidFrame(f) ensures ParsesBack(ParseFrame, EncodeFrame, f, rest) {
      EncodingParses(f, rest);
    }
    forall s: seq<byte> ensures ParsesExactly(ParseFrame, EncodeFrame, ValidFrame, s) {
      ParsedIsEncoding(s);
    }
  }

  function Envelopes(frames: seq<Frame>): (es: seq<Envelope>)
    ensures |es| == |frames|
  {
    seq(|frames|, i requires 0 <= i < |frames| => frames[i].envelope)
  }

  /** Every frame of a stream up to its first invalid one, or its end. */
  function Frames(stream: seq<byte>): seq<Frame> {
    DecodeAll(ParseFrame, stream)
  }

  /** Bytes the checks do not cover: the header size, the sequence, and a message type replaced by another
      of the same payload size. */
  predicate Undetectable(f: Frame, j: nat, x: byte) {
    6 <= j < 8 || 13 <= j < 21 || (j == 8 && PayloadSize(x) == PayloadSize(f.envelope.messageType))
  }

  function DamagedHeader(f: Frame, j: nat, x: byte): Header
    requires j < HEADER_SIZE
  {
    DecodeHeader(EncodeHeader(HeaderOf(f))[j := x])
  }

  function WithHeaderByte(f: Frame, j: nat, x: byte): Frame
    requires Undetectable(f, j, x)
  {
    var h := DamagedHeader(f, j, x);
    Frame(h.headerSize, h.sequence, RawEnvelope(if j == 8 then x else f.envelope.messageType, f.envelope.payload))
  }

  /** Damage to one header byte changes the field that holds it and no other. */
  lemma DamageHitsOneField(f: Frame, j: nat, x: byte)
    requires j < HEADER_SIZE && x != EncodeFrame(f)[j]
    ensures var h, d := HeaderOf(f), DamagedHeader(f, j, x);
      && (d.magic == h.magic <==> !(j < 4))
      && (d.version == h.version <==> !(4 <= j < 6))
      && (d.headerSize == h.headerSize <==> !(6 <= j < 8))
      && d.messageType == (if j == 8 then x else h.messageType)
      && (d.payloadSize == h.payloadSize <==> !(9 <= j < 13))
      && (d.sequence == h.sequence <==> !(13 <= j < 21))
      && (d.checksum == h.checksum <==> !(21 <= j))
  {
    var s := EncodeHeader(HeaderOf(f));
    DecodeEncodedHeader(HeaderOf(f));
    assert s[j] == EncodeFrame(f)[j];
    OneByteChangesNumber(s, j, x, 0, 4);
    OneByteChangesNumber(s, j, x, 4, 6);
    OneByteChangesNumber(s, j, x, 6, 8);
    OneByteChangesNumber(s, j, x, 9, 13);
    OneByteChangesNumber(s, j, x, 13, 21);
    OneByteChangesNumber(s, j, x, 21, 25);
  }

  lemma DamagedHeaderParse(f: Frame, j: nat, x: byte, rest: seq<byte>)
    requires ValidFrame(f) && j < HEADER_SIZE && x != EncodeFrame(f)[j]
    ensures ParseFrame(EncodeFrame(f)[j := x] + rest) ==
      if Undetectable(f, j, x) then Some((WithHeaderByte(f, j, x), |EncodeFrame(f)|)) else None
  {
    var s, payload := EncodeFrame(f)[j := x] + rest, f.envelope.payload;
    assert s[..HEADER_SIZE] == EncodeHeader(HeaderOf(f))[j := x];
    assert s[HEADER_SIZE..][..|payload|] == payload;
    DamageHitsOneField(f, j, x);
  }

  lemma DamagedPayload(f: Frame, j: nat, x: byte, rest: seq<byte>)
    requires ValidFrame(f) && HEADER_SIZE <= j < |EncodeFrame(f)| && x != EncodeFrame(f)[j]
    ensures ParseFrame(EncodeFrame(f)[j := x] + rest) == None
  {
    var s, payload := EncodeFrame(f)[j := x] + rest, f.envelope.payload;
    assert s[..HEADER_SIZE] == EncodeHeader(HeaderOf(f));
    assert s[HEADER_SIZE..][..|payload|] == payload[j - HEADER_SIZE := x];
    DecodeEncodedHeader(HeaderOf(f));
    SingleByteChangesChecksum(payload, j - HEADER_SIZE, x);
  }

  lemma DamageShows(f: Frame, j: nat, x: byte)
    requires Undetectable(f, j, x) && x != EncodeFrame(f)[j]
    ensures WithHeaderByte(f, j, x).envelope == f.envelope <==> j != 8
    ensures WithHeaderByte(f, j, x).envelope.payload == f.envelope.payload
  {
    DamageHitsOneField(f, j, x);
    hide EncodeFrame, DamagedHeader, PayloadSize;
  }

  /** One corrupted byte anywhere in a stream: receiving stops right before the damaged frame exactly when
      the checks cover the byte. Otherwise reception goes on behind it, and what is handed on differs at
      most in a message type of the same size; in the payload never. */
  lemma SingleByteCorruption(before: seq<Frame>, f: Frame, rest: seq<byte>, j: nat, x: byte)
    requires AllValid(ValidFrame, before) && ValidFrame(f)
    requires j < |EncodeFrame(f)| && x != EncodeFrame(f)[j]
    ensures var stream := EncodeAll(EncodeFrame, before) + EncodeFrame(f)[j := x] + rest;
      && (Frames(stream) == before <==> !Undetectable(f, j, x))
      && (Undetectable(f, j, x) ==> Frames(stream) == before + [WithHeaderByte(f, j, x)] + Frames(rest))
    ensures Undetectable(f, j, x) ==>
      && (WithHeaderByte(f, j, x).envelope == f.envelope <==> j != 8)
      && WithHeaderByte(f, j, x).envelope.payload == f.envelope.payload
  {
    if Undetectable(f, j, x) { DamageShows(f, j, x); }
    hide EncodeFrame, EncodeAll, DecodeAll, ParseFrame, WithHeaderByte, Undetectable, ValidFrame;
    TcpAgrees();
    if j < HEADER_SIZE { DamagedHeaderParse(f, j, x, rest); } else { DamagedPayload(f, j, x, rest); }
    var altered := if Undetectable(f, j, x) then Some(WithHeaderByte(f, j, x)) else None;
    DecodeDamaged(ParseFrame, EncodeFrame, ValidFrame, before, EncodeFrame(f)[j := x], altered, rest);
    if Undetectable(f, j, x) {
      Regroup(before, [WithHeaderByte(f, j, x)], Frames(rest));
    } else {
      assert before + [] == before;
    }
  }

  class TcpConnection {
    const fd: Descriptor
    var isOpen: bool
    /** The frames whose send reported success. */
    ghost var sent: seq<Frame>

    /** The outgoing stream is exactly the frames sent. */
    ghost predicate Streaming()
      reads this, fd
    {
      AllValid(ValidFrame, sent) && fd.outgoing == EncodeAll(EncodeFrame, sent)
    }

    constructor (fd: Descriptor)
      ensures this.fd == fd && isOpen && sent == []
      ensures fd.outgoing == [] ==> Streaming()
    {
      this.fd := fd;
      isOpen := true;
      sent := [];
    }

    method BuildHeader(envelope: Envelope, sequence: u64) returns (header: seq<byte>)
      ensures header + envelope.payload == EncodeFrame(Frame(HEADER_SIZE, sequence, envelope))
    {
      var checksum := ComputeChecksum(envelope.payload);
      header := EncodeHeader(Header(MAGIC, VERSION, HEADER_SIZE, envelope.messageType,
                                    PayloadSize(envelope.messageType), sequence, checksum));
    }

    /** On an open connection a sendable envelope goes out exactly if no call errs, and then as exactly one
        more frame; otherwise at most part of one goes out. */
    method SendEnvelope(envelope: Envelope, sequence: u64) returns (ok: bool)
      modifies fd`outgoing, fd`calls, this`sent
      ensures ok <==> isOpen && HasPayload(envelope) && Smooth(fd.plan, old(fd.calls), fd.calls)
      ensures old(fd.calls) <= fd.calls <= old(fd.calls) + HEADER_SIZE + |envelope.payload|
      ensures ok ==> sent == old(sent) + [Frame(HEADER_SIZE, sequence, envelope)]
      ensures ok && old(Streaming()) ==> Streaming()
      ensures !ok ==> sent == old(sent)
      ensures old(fd.outgoing) <= fd.outgoing
      ensures fd.outgoing <= old(fd.outgoing) + EncodeFrame(Frame(HEADER_SIZE, sequence, envelope))
      ensures !isOpen || !HasPayload(envelope) ==> fd.outgoing == old(fd.outgoing)
    {
      if !isOpen { return false; }
      if PayloadSize(envelope.messageType) == 0 { return false; }
      hide EncodeFrame, EncodeAll, PayloadSize;
      var header := BuildHeader(envelope, sequence);
      ghost var f := Frame(HEADER_SIZE, sequence, envelope);
      ok := fd.SendBoth(header, envelope.payload);
      if ok {
        EncodeOneMore(EncodeFrame, sent, f);
        sent := sent + [f];
      }
    }

    /** Sending one message after the other until a send fails, as every node does. */
    method SendAll(messages: seq<(Envelope, u64)>) returns (n: nat)
      requires isOpen && Streaming() && forall i :: 0 <= i < |messages| ==> HasPayload(messages[i].0)
      modifies fd`outgoing, fd`calls, this`sent
      ensures n <= |messages| && sent == old(sent) + FramesOf(messages)[..n]
      ensures n == |messages| <==> Smooth(fd.plan, old(fd.calls), fd.calls)
      ensures old(fd.calls) <= fd.calls
      ensures fd.calls - old(fd.calls) <= |EncodeAll(EncodeFrame, old(sent) + FramesOf(messages)[..Min(n + 1, |messages|)])|
      ensures EncodeAll(EncodeFrame, sent) <= fd.outgoing
      ensures fd.outgoing <= EncodeAll(EncodeFrame, old(sent) + FramesOf(messages)[..Min(n + 1, |messages|)])
    {
      n := 0;
      var frames := FramesOf(messages);
      hide EncodeFrame, EncodeAll;
      assert sent + frames[..0] == sent;
      while n < |messages|
        invariant 0 <= n <= |messages| && isOpen && Streaming() && sent == old(sent) + frames[..n]
        invariant old(fd.calls) <= fd.calls <= old(fd.calls) + |EncodeAll(EncodeFrame, sent)|
        invariant Smooth(fd.plan, old(fd.calls), fd.calls)
      {
        EncodeNext(old(sent), frames, n);
        var ok := SendEnvelope(messages[n].0, messages[n].1);
        if !ok { return; }
        n := n + 1;
      }
    }

    /** The first frame of what is still to come, whatever the chunking, unless a call errs; None consumes
        what it looked at. */
    method ReceiveEnvelope() returns (envelope: Option<Envelope>)
      modifies fd`incoming, fd`calls
      ensures |fd.incoming| <= |old(fd.incoming)| && old(fd.calls) <= fd.calls <= old(fd.calls) + |old(fd.incoming)|
      ensures envelope.Some? <==>
        isOpen && ParseFrame(old(fd.incoming)).Some? && Smooth(fd.plan, old(fd.calls), fd.calls)
      ensures envelope.Some? ==>
        var (f, n) := ParseFrame(old(fd.incoming)).value;
        envelope == Some(f.envelope) && n <= |old(fd.incoming)| && fd.incoming == old(fd.incoming)[n..]
        && fd.calls <= old(fd.calls) + n
    {
      hide DecodeHeader, Fnv, PayloadSize;
      if !isOpen { return None; }
      var ok, bytes := fd.ReceiveExact(HEADER_SIZE);
      if !ok { return None; }
      ghost var body := fd.incoming;
      var header := DecodeHeader(bytes);
      if header.magic != MAGIC || header.version != VERSION { return None; }
      if header.payloadSize > MAX_PAYLOAD { return None; }
      var expected := PayloadSize(header.messageType);
      if expected == 0 || expected != header.payloadSize { return None; }
      var payload;
      ok, payload := fd.ReceiveExact(expected);
      if !ok { return None; }
      var actual := ComputeChecksum(payload);
      if actual != header.checksum { return None; }
      assert body[expected..] == old(fd.incoming)[HEADER_SIZE + expected..];
      return Some(RawEnvelope(header.messageType, payload));
    }

    /** Receiving until the first failure, as every node does: the first frames in order, and all of them
        unless one of the calls made errs. */
    method ReceiveAll() returns (envelopes: seq<Envelope>)
      requires isOpen
      modifies fd`incoming, fd`calls
      ensures envelopes <= Envelopes(Frames(old(fd.incoming)))
      ensures Smooth(fd.plan, old(fd.calls), fd.calls) ==> envelopes == Envelopes(Frames(old(fd.incoming)))
      ensures old(fd.calls) <= fd.calls <= old(fd.calls) + |old(fd.incoming)|
    {
      hide ParseFrame;
      envelopes := [];
      ghost var got: seq<Frame> := [];
      assert got + Frames(fd.incoming) == Frames(fd.incoming);
      while true
        invariant envelopes == Envelopes(got)
        invariant Frames(old(fd.incoming)) == got + Frames(fd.incoming)
        invariant |fd.incoming| <= |old(fd.incoming)|
        invariant old(fd.calls) <= fd.calls <= old(fd.calls) + |old(fd.incoming)| - |fd.incoming|
        decreases |fd.incoming|
      {
        ghost var before, from := fd.incoming, fd.calls;
        ParseMakesProgress(before);
        var next := ReceiveEnvelope();
        if next == None {
          assert Smooth(fd.plan, old(fd.calls), fd.calls) ==> Smooth(fd.plan, from, fd.calls);
          assert Smooth(fd.plan, from, fd.calls) ==> Frames(before) == [] && got + [] == got;
          assert Envelopes(got) == Envelopes(got + Frames(before))[..|got|];
          break;
        }
        ghost var f := ParseFrame(before).value.0;
        assert got + ([f] + Frames(fd.incoming)) == got + [f] + Frames(fd.incoming);
        envelopes := envelopes + [next.value];
        got := got + [f];
      }
    }
  }

  /** The frames a sender makes of its messages. */
  function FramesOf(messages: seq<(Envelope, u64)>): (frames: seq<Frame>)
    ensures |frames| == |messages|
  {
    seq(|messages|, i requires 0 <= i < |messages| => Frame(HEADER_SIZE, messages[i].1, messages[i].0))
  }

  function EnvelopesOf(messages: seq<(Envelope, u64)>): (es: seq<Envelope>)
    ensures |es| == |messages|
  {
    seq(|messages|, i requires 0 <= i < |messages| => messages[i].0)
  }

  lemma EncodeNext(before: seq<Frame>, frames: seq<Frame>, n: nat)
    requires n < |frames|
    ensures before + frames[..n + 1] == before + frames[..n] + [frames[n]]
    ensures EncodeAll(EncodeFrame, before + frames[..n + 1])
      == EncodeAll(EncodeFrame, before + frames[..n]) + EncodeFrame(frames[n])
  {
    hide EncodeFrame, EncodeAll;
    assert before + frames[..n + 1] == before + frames[..n] + [frames[n]];
    EncodeOneMore(EncodeFrame, before + frames[..n], frames[n]);
  }

  /** The encoding of the first messages is a prefix of the encoding of all. */
  lemma EncodePrefix(frames: seq<Frame>, n: nat)
    requires n <= |frames|
    ensures EncodeAll(EncodeFrame, frames[..n]) <= EncodeAll(EncodeFrame, frames)
  {
    hide EncodeFrame, EncodeAll;
    assert frames == frames[..n] + frames[n..];
    EncodeAllAppends(EncodeFrame, frames[..n], frames[n..]);
  }

  /** End to end, for every list of sendable envelopes, every choice of partial sizes on either side, errors
      anywhere and a cut after any byte. What went out holds the `sent` frames reported sent and at most part
      of one more; `arrived` bytes are left of it by the cut. What is received is a prefix of the messages,
      and unless a receive call that was made errs, exactly the frames wholly in the bytes that arrived:
      without a cut those sent and at most the one whose send failed. */
  method Deliver(messages: seq<(Envelope, u64)>, near: Descriptor, far: Descriptor, cut: Option<nat>)
    returns (received: seq<Envelope>, sent: nat, arrived: nat)
    requires near != far && near.outgoing == []
    requires forall i :: 0 <= i < |messages| ==> HasPayload(messages[i].0)
    modifies near`outgoing, near`calls, far`incoming, far`calls
    ensures old(near.calls) <= near.calls && old(far.calls) <= far.calls
    ensures sent <= |messages| && (sent == |messages| <==> Smooth(near.plan, old(near.calls), near.calls))
    ensures EncodeAll(EncodeFrame, FramesOf(messages)[..sent]) <= near.outgoing
    ensures near.outgoing <= EncodeAll(EncodeFrame, FramesOf(messages)[..Min(sent + 1, |messages|)])
    ensures sent == |messages| ==> near.outgoing == EncodeAll(EncodeFrame, FramesOf(messages))
    ensures arrived == if cut == None then |near.outgoing| else Min(cut.value, |near.outgoing|)
    ensures received <= EnvelopesOf(messages)
    ensures Smooth(far.plan, old(far.calls), far.calls) ==>
      && |EncodeAll(EncodeFrame, FramesOf(messages)[..|received|])| <= arrived
      && (|received| < |messages| ==> arrived < |EncodeAll(EncodeFrame, FramesOf(messages)[..|received| + 1])|)
      && (arrived == |near.outgoing| ==> sent <= |received| <= sent + 1)
      && (arrived == |near.outgoing| && sent == |messages| ==> received == EnvelopesOf(messages))
  {
    hide EncodeFrame, EncodeAll, ParseFrame, DecodeAll, FramesOf, EnvelopesOf;
    EncodeNothing();
    var sender := new TcpConnection(near);
    sent := sender.SendAll(messages);
    var stream := near.outgoing;
    arrived := if cut == None then |stream| else Min(cut.value, |stream|);
    WhatArrives(messages, sent, stream, arrived);
    far.incoming := stream[..arrived];
    var receiver := new TcpConnection(far);
    received := receiver.ReceiveAll();
  }

  /** Of a stream that holds the first `sent` frames and at most part of one more. */
  lemma FramesArrive(frames: seq<Frame>, sent: nat, stream: seq<byte>, arrived: nat)
    requires AllValid(ValidFrame, frames) && sent <= |frames| && arrived <= |stream|
    requires EncodeAll(EncodeFrame, frames[..sent]) <= stream
    requires stream <= EncodeAll(EncodeFrame, frames[..Min(sent + 1, |frames|)])
    ensures var k := |Frames(stream[..arrived])|;
      && k <= |frames| && Frames(stream[..arrived]) == frames[..k]
      && |EncodeAll(EncodeFrame, frames[..k])| <= arrived
      && (k < |frames| ==> arrived < |EncodeAll(EncodeFrame, frames[..k + 1])|)
      && (arrived == |stream| ==> sent <= k <= sent + 1)
      && (sent == |frames| ==> stream == EncodeAll(EncodeFrame, frames))
  {
    hide EncodeFrame, EncodeAll, ParseFrame, DecodeAll, AllValid;
    EncodePrefix(frames, Min(sent + 1, |frames|));
    assert stream[..arrived] == EncodeAll(EncodeFrame, frames)[..arrived];
    DeliveredFrames(frames, arrived);
    if arrived == |stream| { CountArrived(frames, sent, arrived, |Frames(stream[..arrived])|); }
    assert sent == |frames| ==> frames[..sent] == frames;
  }

  /** The same for the messages behind the frames. */
  lemma WhatArrives(messages: seq<(Envelope, u64)>, sent: nat, stream: seq<byte>, arrived: nat)
    requires forall i :: 0 <= i < |messages| ==> HasPayload(messages[i].0)
    requires sent <= |messages| && arrived <= |stream|
    requires EncodeAll(EncodeFrame, [] + FramesOf(messages)[..sent]) <= stream
    requires stream <= EncodeAll(EncodeFrame, [] + FramesOf(messages)[..Min(sent + 1, |messages|)])
    ensures var frames, k := FramesOf(messages), |Frames(stream[..arrived])|;
      && k <= |messages| && Envelopes(Frames(stream[..arrived])) == EnvelopesOf(messages)[..k]
      && |EncodeAll(EncodeFrame, frames[..k])| <= arrived
      && (k < |messages| ==> arrived < |EncodeAll(EncodeFrame, frames[..k + 1])|)
      && (arrived == |stream| ==> sent <= k <= sent + 1)
      && (sent == |messages| ==> stream == EncodeAll(EncodeFrame, frames))
      && [] + frames[..sent] == frames[..sent]
      && [] + frames[..Min(sent + 1, |messages|)] == frames[..Min(sent + 1, |messages|)]
      && (k == |messages| ==> EnvelopesOf(messages)[..k] == EnvelopesOf(messages))
  {
    var frames, upTo := FramesOf(messages), Min(sent + 1, |messages|);
    AllSendable(messages);
    assert [] + frames[..sent] == frames[..sent] && [] + frames[..upTo] == frames[..upTo];
    FramesArrive(frames, sent, stream, arrived);
    EnvelopesOfPrefix(messages, |Frames(stream[..arrived])|);
    hide *;
  }

  lemma EnvelopesOfPrefix(messages: seq<(Envelope, u64)>, k: nat)
    requires k <= |messages|
    ensures Envelopes(FramesOf(messages)[..k]) == EnvelopesOf(messages)[..k]
    ensures k == |messages| ==> EnvelopesOf(messages)[..k] == EnvelopesOf(messages)
  {
  }

  lemma EncodeNothing()
    ensures EncodeAll(EncodeFrame, []) == []
  {
  }

  lemma AllSendable(messages: seq<(Envelope, u64)>)
    requires forall i :: 0 <= i < |messages| ==> HasPayload(messages[i].0)
    ensures AllValid(ValidFrame, FramesOf(messages))
  {
  }

  lemma LongerTakesMore(frames: seq<Frame>, a: nat, b: nat)
    requires a < b <= |frames|
    ensures |EncodeAll(EncodeFrame, frames[..a])| < |EncodeAll(EncodeFrame, frames[..b])|
  {
    var f := frames[a];
    assert |EncodeFrame(f)| > 0;
    hide EncodeFrame, EncodeAll;
    assert frames[..a + 1] == frames[..a] + [f];
    EncodeOneMore(EncodeFrame, frames[..a], f);
    assert frames[..b][..a + 1] == frames[..a + 1];
    EncodePrefix(frames[..b], a + 1);
  }

  /** If the bytes that arrived hold `sent` whole frames and at most part of one more, k is one of the two. */
  lemma CountArrived(frames: seq<Frame>, sent: nat, arrived: nat, k: nat)
    requires sent <= |frames| && k <= |frames|
    requires |EncodeAll(EncodeFrame, frames[..sent])| <= arrived
    requires arrived <= |EncodeAll(EncodeFrame, frames[..Min(sent + 1, |frames|)])|
    requires |EncodeAll(EncodeFrame, frames[..k])| <= arrived
    requires k < |frames| ==> arrived < |EncodeAll(EncodeFrame, frames[..k + 1])|
    ensures sent <= k <= sent + 1
  {
    hide EncodeFrame, EncodeAll;
    if k < sent {
      if k + 1 < sent { LongerTakesMore(frames, k + 1, sent); }
    } else if sent + 1 < k {
      LongerTakesMore(frames, sent + 1, k);
    }
  }

  lemma ParseMakesProgress(s: seq<byte>)
    ensures ParseFrame(s).Some? ==> 0 < ParseFrame(s).value.1 <= |s|
  {
    ParsedIsEncoding(s);
  }

  /** Framing under arbitrary chunking: of the sent frames, exactly those wholly delivered before the
      stream was cut come out, in order, and then nothing; all of them if nothing is cut. */
  lemma DeliveredFrames(frames: seq<Frame>, cut: nat)
    requires AllValid(ValidFrame, frames)
    requires cut <= |EncodeAll(EncodeFrame, frames)|
    ensures var k := |Frames(EncodeAll(EncodeFrame, frames)[..cut])|;
      && k <= |frames|
      && Frames(EncodeAll(EncodeFrame, frames)[..cut]) == frames[..k]
      && |EncodeAll(EncodeFrame, frames[..k])| <= cut
      && (k < |frames| ==> cut < |EncodeAll(EncodeFrame, frames[..k + 1])|)
  {
    hide ParseFrame, EncodeFrame;
    TcpAgrees();
    DecodeTruncated(ParseFrame, EncodeFrame, ValidFrame, frames, cut);
    WholeBeforeIsExact(EncodeFrame, frames, cut);
  }
}

