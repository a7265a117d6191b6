/** The append-only OMS journal: its record format, and what recovery makes of cut or damaged files. */
module Journal {
  import opened Bytes
  import opened Checksum
  import opened Framing
  import opened Wire
  import opened Words
  import opened Wrappers

  const MAGIC := 0x4A4E4C31
  const VERSION := 1
  const HEADER_SIZE := 34

  datatype Record = Record(recordType: byte, sequence: u64, timestamp: u64, envelope: Envelope)

  predicate ValidRecord(r: Record) {
    HasPayload(r.envelope)
  }

  /** The packed structure in front of every payload. */
  datatype Header = Header(magic: u32, version: u16, headerSize: u16, recordType: byte, messageType: byte,
                           sequence: u64, timestamp: u64, payloadSize: u32, checksum: u32)

  function EncodeHeader(h: Header): (s: seq<byte>)
    ensures |s| == HEADER_SIZE
  {
    LittleEndian(h.magic, 4) + LittleEndian(h.version, 2) + LittleEndian(h.headerSize, 2)
    + [h.recordType, h.messageType] + LittleEndian(h.sequence, 8) + LittleEndian(h.timestamp, 8)
    + LittleEndian(h.payloadSize, 4) + LittleEndian(h.checksum, 4)
  }

  function DecodeHeader(s: seq<byte>): (h: Header)
    requires |s| == HEADER_SIZE
  {
    Header(Get32(s[0..4]), Get16(s[4..6]), Get16(s[6..8]), s[8], s[9],
           Get64(s[10..18]), Get64(s[18..26]), Get32(s[26..30]), Get32(s[30..34]))
  }

  lemma DecodeEncodedHeader(h: Header)
    ensures DecodeHeader(EncodeHeader(h)) == h
  {
    var s := EncodeHeader(h);
    assert s[0..4] == LittleEndian(h.magic, 4);
    assert s[4..6] == LittleEndian(h.version, 2);
    assert s[6..8] == LittleEndian(h.headerSize, 2);
    assert s[10..18] == LittleEndian(h.sequence, 8);
    assert s[18..26] == LittleEndian(h.timestamp, 8);
    assert s[26..30] == LittleEndian(h.payloadSize, 4);
    assert s[30..34] == LittleEndian(h.checksum, 4);
    GetWhatWasPut(h.version, h.magic, h.sequence);
    GetWhatWasPut(h.headerSize, h.payloadSize, h.timestamp);
    GetWhatWasPut(0, h.checksum, 0);
  }

  lemma EncodeDecodedHeader(s: seq<byte>)
    requires |s| == HEADER_SIZE
    ensures EncodeHeader(DecodeHeader(s)) == s
  {
    assert s == s[0..4] + s[4..6] + s[6..8] + [s[8], s[9]] + s[10..18] + s[18..26] + s[26..30] + s[30..34];
  }

  /** The header append writes in front of a record's payload. */
  function HeaderOf(r: Record): Header {
    Header(MAGIC, VERSION, HEADER_SIZE, r.recordType, r.envelope.messageType, r.sequence, r.timestamp,
           |r.envelope.payload|, Fnv(r.envelope.payload))
  }

  function EncodeRecord(r: Record): (s: seq<byte>)
    ensures |s| == HEADER_SIZE + |r.envelope.payload|
  {
    EncodeHeader(HeaderOf(r)) + r.envelope.payload
  }

  lemma HeaderBytes(h: Header)
    ensures var e := EncodeHeader(h);
      && e[0..4] == LittleEndian(h.magic, 4) && e[4..6] == LittleEndian(h.version, 2)
      && e[6..8] == LittleEndian(h.headerSize, 2) && e[8] == h.recordType && e[9] == h.messageType
      && Get64(e[10..18]) == h.sequence && Get64(e[18..26]) == h.timestamp
      && Get32(e[26..30]) == h.payloadSize && Get32(e[30..34]) == h.checksum
  {
    DecodeEncodedHeader(h);
    hide EncodeHeader, LittleEndian, FromLittleEndian;
  }

  lemma Constants()
    ensures LittleEndian(MAGIC, 4) == [0x31, 0x4C, 0x4E, 0x4A]
    ensures LittleEndian(VERSION, 2) == [1, 0] && LittleEndian(HEADER_SIZE, 2) == [34, 0]
  {
  }

  /** A record on disk, byte by byte; an order takes 106 bytes, an ack 98 and a reject 90. */
  lemma BytesOnDisk(r: Record)
    ensures var s := EncodeRecord(r);
      && s[..10] == [0x31, 0x4C, 0x4E, 0x4A, 1, 0, 34, 0, r.recordType, r.envelope.messageType]
      && Get64(s[10..18]) == r.sequence && Get64(s[18..26]) == r.timestamp
      && Get32(s[26..30]) == |r.envelope.payload| && Get32(s[30..34]) == Fnv(r.envelope.payload)
      && s[34..] == r.envelope.payload
      && (r.envelope.messageType == 1 ==> |s| == 138)
      && (r.envelope.messageType in {2, 3, 6} ==> |s| == 106)
      && (r.envelope.messageType in {5, 9} ==> |s| == 98)
      && (r.envelope.messageType in {7, 8} ==> |s| == 90)
  {
    var e := EncodeHeader(HeaderOf(r));
    HeaderBytes(HeaderOf(r));
    Constants();
    hide EncodeHeader, DecodeHeader, LittleEndian, FromLittleEndian, Fnv, Get16, Get32, Get64;
    var s := EncodeRecord(r);
    assert s[0..4] == e[0..4] && s[4..6] == e[4..6] && s[6..8] == e[6..8] && s[8] == e[8] && s[9] == e[9];
    assert s[..10] == s[0..4] + s[4..6] + s[6..8] + [s[8], s[9]];
    assert e[10..18] == s[10..18] && e[18..26] == s[18..26] && e[26..30] == s[26..30] && e[30..34] == s[30..34];
  }

  /** The checks of the recovery loop on a header and the bytes behind it. */
  function Accept(h: Header, body: seq<byte>): Option<(Record, nat)> {
    var expected := PayloadSize(h.messageType);
    if h.magic != MAGIC || h.version != VERSION || h.headerSize != HEADER_SIZE then None
    else if expected == 0 || expected != h.payloadSize then None
    else if |body| < expected then None
    else if Fnv(body[..expected]) != h.checksum then None
    else Some((Record(h.recordType, h.sequence, h.timestamp, RawEnvelope(h.messageType, body[..expected])),
               HEADER_SIZE + expected))
  }

  /** One turn of the recovery loop: the record at the front, or None where the source breaks. */
  function ParseRecord(s: seq<byte>): Option<(Record, nat)> {
    if |s| < HEADER_SIZE then None else Accept(DecodeHeader(s[..HEADER_SIZE]), s[HEADER_SIZE..])
  }

  /** What the reader makes of a file. */
  function ReadBack(file: seq<byte>): seq<Record> {
    DecodeAll(ParseRecord, file)
  }

  lemma EncodingParses(r: Record, rest: seq<byte>)
    requires ValidRecord(r)
    ensures ParsesBack(ParseRecord, EncodeRecord, r, rest)
  {
    hide EncodeHeader, DecodeHeader, Fnv, PayloadSize;
    var s, payload := EncodeRecord(r) + rest, r.envelope.payload;
    assert s[..HEADER_SIZE] == EncodeHeader(HeaderOf(r));
    assert s[HEADER_SIZE..][..|payload|] == payload;
    DecodeEncodedHeader(HeaderOf(r));
  }

  lemma ParsedIsEncoding(s: seq<byte>)
    ensures ParsesExactly(ParseRecord, EncodeRecord, ValidRecord, s)
  {
    hide FromLittleEndian, LittleEndian, Fnv;
    if ParseRecord(s).Some? {
      var (r, n) := ParseRecord(s).value;
      var h := DecodeHeader(s[..HEADER_SIZE]);
      assert HeaderOf(r) == h;
      EncodeDecodedHeader(s[..HEADER_SIZE]);
      assert s[..n] == s[..HEADER_SIZE] + s[HEADER_SIZE..][..n - HEADER_SIZE];
    }
  }

  lemma JournalAgrees()
    ensures Agree(ParseRecord, EncodeRecord, ValidRecord)
  {
    forall r: Record, rest: seq<byte> | ValidRecord(r) ensures ParsesBack(ParseRecord, EncodeRecord, r, rest) {
      EncodingParses(r, rest);
    }
    forall s: seq<byte> ensures ParsesExactly(ParseRecord, EncodeRecord, ValidRecord, s) {
      ParsedIsEncoding(s);
    }
  }

  /** Crash recovery: cut the journal anywhere, and reading returns exactly the records that lie
      wholly before the cut. */
  lemma CrashRecovery(rs: seq<Record>, cut: nat)
    requires AllValid(ValidRecord, rs)
    requires cut <= |EncodeAll(EncodeRecord, rs)|
    ensures var k := |ReadBack(EncodeAll(EncodeRecord, rs)[..cut])|;
      && k <= |rs|
      && ReadBack(EncodeAll(EncodeRecord, rs)[..cut]) == rs[..k]
      && |EncodeAll(EncodeRecord, rs[..k])| <= cut
      && (k < |rs| ==> cut < |EncodeAll(EncodeRecord, rs[..k + 1])|)
  {
    hide ParseRecord, EncodeRecord;
    JournalAgrees();
    DecodeTruncated(ParseRecord, EncodeRecord, ValidRecord, rs, cut);
    WholeBeforeIsExact(EncodeRecord, rs, cut);
  }

  /** On arbitrary bytes, re-encoding what was read gives a prefix of the input. */
  lemma ReadIsFaithful(file: seq<byte>)
    ensures EncodeAll(EncodeRecord, ReadBack(file)) <= file
    ensures AllValid(ValidRecord, ReadBack(file))
    ensures ParseRecord(file[|EncodeAll(EncodeRecord, ReadBack(file))|..]) == None
  {
    JournalAgrees();
    ReencodedIsPrefix(ParseRecord, EncodeRecord, ValidRecord, file);
  }

  /** Bytes the checks do not cover: the record type, the sequence and the timestamp, and a message
      type replaced by another of the same payload size. */
  predicate Undetectable(r: Record, j: nat, x: byte) {
    j == 8 || 10 <= j < 26 || (j == 9 && PayloadSize(x) == PayloadSize(r.envelope.messageType))
  }

  function DamagedHeader(r: Record, j: nat, x: byte): Header
    requires j < HEADER_SIZE
  {
    DecodeHeader(EncodeHeader(HeaderOf(r))[j := x])
  }

  /** The record with byte j of its record type, message type, sequence or timestamp set to x. */
  function WithHeaderByte(r: Record, j: nat, x: byte): Record
    requires Undetectable(r, j, x)
  {
    var h := DamagedHeader(r, j, x);
    Record(h.recordType, h.sequence, h.timestamp,
           RawEnvelope(if j == 9 then x else r.envelope.messageType, r.envelope.payload))
  }

  /** Damage to one header byte changes the field that holds it and no other. */
  lemma DamageHitsOneField(r: Record, j: nat, x: byte)
    requires j < HEADER_SIZE && x != EncodeRecord(r)[j]
    ensures var h, d := HeaderOf(r), DamagedHeader(r, j, x);
      && (d.magic == h.magic <==> !(j < 4))
      && (d.version == h.version <==> !(4 <= j < 6))
      && (d.headerSize == h.headerSize <==> !(6 <= j < 8))
      && d.recordType == (if j == 8 then x else h.recordType)
      && d.messageType == (if j == 9 then x else h.messageType)
      && (d.sequence == h.sequence <==> !(10 <= j < 18))
      && (d.timestamp == h.timestamp <==> !(18 <= j < 26))
      && (d.payloadSize == h.payloadSize <==> !(26 <= j < 30))
      && (d.checksum == h.checksum <==> !(30 <= j))
  {
    var s := EncodeHeader(HeaderOf(r));
    DecodeEncodedHeader(HeaderOf(r));
    assert s[j] == EncodeRecord(r)[j];
    OneByteChangesNumber(s, j, x, 0, 4);
    OneByteChangesNumber(s, j, x, 4, 6);
    OneByteChangesNumber(s, j, x, 6, 8);
    OneByteChangesNumber(s, j, x, 10, 18);
    OneByteChangesNumber(s, j, x, 18, 26);
    OneByteChangesNumber(s, j, x, 26, 30);
    OneByteChangesNumber(s, j, x, 30, 34);
  }

  lemma DamagedHeaderParse(r: Record, j: nat, x: byte, rest: seq<byte>)
    requires ValidRecord(r) && j < HEADER_SIZE
    requires x != EncodeRecord(r)[j]
    ensures var s := EncodeRecord(r)[j := x] + rest;
      ParseRecord(s) ==
      if Undetectable(r, j, x) then Some((WithHeaderByte(r, j, x), |EncodeRecord(r)|)) else None
  {
    var payload := r.envelope.payload;
    var s := EncodeRecord(r)[j := x] + rest;
    assert s[..HEADER_SIZE] == EncodeHeader(HeaderOf(r))[j := x];
    assert s[HEADER_SIZE..][..|payload|] == payload;
    DamageHitsOneField(r, j, x);
  }

  lemma DamagedPayload(r: Record, j: nat, x: byte, rest: seq<byte>)
    requires ValidRecord(r) && HEADER_SIZE <= j < |EncodeRecord(r)|
    requires x != EncodeRecord(r)[j]
    ensures ParseRecord(EncodeRecord(r)[j := x] + rest) == None
  {
    var payload := r.envelope.payload;
    var s := EncodeRecord(r)[j := x] + rest;
    assert s[..HEADER_SIZE] == EncodeHeader(HeaderOf(r));
    assert s[HEADER_SIZE..][..|payload|] == payload[j - HEADER_SIZE := x];
    DecodeEncodedHeader(HeaderOf(r));
    SingleByteChangesChecksum(payload, j - HEADER_SIZE, x);
  }

  /** One corrupted byte anywhere in a record, whatever stands before and after it. Reading stops
      right before the damaged record exactly when the byte is one the checks cover; otherwise the
      record is returned with that one field altered and reading goes on behind it. */
  lemma SingleByteCorruption(before: seq<Record>, r: Record, rest: seq<byte>, j: nat, x: byte)
    requires AllValid(ValidRecord, before) && ValidRecord(r)
    requires j < |EncodeRecord(r)| && x != EncodeRecord(r)[j]
    ensures var file := EncodeAll(EncodeRecord, before) + EncodeRecord(r)[j := x] + rest;
      && (ReadBack(file) == before <==> !Undetectable(r, j, x))
      && (Undetectable(r, j, x) ==>
            ReadBack(file) == before + [WithHeaderByte(r, j, x)] + ReadBack(rest))
  {
    hide EncodeRecord, EncodeAll, DecodeAll, ParseRecord, WithHeaderByte, PayloadSize;
    JournalAgrees();
    if j < HEADER_SIZE { DamagedHeaderParse(r, j, x, rest); } else { DamagedPayload(r, j, x, rest); }
    var altered := if Undetectable(r, j, x) then Some(WithHeaderByte(r, j, x)) else None;
    DecodeDamaged(ParseRecord, EncodeRecord, ValidRecord, before, EncodeRecord(r)[j := x], altered, rest);
    if Undetectable(r, j, x) {
      Regroup(before, [WithHeaderByte(r, j, x)], ReadBack(rest));
    } else {
      assert before + [] == before;
    }
  }
}
