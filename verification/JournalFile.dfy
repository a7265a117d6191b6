/** The code that writes and reads journal files, proved against the record format. */
module JournalFile {
  import opened Bytes
  import opened Checksum
  import opened Framing
  import opened Journal
  import opened Wire
  import opened Words
  import opened Wrappers

  lemma ReadOne(s: seq<byte>)
    ensures ParseRecord(s) == None ==> ReadBack(s) == []
    ensures ParseRecord(s).Some? ==>
      var (r, n) := ParseRecord(s).value;
      0 < n <= |s| ==> ReadBack(s) == [r] + ReadBack(s[n..])
  {
    hide ParseRecord;
  }

  /** The reader of the source: header, checks and payload in order, stopping at the first failure. */
  method ReadAll(file: seq<byte>) returns (records: seq<Record>)
    ensures records == ReadBack(file)
  {
    hide Fnv, DecodeHeader, PayloadSize, EncodeRecord, DecodeAll;
    records := [];
    var pos := 0;
    assert file[0..] == file;
    while true
      invariant 0 <= pos <= |file|
      invariant ReadBack(file) == records + ReadBack(file[pos..])
      decreases |file| - pos
    {
      ReadOne(file[pos..]);
      assert records + [] == records;
      if |file| - pos < HEADER_SIZE { break; }
      assert file[pos..][..HEADER_SIZE] == file[pos..pos + HEADER_SIZE];
      var header := DecodeHeader(file[pos..pos + HEADER_SIZE]);
      if header.magic != MAGIC || header.version != VERSION || header.headerSize != HEADER_SIZE { break; }
      var expected := PayloadSize(header.messageType);
      if expected == 0 || expected != header.payloadSize { break; }
      var start := pos + HEADER_SIZE;
      if |file| - start < expected { break; }
      var payload := file[start..start + expected];
      assert file[pos..][HEADER_SIZE..][..expected] == payload;
      var actual := ComputeChecksum(payload);
      if actual != header.checksum { break; }
      var envelope := RawEnvelope(header.messageType, payload);
      records := records + [Record(header.recordType, header.sequence, header.timestamp, envelope)];
      assert file[pos..][HEADER_SIZE + expected..] == file[start + expected..];
      pos := start + expected;
    }
  }

  /** What comes of a call into the file system: all is done, or only so many bytes were taken before the
      stream failed. */
  datatype Outcome = Whole | Part(taken: nat)

  /** The outcome of call number i. */
  type Plan = nat -> Outcome

  ghost predicate Working(plan: Plan) {
    forall i: nat :: plan(i) == Whole
  }

  /** A writer whose stream may take only part of what it is given and then stays failed, as an ofstream
      does; the plan is fixed but arbitrary. `appended` lists the records whose append reported success. */
  class JournalWriter {
    const plan: Plan
    var calls: nat
    var file: seq<byte>
    var isOpen: bool
    var good: bool
    ghost var appended: seq<Record>
    ghost var torn: seq<byte>

    ghost predicate Valid()
      reads this
    {
      && AllValid(ValidRecord, appended)
      && file == EncodeAll(EncodeRecord, appended) + torn
      && (torn != [] ==> isOpen && !good && exists r :: ValidRecord(r) && torn <= EncodeRecord(r))
    }

    /** None of the calls numbered from..to failed. */
    ghost predicate Smooth(from: nat, to: nat) {
      forall i :: from <= i < to ==> plan(i) == Whole
    }

    /** An append would find the stream usable, or not opened yet. */
    predicate Ready()
      reads this
    {
      isOpen ==> good
    }

    constructor (existing: seq<Record>, plan: Plan)
      requires AllValid(ValidRecord, existing)
      ensures Valid() && Ready() && appended == existing && torn == [] && !isOpen && this.plan == plan
    {
      this.plan := plan;
      calls := 0;
      file := EncodeAll(EncodeRecord, existing);
      isOpen, good := false, false;
      appended, torn := existing, [];
    }

    method Open() returns (ok: bool)
      requires Valid()
      modifies this`isOpen, this`good, this`calls
      ensures Valid() && old(calls) <= calls && ok == isOpen
      ensures old(isOpen) ==> isOpen && good == old(good) && calls == old(calls)
      ensures !old(isOpen) ==> (ok <==> Smooth(old(calls), calls)) && (ok ==> good) && (Working(plan) ==> ok)
    {
      if isOpen { return true; }
      isOpen := plan(calls) == Whole;
      calls := calls + 1;
      good := isOpen;
      return isOpen;
    }

    /** ofstream::write: some prefix reaches the file, all of it if the stream stays good. */
    method Put(data: seq<byte>) returns (ghost n: nat)
      modifies this`file, this`good, this`calls
      ensures old(calls) <= calls && n <= |data| && file == old(file) + data[..n]
      ensures good <==> old(good) && Smooth(old(calls), calls)
      ensures good ==> n == |data|
      ensures !old(good) ==> n == 0
    {
      n := 0;
      if good {
        match plan(calls) {
          case Whole =>
            file := file + data;
            n := |data|;
          case Part(taken) =>
            file := file + if taken < |data| then data[..taken] else data;
            good := false;
            n := if taken < |data| then taken else |data|;
        }
        calls := calls + 1;
      }
    }

    /** Two writes in a row still put out a prefix of the two pieces together. */
    method PutBoth(a: seq<byte>, b: seq<byte>) returns (ghost n: nat)
      modifies this`file, this`good, this`calls
      ensures old(calls) <= calls && n <= |a + b| && file == old(file) + (a + b)[..n]
      ensures good <==> old(good) && Smooth(old(calls), calls)
      ensures good ==> n == |a + b|
      ensures !old(good) ==> n == 0
    {
      ghost var i := Put(a);
      ghost var j := Put(b);
      n := i + j;
      assert a[..i] + b[..j] == (a + b)[..n];
    }

    method BuildHeader(recordType: byte, envelope: Envelope, sequence: u64, now: u64) returns (header: seq<byte>)
      ensures header + envelope.payload == EncodeRecord(Record(recordType, sequence, now, envelope))
    {
      var checksum := ComputeChecksum(envelope.payload);
      header := EncodeHeader(Header(MAGIC, VERSION, HEADER_SIZE, recordType, envelope.messageType, sequence, now,
                                    PayloadSize(envelope.messageType), checksum));
    }

    /** A record with a payload is appended exactly if the stream is usable and no call fails, and then as
        exactly its encoding. Failure leaves the successful records alone and at most part of the failed
        one behind them. */
    method Append(recordType: byte, envelope: Envelope, sequence: u64, now: u64) returns (ok: bool)
      requires Valid()
      modifies this
      ensures Valid() && old(file) <= file && old(calls) <= calls
      ensures ok <==> HasPayload(envelope) && isOpen && good
      ensures ok <==> HasPayload(envelope) && old(Ready()) && Smooth(old(calls), calls)
      ensures HasPayload(envelope) && old(Ready()) && Working(plan) ==> ok
      ensures ok ==> appended == old(appended) + [Record(recordType, sequence, now, envelope)]
      ensures ok ==> file == old(file) + EncodeRecord(Record(recordType, sequence, now, envelope))
      ensures !ok ==> appended == old(appended)
      ensures !HasPayload(envelope) ==> file == old(file)
    {
      hide EncodeRecord, EncodeAll, PayloadSize;
      if !isOpen {
        var ready := Open();
        if !ready { return false; }
      }
      if PayloadSize(envelope.messageType) == 0 { return false; }
      ghost var r := Record(recordType, sequence, now, envelope);
      var header := BuildHeader(recordType, envelope, sequence, now);
      ghost var n := PutBoth(header, envelope.payload);
      ghost var written := EncodeRecord(r)[..n];
      if !good {
        assert torn == [] || written == [];
        torn := torn + written;
        return false;
      }
      EncodeOneMore(EncodeRecord, appended, r);
      appended := appended + [r];
      return true;
    }

    /** What recovery sees of a writer that stopped at any moment: every successfully appended record,
        and at most the one record whose append failed after its bytes were out. */
    lemma RecoverySeesAppended()
      requires Valid()
      ensures appended <= ReadBack(file) && |ReadBack(file)| <= |appended| + 1
      ensures torn == [] ==> ReadBack(file) == appended
    {
      JournalAgrees();
      var r :| torn != [] ==> ValidRecord(r) && torn <= EncodeRecord(r);
      DecodeTorn(ParseRecord, EncodeRecord, ValidRecord, appended, r, torn);
    }
  }
}
