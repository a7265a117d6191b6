/** The order manager node's journal as bytes on disk: what recovery learns about the distributed run from a
    file that was cut or torn anywhere. */
module Recovery {
  import opened Bytes
  import opened Distributed
  import opened Framing
  import Disk = Journal
  import opened Messages
  import opened Risk
  import opened Wire
  import opened Words

  /** The client order id follows the 40-byte message header in orders, acks and rejects alike. */
  const ID_OFFSET := 40

  function TypeOfRecord(kind: EntryKind): byte {
    match kind
    case OrderIntent => 1
    case GatewayAck => 2
    case GatewayReject => 3
  }

  function TypeOfMessage(m: Message): byte {
    match m
    case NewOrderMsg(_) => NEW_ORDER
    case AckMsg(_) => ACK
    case RejectMsg(_) => REJECT
    case _ => 0
  }

  predicate CarriesId(r: Disk.Record) {
    |r.envelope.payload| >= ID_OFFSET + 8
  }

  /** The client order id of a record on disk. */
  function IdOf(r: Disk.Record): u64
    requires CarriesId(r)
  {
    Get64(r.envelope.payload[ID_OFFSET..ID_OFFSET + 8])
  }

  /** The bytes written for an entry: its kind, its sequence, its message's type and client order id. */
  predicate Represents(r: Disk.Record, e: Entry) {
    && r.recordType == TypeOfRecord(e.kind) && r.sequence == e.sequence
    && r.envelope.messageType == TypeOfMessage(e.message)
    && CarriesId(r) && IdOf(r) == ClientId(e.message)
  }

  ghost predicate AllRepresent(rs: seq<Disk.Record>, journal: seq<Entry>) {
    |rs| == |journal| && forall i :: 0 <= i < |rs| ==> Represents(rs[i], journal[i])
  }

  /** What recovery can see in the records alone: numbered 1..n, alternating an order intent and an ack or
      reject for the same client id, ids increasing from pair to pair; at most the last intent is open. */
  ghost predicate PairedOnDisk(rs: seq<Disk.Record>) {
    && (forall i :: 0 <= i < |rs| ==> rs[i].sequence == i + 1 && CarriesId(rs[i]))
    && (forall i :: 0 <= i < |rs| && i % 2 == 0 ==> rs[i].recordType == 1 && rs[i].envelope.messageType == NEW_ORDER)
    && (forall i :: 0 <= i < |rs| && i % 2 == 1 ==>
          && ((rs[i].recordType == 2 && rs[i].envelope.messageType == ACK)
              || (rs[i].recordType == 3 && rs[i].envelope.messageType == REJECT))
          && IdOf(rs[i]) == IdOf(rs[i - 1]))
    && (forall i, j :: 0 <= i < j < |rs| && j % 2 == 0 ==> IdOf(rs[i]) < IdOf(rs[j]))
  }

  /** Every entry whose numbers fit 64 bits has a record, so the hypothesis AllRepresent of the two theorems
      below can be met for every such journal. */
  lemma EntryHasRecord(e: Entry) returns (r: Disk.Record)
    requires e.sequence < 0x1_0000_0000_0000_0000 && ClientId(e.message) < 0x1_0000_0000_0000_0000
    requires TypeOfMessage(e.message) != 0
    ensures Represents(r, e)
  {
    var id := LittleEndian(ClientId(e.message), 8);
    var size := PayloadSize(TypeOfMessage(e.message));
    var payload := seq(ID_OFFSET, _ => 0) + id + seq(size - ID_OFFSET - 8, _ => 0);
    assert payload[ID_OFFSET..ID_OFFSET + 8] == id;
    GetWhatWasPut(0, 0, ClientId(e.message));
    r := Disk.Record(TypeOfRecord(e.kind), e.sequence, 0, RawEnvelope(TypeOfMessage(e.message), payload));
  }

  lemma RecordsAreValid(rs: seq<Disk.Record>, journal: seq<Entry>)
    requires AllRepresent(rs, journal)
    ensures AllValid(Disk.ValidRecord, rs)
  {
    hide IdOf;
    forall i | 0 <= i < |rs| ensures Disk.ValidRecord(rs[i]) {
      assert Represents(rs[i], journal[i]);
    }
  }

  lemma PairedIsVisible(rs: seq<Disk.Record>, journal: seq<Entry>)
    requires AllRepresent(rs, journal) && Paired(journal)
    ensures PairedOnDisk(rs)
  {
    hide IdOf, ClientId;
    forall i | 0 <= i < |rs| ensures Represents(rs[i], journal[i]) {}
  }

  /** How the recovered records relate to what really happened at the gateway. */
  ghost predicate TellsTheTruth(got: seq<Disk.Record>, s: State) {
    && |got| / 2 <= |s.seen| && |got| / 2 <= |s.replied|
    && (forall k :: 0 <= k < |s.seen| && 2 * k < |got| ==>
          CarriesId(got[2 * k]) && IdOf(got[2 * k]) == ClientId(s.seen[k]))
    && (forall k :: 0 <= k < |got| / 2 ==>
          var r := got[2 * k + 1];
          && CarriesId(r) && IdOf(r) == ClientId(s.replied[k])
          && r.envelope.messageType == TypeOfMessage(s.replied[k]))
  }

  lemma RepresentedIsTrue(rs: seq<Disk.Record>, s: State, k: nat)
    requires AllRepresent(rs, s.journal) && k <= |rs|
    requires SeenIsJournaled(s.journal, s.seen) && RepliesMatch(s.journal, s.seen, s.replied)
    ensures TellsTheTruth(rs[..k], s)
  {
    hide IdOf, ClientId, Renumbered;
    forall i | 0 <= i < |rs| ensures Represents(rs[i], s.journal[i]) {}
  }

  /** Whatever the schedule of steps, crashes and losses, and wherever the journal file is then cut: recovery
      returns the records wholly before the cut, these are matching pairs with at most one open intent at the
      end, each intent is the order the gateway saw in that place, and each response the answer it gave. */
  lemma CutJournalRecovers(
      fromStrategy: seq<Message>, limits: RiskLimits, available: bool, schedule: seq<Action>,
      rs: seq<Disk.Record>, cut: nat)
    requires AllRepresent(rs, Execute(Init(fromStrategy, limits, available), schedule).journal)
    requires cut <= |EncodeAll(Disk.EncodeRecord, rs)|
    ensures var s, got := Execute(Init(fromStrategy, limits, available), schedule),
                          Disk.ReadBack(EncodeAll(Disk.EncodeRecord, rs)[..cut]);
      && got <= rs && PairedOnDisk(got) && TellsTheTruth(got, s)
      && |EncodeAll(Disk.EncodeRecord, got)| <= cut
      && (|got| < |rs| ==> cut < |EncodeAll(Disk.EncodeRecord, rs[..|got| + 1])|)
  {
    var s := Execute(Init(fromStrategy, limits, available), schedule);
    AtMostOneInDoubt(fromStrategy, limits, available, schedule);
    hide *;
    RecordsAreValid(rs, s.journal);
    Disk.CrashRecovery(rs, cut);
    var k := |Disk.ReadBack(EncodeAll(Disk.EncodeRecord, rs)[..cut])|;
    RepresentedIsTrue(rs, s, k);
    PrefixRepresents(rs, s.journal, k);
    PrefixStaysPaired(s.journal, k);
    PairedIsVisible(rs[..k], s.journal[..k]);
  }

  lemma PrefixRepresents(rs: seq<Disk.Record>, journal: seq<Entry>, k: nat)
    requires AllRepresent(rs, journal) && k <= |rs|
    ensures k <= |journal| && AllRepresent(rs[..k], journal[..k])
  {
    hide Represents;
  }

  /** A crash in the middle of an append, at any point of any run: recovery returns the journal as it was
      before that append. No order reached the gateway without a recovered intent, so besides the answered
      ones at most the last recovered intent can have been seen. */
  lemma TornAppendRecovers(
      fromStrategy: seq<Message>, limits: RiskLimits, available: bool, schedule: seq<Action>,
      rs: seq<Disk.Record>, next: Disk.Record, written: nat)
    requires AllRepresent(rs, Execute(Init(fromStrategy, limits, available), schedule).journal)
    requires Disk.ValidRecord(next) && written < |Disk.EncodeRecord(next)|
    ensures var s, got := Execute(Init(fromStrategy, limits, available), schedule),
                          Disk.ReadBack(EncodeAll(Disk.EncodeRecord, rs) + Disk.EncodeRecord(next)[..written]);
      && got == rs && PairedOnDisk(got) && TellsTheTruth(got, s)
      && |got| / 2 <= |s.seen| <= (|got| + 1) / 2
  {
    hide *;
    var s := Execute(Init(fromStrategy, limits, available), schedule);
    AtMostOneInDoubt(fromStrategy, limits, available, schedule);
    SeenIsRecovered(rs, s);
    RecordsAreValid(rs, s.journal);
    ReadBackTorn(rs, next, written);
    assert rs[..|rs|] == rs;
    RepresentedIsTrue(rs, s, |rs|);
    PairedIsVisible(rs, s.journal);
  }

  lemma SeenIsRecovered(rs: seq<Disk.Record>, s: State)
    requires AllRepresent(rs, s.journal) && SeenIsJournaled(s.journal, s.seen)
    ensures |rs| / 2 <= |s.seen| <= (|rs| + 1) / 2
  {
  }

  lemma ReadBackTorn(rs: seq<Disk.Record>, next: Disk.Record, written: nat)
    requires AllValid(Disk.ValidRecord, rs) && Disk.ValidRecord(next) && written < |Disk.EncodeRecord(next)|
    ensures Disk.ReadBack(EncodeAll(Disk.EncodeRecord, rs) + Disk.EncodeRecord(next)[..written]) == rs
  {
    Disk.JournalAgrees();
    hide Disk.EncodeRecord, Disk.ParseRecord, Agree, AllValid, EncodeAll, DecodeAll;
    DecodeTorn(Disk.ParseRecord, Disk.EncodeRecord, Disk.ValidRecord, rs, next, Disk.EncodeRecord(next)[..written]);
  }
}
