/** The sender's protocol state and what its event handlers do to it (src/sender.c).

    Records are numbered from zero (identifier minus base_id). A record's value is represented by
    the revision that committed it: revisions do not wrap and records are not cleared during a run,
    so the revision read together with a value by the consistent copy loop determines that value. */
module SenderModel {
  import opened Sequences

  /** One record inside a multicast packet. */
  datatype Staged = Staged(id: nat, rev: nat)

  /** A multicast packet: a header word (the sequence, negated for a heartbeat) and records. */
  datatype Packet = Packet(hdr: int, recs: seq<Staged>)

  /** A message of the TCP channel from sender to receiver. */
  datatype TcpMsg = Response(seqNo: int, id: nat, rev: nat) | Heartbeat

  datatype Sender = Sender(
    perPkt: nat,        // records that fit in one packet
    revs: seq<int>,     // record_revs: revision last staged, -1 if none
    seqs: seq<int>,     // record_seqs: sequence last staged under, 0 if none
    nextSeq: int,
    minSeq: int,
    hdr: int,           // header word of the packet buffer
    pkt: seq<Staged>,   // records in the packet buffer
    lastQ: nat)         // next change-queue index to read

  /** sender.c init: nothing staged, sequences start at 1. */
  function InitSender(n: nat, perPkt: nat): Sender {
    Sender(perPkt, seq(n, _ => -1), seq(n, _ => 0), 1, 0, 0, [], 0)
  }

  /** mcast_send_pkt for a buffer that holds records. */
  function SendPkt(s: Sender): (Sender, Packet) {
    (s.(nextSeq := if s.hdr >= 0 then s.nextSeq + 1 else s.nextSeq, pkt := []), Packet(s.hdr, s.pkt))
  }

  /** The tail of mcast_accum_record: append the record and note revision and sequence. */
  function Stage(s: Sender, id: nat, rev: nat): Sender
    requires id < |s.revs| == |s.seqs|
  {
    s.(hdr := if s.pkt == [] then s.nextSeq else s.hdr,
       pkt := s.pkt + [Staged(id, rev)],
       revs := s.revs[id := rev],
       seqs := s.seqs[id := s.nextSeq])
  }

  datatype Outcome = Skipped | Appended | Blocked | Flushed(packet: Packet)

  /** mcast_accum_record, for the revision found in storage and a socket that can or cannot send. */
  function AccumRecord(s: Sender, id: nat, rev: nat, canSend: bool): (Sender, Outcome)
    requires id < |s.revs| == |s.seqs|
  {
    if rev == s.revs[id] then (s, Skipped)
    else if |s.pkt| < s.perPkt then (Stage(s, id, rev), Appended)
    else if !canSend then (s, Blocked)
    else var (s1, p) := SendPkt(s); (Stage(s1, id, rev), Flushed(p))
  }

  /** One turn of the queue loop of mcast_on_write: the index moves on unless the loop was left early. */
  function QueueTurn(s: Sender, id: nat, rev: nat, canSend: bool): (Sender, Outcome)
    requires id < |s.revs| == |s.seqs|
  {
    var (s1, o) := AccumRecord(s, id, rev, canSend);
    (if o.Skipped? || o.Appended? then s1.(lastQ := s1.lastQ + 1) else s1, o)
  }

  /** The sender's view of one TCP client. */
  datatype Client = Client(
    union: Range,         // requests read and not yet being answered
    reply: Range,         // the range being answered
    replyId: nat,         // next record the scan examines
    minFound: int,        // smallest sequence the scan has met
    out: Option<TcpMsg>)  // message not completely written to the socket

  /** tcp_on_accept: the structure is zeroed, then only union_range is invalidated. */
  const InitClient := Client(INVALID_RANGE, Range(0, 0), 0, 0, None)

  /** tcp_on_read for a complete valid request. */
  function MergeRequest(c: Client, r: Range): Client {
    c.(union := c.union.Widen(r))
  }

  /** tcp_on_read_blocked. */
  function StartScan(c: Client, minSeq: int): Client {
    if c.union.high <= minSeq then c.(union := INVALID_RANGE)
    else if !c.reply.Valid() then
      c.(reply := c.union, union := INVALID_RANGE, replyId := 0, minFound := SEQUENCE_MAX)
    else c
  }

  /** One turn of the scan loop of tcp_on_write, for the revision found in storage. */
  function ScanOne(c: Client, seqNo: int, rev: nat): Client {
    c.(replyId := c.replyId + 1,
       minFound := if seqNo < c.minFound then seqNo else c.minFound,
       out := if c.reply.Contains(seqNo) && rev != 0 then Some(Response(seqNo, c.replyId, rev)) else c.out)
  }
}
