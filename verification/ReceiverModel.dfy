/** The receiver's protocol state and what its event handlers do to it (src/receiver.c). */
module ReceiverModel {
  import opened Sequences
  import opened SenderModel

  datatype Receiver = Receiver(
    seqs: seq<int>,      // record_seqs: sequence under which a record was last updated, -1 if never
    vals: seq<nat>,      // revision whose value each record of the replica holds, 0 if never updated
    next: int,           // next_seq
    out: Option<Range>)  // gap request not yet written to the socket

  function InitReceiver(n: nat): Receiver {
    Receiver(seq(n, _ => -1), seq(n, _ => 0), 0, None)
  }

  /** update_record; an identifier outside the storage changes nothing. */
  function UpdateRecord(r: Receiver, seqNo: int, id: nat, rev: nat): Receiver {
    if id < |r.seqs| && id < |r.vals| then
      r.(seqs := r.seqs[id := seqNo], vals := r.vals[id := rev])
    else r
  }

  /** The record loop of mcast_on_read. */
  function ApplyRecs(r: Receiver, seqNo: int, recs: seq<Staged>): Receiver {
    if recs == [] then r
    else
      var last := recs[|recs| - 1];
      UpdateRecord(ApplyRecs(r, seqNo, recs[..|recs| - 1]), seqNo, last.id, last.rev)
  }

  /** The end of mcast_on_read: a gap before seqNo is requested, replacing whatever was in the slot. */
  function AdvanceTo(r: Receiver, seqNo: int): Receiver {
    if seqNo > r.next then r.(out := Some(Range(r.next, seqNo)), next := seqNo) else r
  }

  /** mcast_on_read for a complete packet. */
  function McastOnRead(r: Receiver, p: Packet): Receiver {
    if p.hdr < 0 then AdvanceTo(r, -p.hdr)
    else if p.hdr < r.next then r
    else
      var r1 := AdvanceTo(ApplyRecs(r, p.hdr, p.recs), p.hdr);
      r1.(next := r1.next + 1)
  }

  /** Whether mcast_on_read calls request_gap. */
  predicate RequestsGap(r: Receiver, p: Packet) {
    (if p.hdr < 0 then -p.hdr else p.hdr) > r.next
  }

  /** tcp_on_read for a complete message. */
  function TcpOnRead(r: Receiver, m: TcpMsg): Receiver
    requires m.Response? ==> m.id < |r.seqs|
  {
    match m
    case Heartbeat => r
    case Response(seqNo, id, rev) => if seqNo > r.seqs[id] then UpdateRecord(r, seqNo, id, rev) else r
  }
}
