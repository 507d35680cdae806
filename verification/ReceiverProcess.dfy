/** The receiver's event handlers as they run, updating their state in place (src/receiver.c), each
    proved to do what the protocol model says. */
module ReceiverProcess {
  import opened Sequences
  import opened SenderModel
  import opened ReceiverModel

  class ReceiverProcess {
    const recordSeqs: array<int>
    const store: array<nat>       // the replica: the revision whose value each record holds
    var nextSeq: int
    var out: Option<Range>

    ghost predicate Valid()
      reads this
    {
      recordSeqs.Length == store.Length
    }

    ghost function State(): Receiver
      reads this, recordSeqs, store
    {
      Receiver(recordSeqs[..], store[..], nextSeq, out)
    }

    constructor (n: nat)
      ensures Valid() && fresh(recordSeqs) && fresh(store)
      ensures State() == InitReceiver(n)
    {
      recordSeqs := new int[n](_ => -1);
      store := new nat[n](_ => 0);
      nextSeq, out := 0, None;
      new;
      assert recordSeqs[..] == seq(n, _ => -1);
      assert store[..] == seq(n, _ => 0);
    }

    /** update_record; an identifier outside the storage is an error and changes nothing. */
    method UpdateRecord(seqNo: int, id: nat, rev: nat) returns (ok: bool)
      requires Valid()
      modifies recordSeqs, store
      ensures ok == (id < recordSeqs.Length)
      ensures State() == ReceiverModel.UpdateRecord(old(State()), seqNo, id, rev)
    {
      ok := id < recordSeqs.Length;
      if ok {
        store[id] := rev;
        recordSeqs[id] := seqNo;
      }
    }

    /** request_gap: whatever was in the one-slot buffer is replaced. */
    method RequestGap(low: int, high: int)
      modifies this`out
      ensures out == Some(Range(low, high))
    {
      out := Some(Range(low, high));
    }

    /** mcast_on_read for a complete packet. On a bad identifier the records before it stay updated
        and the receiver stops. */
    method McastOnRead(p: Packet) returns (ok: bool)
      requires Valid()
      modifies this, recordSeqs, store
      ensures Valid()
      ensures ok <==> p.hdr < 0 || p.hdr < old(nextSeq) || forall j :: 0 <= j < |p.recs| ==> p.recs[j].id < recordSeqs.Length
      ensures ok ==> State() == ReceiverModel.McastOnRead(old(State()), p)
      ensures !ok ==> exists j :: 0 <= j < |p.recs| && State() == ApplyRecs(old(State()), p.hdr, p.recs[..j])
    {
      var seqNo := p.hdr;
      var isBeat := false;
      ghost var start := State();
      if seqNo < 0 {
        seqNo := -seqNo;
        isBeat := true;
      } else {
        if seqNo < nextSeq {
          return true;
        }
        var j := 0;
        while j < |p.recs|
          invariant 0 <= j <= |p.recs| && Valid() && nextSeq == old(nextSeq) && out == old(out)
          invariant State() == ApplyRecs(start, seqNo, p.recs[..j])
          invariant forall k :: 0 <= k < j ==> p.recs[k].id < recordSeqs.Length
        {
          assert p.recs[..j + 1][..j] == p.recs[..j];
          ok := UpdateRecord(seqNo, p.recs[j].id, p.recs[j].rev);
          if !ok {
            return;
          }
          j := j + 1;
        }
        assert p.recs[..j] == p.recs;
      }
      if seqNo > nextSeq {
        RequestGap(nextSeq, seqNo);
        nextSeq := seqNo;
      }
      if !isBeat {
        nextSeq := nextSeq + 1;
      }
      ok := true;
    }

    /** tcp_on_read for a complete message. The code looks up the record's sequence without a check of
        the identifier; what it does for one outside the storage is not defined. */
    method TcpOnRead(m: TcpMsg) returns (defined: bool)
      requires Valid()
      modifies recordSeqs, store
      ensures defined == (m.Response? ==> m.id < recordSeqs.Length)
      ensures defined ==> State() == ReceiverModel.TcpOnRead(old(State()), m)
    {
      defined := m.Response? ==> m.id < recordSeqs.Length;
      if defined && m.Response? && m.seqNo > recordSeqs[m.id] {
        var _ := UpdateRecord(m.seqNo, m.id, m.rev);
      }
    }
  }
}
