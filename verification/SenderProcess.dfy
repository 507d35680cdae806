/** The sender's event handlers as they run, updating their state in place (src/sender.c), each proved
    to do what the protocol model says.

    What a handler reads from storage while the writer runs is passed in as the revision found; a
    socket that would block is passed in as a flag; timer comparisons are passed in as booleans. */
module SenderProcess {
  import opened Sequences
  import opened SenderModel
  import opened GapScan

  /** How a call of mcast_on_write ends. */
  datatype WriteStatus = Idled(idle: IdleStatus) | Overrun | Ran(outcome: Outcome)

  /** What mcast_on_empty_queue puts on the network; a blocked send ends the sender. */
  datatype IdleStatus = Quiet | Sent(packet: Packet) | Fatal

  /** mcast_on_empty_queue: a packet that is old enough, or any packet when a heartbeat is due, is sent; with
      nothing to send, the heartbeat is. */
  function EmptyQueue(s: Sender, ageDue: bool, beatDue: bool, canSend: bool): (Sender, IdleStatus) {
    if !(if s.pkt != [] then ageDue || beatDue else beatDue) then (s, Quiet)
    else
      var s1 := if s.pkt != [] then s else s.(hdr := -s.nextSeq);
      if canSend then (SenderModel.SendPkt(s1).0, Sent(SenderModel.SendPkt(s1).1)) else (s1, Fatal)
  }

  /** The revision a turn works with: the first one read if nothing has changed since it was staged,
      otherwise the one that the copy loop ended with. */
  function Found(staged: int, first: nat, copied: nat): nat { if first == staged then first else copied }

  /** The queue loop of mcast_on_write: turns until the head is reached or a turn leaves the loop. For
      entry q, first[q] is the revision read at the start of the turn and copied[q] the one at its end. */
  function QueueLoop(s: Sender, ids: seq<nat>, first: seq<nat>, copied: seq<nat>, canSend: bool): (Sender, Outcome)
    requires s.lastQ <= |ids| == |first| == |copied| && |s.revs| == |s.seqs|
    requires forall q :: 0 <= q < |ids| ==> ids[q] < |s.revs|
    decreases |ids| - s.lastQ
  {
    if s.lastQ == |ids| then (s, Skipped)
    else
      var q, id := s.lastQ, ids[s.lastQ];
      var (s1, o) := QueueTurn(s, id, Found(s.revs[id], first[q], copied[q]), canSend);
      if o.Skipped? || o.Appended? then QueueLoop(s1, ids, first, copied, canSend) else (s1, o)
  }

  /** Revisions only grow: within a turn, from one turn to a later one for the same record, and from
      what was staged before. */
  ghost predicate Growing(revs: seq<int>, ids: seq<nat>, first: seq<nat>, copied: seq<nat>, from: nat)
    requires |ids| == |first| == |copied| && forall q :: 0 <= q < |ids| ==> ids[q] < |revs|
  {
    && (forall q :: from <= q < |ids| ==> revs[ids[q]] <= first[q] <= copied[q])
    && (forall q, q' :: from <= q < q' < |ids| && ids[q] == ids[q'] ==> copied[q] <= first[q'])
  }

  class SenderProcess {
    const perPkt: nat
    const recordRevs: array<int>
    const recordSeqs: array<int>
    var nextSeq: int
    var minSeq: int
    var hdr: int
    var pkt: seq<Staged>
    var lastQ: nat

    ghost predicate Valid()
      reads this, recordRevs, recordSeqs
    {
      recordRevs != recordSeqs && recordRevs.Length == recordSeqs.Length && 0 < perPkt && 0 < nextSeq && (pkt != [] ==> hdr == nextSeq)
    }

    ghost function State(): Sender
      reads this, recordRevs, recordSeqs
    {
      Sender(perPkt, recordRevs[..], recordSeqs[..], nextSeq, minSeq, hdr, pkt, lastQ)
    }

    constructor (n: nat, perPkt: nat)
      requires 0 < perPkt
      ensures Valid() && fresh(recordRevs) && fresh(recordSeqs)
      ensures State() == InitSender(n, perPkt) && nextSeq == 1 && minSeq == 0 && pkt == []
      ensures recordRevs.Length == n && forall i :: 0 <= i < n ==> recordRevs[i] == -1 && recordSeqs[i] == 0
    {
      this.perPkt := perPkt;
      recordRevs := new int[n](_ => -1);
      recordSeqs := new int[n](_ => 0);
      nextSeq, minSeq, hdr, pkt, lastQ := 1, 0, 0, [], 0;
      new;
      assert recordRevs[..] == seq(n, _ => -1);
      assert recordSeqs[..] == seq(n, _ => 0);
    }

    /** mcast_send_pkt; the sequence counts only packets that are not heartbeats. */
    method SendPkt() returns (p: Packet)
      requires Valid()
      modifies this
      ensures Valid()
      ensures (State(), p) == SenderModel.SendPkt(old(State()))
    {
      p := Packet(hdr, pkt);
      if hdr >= 0 {
        nextSeq := nextSeq + 1;
      }
      pkt := [];
    }

    /** mcast_accum_record. The revision is `first` when compared with the staged one and `copied`
        after the copy loop, which may have had to read a newer one. */
    method AccumRecord(id: nat, first: nat, copied: nat, canSend: bool) returns (o: Outcome)
      requires Valid() && id < recordRevs.Length
      requires first != recordRevs[id] ==> copied != recordRevs[id]
      modifies this, recordRevs, recordSeqs
      ensures Valid()
      ensures (State(), o) ==
        SenderModel.AccumRecord(old(State()), id, if first == old(recordRevs[id]) then first else copied, canSend)
    {
      if first == recordRevs[id] {
        return Skipped;
      }
      o := Appended;
      if |pkt| >= perPkt {
        if !canSend {
          return Blocked;
        }
        var p := SendPkt();
        o := Flushed(p);
      }
      if pkt == [] {
        hdr := nextSeq;
      }
      pkt := pkt + [Staged(id, copied)];
      recordRevs[id] := copied;
      recordSeqs[id] := nextSeq;
    }

    /** mcast_on_empty_queue. */
    method OnEmptyQueue(ageDue: bool, beatDue: bool, canSend: bool) returns (st: IdleStatus)
      requires Valid()
      modifies this
      ensures Valid() && (State(), st) == EmptyQueue(old(State()), ageDue, beatDue, canSend)
      ensures old(pkt) != [] && st.Sent? ==>
        st.packet == Packet(old(nextSeq), old(pkt)) && State() == old(State()).(nextSeq := old(nextSeq) + 1, pkt := [])
      ensures old(pkt) == [] && beatDue && canSend ==>
        st == Sent(Packet(-nextSeq, [])) && State() == old(State()).(hdr := -nextSeq)
      ensures st.Fatal? <==> (if old(pkt) != [] then ageDue || beatDue else beatDue) && !canSend
      ensures st.Quiet? <==> !(if old(pkt) != [] then ageDue || beatDue else beatDue)
      ensures st.Quiet? ==> State() == old(State())
    {
      if pkt != [] && ageDue {
        if !canSend {
          return Fatal;
        }
        var p := SendPkt();
        return Sent(p);
      }
      if beatDue {
        if pkt == [] {
          hdr := -nextSeq;
        }
        if !canSend {
          return Fatal;
        }
        var p := SendPkt();
        return Sent(p);
      }
      return Quiet;
    }

    /** A turn of the queue loop: the entry is accumulated, and the index moves on unless the loop is left. */
    method Turn(id: nat, first: nat, copied: nat, canSend: bool) returns (o: Outcome)
      requires Valid() && id < recordRevs.Length && recordRevs[id] <= first <= copied
      modifies this, recordRevs, recordSeqs
      ensures Valid()
      ensures (State(), o) == QueueTurn(old(State()), id, Found(old(recordRevs[id]), first, copied), canSend)
    {
      o := AccumRecord(id, first, copied, canSend);
      if o.Skipped? || o.Appended? {
        lastQ := lastQ + 1;
      }
    }

    /** The queue loop. */
    method RunQueue(ids: seq<nat>, first: seq<nat>, copied: seq<nat>, canSend: bool) returns (o: Outcome)
      requires Valid() && lastQ <= |ids| == |first| == |copied|
      requires forall q :: 0 <= q < |ids| ==> ids[q] < recordRevs.Length
      requires Growing(State().revs, ids, first, copied, lastQ)
      modifies this, recordRevs, recordSeqs
      ensures Valid() && |old(State()).revs| == |old(State()).seqs|
      ensures (State(), o) == QueueLoop(old(State()), ids, first, copied, canSend)
    {
      hide QueueLoop, Growing, QueueTurn;
      ghost var start := State();
      o := Skipped;
      while lastQ < |ids|
        invariant Valid() && lastQ <= |ids| && |State().revs| == |State().seqs| == recordRevs.Length
        invariant Growing(State().revs, ids, first, copied, lastQ)
        invariant QueueLoop(State(), ids, first, copied, canSend) == QueueLoop(start, ids, first, copied, canSend)
        decreases |ids| - lastQ
      {
        TurnUnfolds(State(), ids, first, copied, canSend);
        o := Turn(ids[lastQ], first[lastQ], copied[lastQ], canSend);
        if o.Blocked? || o.Flushed? {
          return;
        }
      }
      LoopEnds(State(), ids, first, copied, canSend);
      o := Skipped;
    }

    /** mcast_on_write, for a change queue whose entries below the head are ids. */
    method McastOnWrite(capacity: nat, ids: seq<nat>, first: seq<nat>, copied: seq<nat>, ageDue: bool, beatDue: bool, canSend: bool)
      returns (st: WriteStatus)
      requires Valid() && |first| == |copied| == |ids|
      requires forall q :: 0 <= q < |ids| ==> ids[q] < recordRevs.Length
      requires Growing(State().revs, ids, first, copied, lastQ)
      modifies this, recordRevs, recordSeqs
      ensures Valid() && |old(State()).revs| == |old(State()).seqs|
      ensures |ids| <= old(lastQ) ==>
        st.Idled? && (State(), st.idle) == EmptyQueue(old(State()).(lastQ := |ids|), ageDue, beatDue, canSend)
      ensures |ids| > old(lastQ) + capacity ==> st == Overrun && State() == old(State())
      ensures old(lastQ) < |ids| <= old(lastQ) + capacity ==>
        st.Ran? && (State(), st.outcome) == QueueLoop(old(State()), ids, first, copied, canSend)
    {
      if |ids| <= lastQ {
        lastQ := |ids|;
        var idle := OnEmptyQueue(ageDue, beatDue, canSend);
        return Idled(idle);
      }
      if |ids| - lastQ > capacity {
        return Overrun;
      }
      var o := RunQueue(ids, first, copied, canSend);
      return Ran(o);
    }
  }

  /** One turn of the loop. After it, what is staged is still no newer than what later turns will read. */
  lemma TurnUnfolds(s: Sender, ids: seq<nat>, first: seq<nat>, copied: seq<nat>, canSend: bool)
    requires s.lastQ < |ids| == |first| == |copied| && |s.revs| == |s.seqs|
    requires forall k :: 0 <= k < |ids| ==> ids[k] < |s.revs|
    requires Growing(s.revs, ids, first, copied, s.lastQ)
    ensures var q := s.lastQ;
      var (s1, o) := QueueTurn(s, ids[q], Found(s.revs[ids[q]], first[q], copied[q]), canSend);
      && s.revs[ids[q]] <= first[q] <= copied[q] && |s1.revs| == |s1.seqs| == |s.revs|
      && (o.Skipped? || o.Appended? ==> s1.lastQ == q + 1 && Growing(s1.revs, ids, first, copied, q + 1))
      && QueueLoop(s, ids, first, copied, canSend) ==
         if o.Skipped? || o.Appended? then QueueLoop(s1, ids, first, copied, canSend) else (s1, o)
  {
  }

  lemma LoopEnds(s: Sender, ids: seq<nat>, first: seq<nat>, copied: seq<nat>, canSend: bool)
    requires s.lastQ == |ids| == |first| == |copied| && |s.revs| == |s.seqs|
    requires forall k :: 0 <= k < |ids| ==> ids[k] < |s.revs|
    ensures QueueLoop(s, ids, first, copied, canSend) == (s, Skipped)
  {
  }

  /** struct tcp_client. */
  class ClientProcess {
    var union: Range
    var reply: Range
    var replyId: nat
    var minFound: int
    var out: Option<TcpMsg>

    ghost function State(): Client
      reads this
    {
      Client(union, reply, replyId, minFound, out)
    }

    constructor ()
      ensures State() == InitClient
    {
      union, reply, replyId, minFound, out := INVALID_RANGE, Range(0, 0), 0, 0, None;
    }

    /** tcp_on_read for a complete request: refused if the range is invalid, merged otherwise. */
    method TcpOnRead(r: Range) returns (ok: bool)
      modifies this
      ensures ok == r.Valid()
      ensures State() == if ok then MergeRequest(old(State()), r) else old(State())
    {
      ok := r.low < r.high;
      if ok {
        if r.low < union.low {
          union := union.(low := r.low);
        }
        if r.high > union.high {
          union := union.(high := r.high);
        }
      }
    }

    /** tcp_on_read_blocked when no request is partly read. */
    method TcpOnReadBlocked(minSeq: int)
      modifies this
      ensures State() == StartScan(old(State()), minSeq)
    {
      if union.high <= minSeq {
        union := INVALID_RANGE;
      } else if !reply.Valid() {
        reply := union;
        union := INVALID_RANGE;
        replyId := 0;
        minFound := SEQUENCE_MAX;
      }
    }

    /** tcp_on_write once the previous message has been written completely; revs[i] is the revision
        the consistent copy loop would find for record i. */
    method TcpOnWrite(snd: SenderProcess, revs: seq<nat>, beatDue: bool)
      requires snd.Valid() && |revs| == snd.recordSeqs.Length && out.None?
      requires reply.Valid() ==> replyId <= |revs|
      modifies this, snd
      ensures snd.Valid()
      ensures old(reply.Valid()) ==>
        var c := ScanLoop(old(State()), Snapshot(old(snd.recordSeqs[..]), revs), |revs|);
        if c.out.Some? then State() == c && snd.State() == old(snd.State())
        else State() == c.(reply := INVALID_RANGE) && snd.State() == old(snd.State()).(minSeq := c.minFound)
      ensures !old(reply.Valid()) ==>
        && State() == old(State()).(out := if beatDue then Some(Heartbeat) else None)
        && snd.State() == old(snd.State())
    {
      if reply.Valid() {
        ghost var snap := Snapshot(snd.recordSeqs[..], revs);
        ghost var c := ScanLoop(State(), snap, |revs|);
        while replyId < |revs|
          invariant snd.recordSeqs[..] == snap.seqs && snd.State() == old(snd.State()) && snd.Valid()
          invariant replyId <= |revs| && out.None? && reply == old(reply)
          invariant ScanLoop(State(), snap, |revs|) == c
        {
          var seqNo := snd.recordSeqs[replyId];
          if seqNo < minFound {
            minFound := seqNo;
          }
          if reply.Contains(seqNo) && revs[replyId] != 0 {
            out := Some(Response(seqNo, replyId, revs[replyId]));
            replyId := replyId + 1;
            return;
          }
          replyId := replyId + 1;
        }
        snd.minSeq := minFound;
        reply := INVALID_RANGE;
      } else if beatDue {
        out := Some(Heartbeat);
      }
    }
  }
}
