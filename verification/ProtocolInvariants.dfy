/** Invariants that span the writer, the sender, the receivers and everything in flight, and the
    proofs that every step keeps them. */
module ProtocolInvariants {
  import opened Sequences
  import opened SenderModel
  import opened ReceiverModel
  import opened Protocol
  import opened RequestFraming
  import opened Wire

  // ---------------------------------------------------------------- the shared part

  ghost predicate SenderInv(g: Global) {
    var snd := g.snd;
    && 0 < |g.rev| == |snd.revs| == |snd.seqs|
    && 0 < snd.perPkt && |snd.pkt| <= snd.perPkt
    && 1 <= snd.nextSeq < SEQUENCE_MAX
    && (snd.pkt != [] ==> snd.hdr == snd.nextSeq)
    && (forall i :: 0 <= i < |snd.seqs| ==>
          && 0 <= snd.seqs[i] <= snd.nextSeq
          && snd.minSeq <= snd.seqs[i]
          && (snd.pkt == [] ==> snd.seqs[i] < snd.nextSeq))
    && (forall i :: 0 <= i < |snd.revs| ==>
          && -1 <= snd.revs[i] <= g.rev[i]
          && snd.revs[i] != 0
          && (snd.revs[i] == -1 <==> snd.seqs[i] == 0))
  }

  ghost predicate HistInv(g: Global)
    requires |g.rev| == |g.snd.revs| == |g.snd.seqs|
  {
    && (forall e :: e in g.hist ==>
          && e.id < |g.rev|
          && 1 <= e.seqNo <= g.snd.seqs[e.id]
          && 1 <= e.rev <= g.snd.revs[e.id])
    && (forall i :: 0 <= i < |g.rev| && g.snd.seqs[i] > 0 ==>
          g.snd.revs[i] > 0 && Entry(g.snd.seqs[i], i, g.snd.revs[i]) in g.hist)
    && (forall e, f :: e in g.hist && f in g.hist && e.id == f.id && e.seqNo < f.seqNo ==> e.rev <= f.rev)
  }

  ghost predicate OlderFirst(recs: seq<Staged>) {
    forall a, b :: 0 <= a < b < |recs| && recs[a].id == recs[b].id ==> recs[a].rev <= recs[b].rev
  }

  /** A packet holds exactly what was staged under its sequence, older revisions of a record first. */
  ghost predicate PacketOk(g: Global, seqNo: int, recs: seq<Staged>) {
    && (forall j :: 0 <= j < |recs| ==> Entry(seqNo, recs[j].id, recs[j].rev) in g.hist)
    && (forall e :: e in g.hist && e.seqNo == seqNo ==> Staged(e.id, e.rev) in recs)
    && OlderFirst(recs)
  }

  ghost predicate WirePacketOk(g: Global, p: Packet) {
    if p.hdr < 0 then -p.hdr <= g.snd.nextSeq && p.recs == []
    else 1 <= p.hdr < g.snd.nextSeq && p.recs != [] && PacketOk(g, p.hdr, p.recs)
  }

  ghost predicate WasSent(g: Global, seqNo: int) {
    exists p :: p in g.net && p.hdr == seqNo
  }

  ghost predicate NetInv(g: Global) {
    && PacketOk(g, g.snd.nextSeq, g.snd.pkt)
    && (forall p :: p in g.net ==> WirePacketOk(g, p))
    && (forall k :: 1 <= k < g.snd.nextSeq ==> WasSent(g, k))
  }

  ghost predicate ChangeOk(g: Global, ch: Change) {
    ch.id < |g.rev| && 1 <= ch.rev <= g.rev[ch.id]
  }

  /** No change-queue entry is passed before a revision at least as new as that change is staged. */
  ghost predicate LogInv(g: Global)
    requires |g.rev| == |g.snd.revs|
  {
    && g.startQ <= g.snd.lastQ <= |g.log|
    && (forall k :: 0 <= k < |g.log| ==> ChangeOk(g, g.log[k]))
    && (g.unlogged.Some? ==> ChangeOk(g, g.unlogged.value))
    && (forall k :: g.startQ <= k < g.snd.lastQ ==> g.log[k].rev <= g.snd.revs[g.log[k].id])
  }

  ghost predicate GlobalInv(g: Global) {
    SenderInv(g) && HistInv(g) && NetInv(g) && LogInv(g)
  }

  // ---------------------------------------------------------------- one receiver

  ghost predicate HasEntry(g: Global, seqNo: int, id: nat) {
    exists e :: e in g.hist && e.seqNo == seqNo && e.id == id
  }

  /** `rev` is a value of record `id` that can stand for sequence `seqNo`: nothing staged up to
      seqNo is newer and nothing staged after it is older. */
  ghost predicate Captured(g: Global, id: nat, seqNo: int, rev: nat) {
    && id < |g.rev| && rev <= g.rev[id]
    && (seqNo > 0 ==> HasEntry(g, seqNo, id))
    && (forall e :: e in g.hist && e.id == id ==> if e.seqNo <= seqNo then e.rev <= rev else rev <= e.rev)
  }

  ghost predicate MsgOk(g: Global, recv: Receiver, m: TcpMsg) {
    m.Response? ==>
      && m.id < |g.rev| == |g.snd.seqs|
      && 0 <= m.seqNo < recv.next
      && m.seqNo <= g.snd.seqs[m.id]
      && 1 <= m.rev
      && Captured(g, m.id, m.seqNo, m.rev)
  }

  /** A range that the receiver has asked for: non-empty and below its next sequence. */
  predicate RequestOk(r: Range, next: int) {
    0 <= r.low < r.high <= next
  }

  ghost predicate ReceiverInv(g: Global, recv: Receiver) {
    && |recv.seqs| == |recv.vals| == |g.rev| == |g.snd.seqs|
    && 0 <= recv.next <= g.snd.nextSeq
    && (forall i :: 0 <= i < |recv.seqs| ==>
          && -1 <= recv.seqs[i] < recv.next
          && recv.seqs[i] <= g.snd.seqs[i]
          && (if recv.seqs[i] == -1 then recv.vals[i] == 0 else Captured(g, i, recv.seqs[i], recv.vals[i])))
  }

  ghost predicate RequestsInv(s: Session) {
    && s.sent < FRAME && (s.sent > 0 ==> s.recv.out.Some?)
    && (s.recv.out.Some? ==> RequestOk(s.recv.out.value, s.recv.next))
    && (forall k :: 0 <= k < |s.reqs| ==> RequestOk(s.reqs[k], s.recv.next))
    && (s.clnt.union == INVALID_RANGE || RequestOk(s.clnt.union, s.recv.next))
    && (s.clnt.reply.Valid() ==> RequestOk(s.clnt.reply, s.recv.next))
  }

  ghost predicate ScanInv(g: Global, c: Client) {
    c.reply.Valid() ==>
      && c.replyId <= |g.snd.seqs|
      && forall j :: 0 <= j < c.replyId ==> c.minFound <= g.snd.seqs[j]
  }

  ghost predicate MsgsInv(g: Global, s: Session) {
    && (s.clnt.out.Some? ==> MsgOk(g, s.recv, s.clnt.out.value))
    && (forall k :: 0 <= k < |s.resps| ==> MsgOk(g, s.recv, s.resps[k]))
  }

  /** Nothing that was asked for before the request in the buffer, and nothing that came of it,
      reaches into that request's range. */
  ghost predicate UnansweredInv(s: Session) {
    s.recv.out.Some? ==>
      var r := s.recv.out.value;
      && (forall k :: 0 <= k < |s.reqs| ==> s.reqs[k].high <= r.low)
      && (s.clnt.union == INVALID_RANGE || s.clnt.union.high <= r.low)
      && (s.clnt.reply.Valid() ==> s.clnt.reply.high <= r.low)
      && (s.clnt.out.Some? && s.clnt.out.value.Response? ==> s.clnt.out.value.seqNo < r.low)
      && (forall k :: 0 <= k < |s.resps| && s.resps[k].Response? ==> s.resps[k].seqNo < r.low)
      && (forall i :: 0 <= i < |s.recv.seqs| ==> !r.Contains(s.recv.seqs[i]))
  }

  ghost predicate SessionInv(g: Global, s: Session) {
    Framed(s) && ReceiverInv(g, s.recv) && RequestsInv(s) && UnansweredInv(s) && ScanInv(g, s.clnt) && MsgsInv(g, s)
  }

  /** What is left when the stream of requests has lost its frames and the sender answers ranges that
      nobody asked for. */
  ghost predicate UnframedInv(g: Global, s: Session) {
    && |s.recv.seqs| == |s.recv.vals| == |g.rev|
    && 1 <= s.recv.next <= g.snd.nextSeq
    && s.sent < FRAME && (s.sent > 0 ==> s.recv.out.Some?)
    && (s.recv.out.Some? ==> RequestOk(s.recv.out.value, s.recv.next))
    && ScanInv(g, s.clnt)
  }

  ghost predicate ConnectionInv(g: Global, s: Session) {
    if Framed(s) then SessionInv(g, s) else UnframedInv(g, s)
  }

  ghost predicate SystemInv(sys: System) {
    && GlobalInv(sys.g)
    && forall c :: c in sys.sessions ==> c < sys.nextClient && ConnectionInv(sys.g, sys.sessions[c])
  }

  // ---------------------------------------------------------------- steps of the shared part

  /** How the shared part may change while a receiver does nothing. */
  ghost predicate Evolves(g: Global, g': Global) {
    && |g.rev| == |g'.rev| && |g.snd.seqs| == |g'.snd.seqs| == |g.rev|
    && g.snd.nextSeq <= g'.snd.nextSeq
    && (forall i :: 0 <= i < |g.rev| ==> g.rev[i] <= g'.rev[i] && g.snd.seqs[i] <= g'.snd.seqs[i])
    && (forall i :: 0 <= i < |g.rev| ==> g'.snd.seqs[i] == g.snd.seqs[i] || g.snd.nextSeq <= g'.snd.seqs[i])
    && g.hist <= g'.hist
    && (forall e :: e in g'.hist && e !in g.hist && e.id < |g.rev| ==>
          g.snd.nextSeq <= e.seqNo && g.rev[e.id] <= e.rev)
  }

  lemma NetUnchanged(g: Global, g': Global)
    requires NetInv(g) && g'.net == g.net && g'.hist == g.hist
    requires g'.snd.nextSeq == g.snd.nextSeq && g'.snd.pkt == g.snd.pkt
    ensures NetInv(g')
  {
    forall p | p in g'.net ensures WirePacketOk(g', p) { assert WirePacketOk(g, p); }
    forall k | 1 <= k < g'.snd.nextSeq ensures WasSent(g', k) {
      assert WasSent(g, k);
      var p :| p in g.net && p.hdr == k;
      assert p in g'.net;
    }
  }

  lemma CommitKeeps(g: Global, id: nat)
    requires GlobalInv(g) && GlobalEnabled(g, Commit(id))
    ensures GlobalInv(GlobalApply(g, Commit(id))) && Evolves(g, GlobalApply(g, Commit(id)))
  {
    var g' := GlobalApply(g, Commit(id));
    NetUnchanged(g, g');
    hide NetInv;
  }

  lemma LogChangeKeeps(g: Global)
    requires GlobalInv(g) && GlobalEnabled(g, LogChange)
    ensures GlobalInv(GlobalApply(g, LogChange)) && Evolves(g, GlobalApply(g, LogChange))
  {
    var g' := GlobalApply(g, LogChange);
    NetUnchanged(g, g');
    hide NetInv;
  }

  lemma FlushKeeps(g: Global)
    requires GlobalInv(g) && g.snd.pkt != [] && g.snd.nextSeq + 1 < SEQUENCE_MAX
    ensures GlobalInv(GlobalApply(g, Flush)) && Evolves(g, GlobalApply(g, Flush))
  {
    var g' := GlobalApply(g, Flush);
    var p0 := Packet(g.snd.hdr, g.snd.pkt);
    forall p | p in g'.net ensures WirePacketOk(g', p) {
      if p != p0 { assert WirePacketOk(g, p); }
    }
    forall k | 1 <= k < g'.snd.nextSeq ensures WasSent(g', k) {
      if k < g.snd.nextSeq {
        assert WasSent(g, k);
        var p :| p in g.net && p.hdr == k;
        assert p in g'.net;
      } else {
        assert p0 in g'.net && p0.hdr == k;
      }
    }
  }

  lemma BeatKeeps(g: Global)
    requires GlobalInv(g) && GlobalEnabled(g, Beat)
    ensures GlobalInv(GlobalApply(g, Beat)) && Evolves(g, GlobalApply(g, Beat))
  {
    var g' := GlobalApply(g, Beat);
    forall p | p in g'.net ensures WirePacketOk(g', p) {
      if p in g.net { assert WirePacketOk(g, p); }
    }
    forall k | 1 <= k < g'.snd.nextSeq ensures WasSent(g', k) {
      assert WasSent(g, k);
      var p :| p in g.net && p.hdr == k;
      assert p in g'.net;
    }
  }

  /** Staging the current revision of a record in a buffer with room. */
  function StageGlobal(g: Global, id: nat): Global
    requires id < |g.rev| == |g.snd.revs| == |g.snd.seqs|
  {
    g.(snd := Stage(g.snd, id, g.rev[id]), hist := g.hist + {Entry(g.snd.nextSeq, id, g.rev[id])})
  }

  ghost predicate CanStage(g: Global, id: nat) {
    GlobalInv(g) && id < |g.rev| && |g.snd.pkt| < g.snd.perPkt && 1 <= g.rev[id] != g.snd.revs[id]
  }

  lemma StageKeepsSender(g: Global, id: nat)
    requires CanStage(g, id)
    ensures SenderInv(StageGlobal(g, id)) && LogInv(StageGlobal(g, id)) && Evolves(g, StageGlobal(g, id))
  {
  }

  lemma StageKeepsHist(g: Global, id: nat)
    requires CanStage(g, id)
    ensures HistInv(StageGlobal(g, id))
  {
  }

  lemma StageKeepsBuffer(g: Global, id: nat)
    requires CanStage(g, id)
    ensures PacketOk(StageGlobal(g, id), g.snd.nextSeq, StageGlobal(g, id).snd.pkt)
  {
    var pkt, pkt', g' := g.snd.pkt, StageGlobal(g, id).snd.pkt, StageGlobal(g, id);
    assert pkt'[|pkt|] == Staged(id, g.rev[id]);
    forall e | e in g'.hist && e.seqNo == g.snd.nextSeq ensures Staged(e.id, e.rev) in pkt' {
      if e in g.hist { assert Staged(e.id, e.rev) in pkt; }
    }
    forall a | 0 <= a < |pkt| && pkt[a].id == id ensures pkt[a].rev <= g.rev[id] {
      assert Entry(g.snd.nextSeq, id, pkt[a].rev) in g.hist;
    }
  }

  lemma StageKeeps(g: Global, id: nat)
    requires CanStage(g, id)
    ensures GlobalInv(StageGlobal(g, id)) && Evolves(g, StageGlobal(g, id))
  {
    var g' := StageGlobal(g, id);
    StageKeepsSender(g, id);
    StageKeepsHist(g, id);
    StageKeepsBuffer(g, id);
    forall p | p in g'.net ensures WirePacketOk(g', p) { assert WirePacketOk(g, p); }
    forall k | 1 <= k < g'.snd.nextSeq ensures WasSent(g', k) {
      assert WasSent(g, k);
      var p :| p in g.net && p.hdr == k;
      assert p in g'.net;
    }
  }

  lemma EvolvesTransitive(a: Global, b: Global, c: Global)
    requires Evolves(a, b) && Evolves(b, c)
    ensures Evolves(a, c)
  {
  }

  lemma AdvanceKeeps(g: Global)
    requires GlobalInv(g) && g.snd.lastQ < |g.log|
    requires g.snd.revs[g.log[g.snd.lastQ].id] == g.rev[g.log[g.snd.lastQ].id]
    ensures var g' := g.(snd := g.snd.(lastQ := g.snd.lastQ + 1)); GlobalInv(g') && Evolves(g, g')
  {
    var g' := g.(snd := g.snd.(lastQ := g.snd.lastQ + 1));
    NetUnchanged(g, g');
    hide NetInv;
    assert ChangeOk(g, g.log[g.snd.lastQ]);
  }

  /** The queue turn, as the flush, the staging and the index advance it is made of. */
  lemma QueueParts(g: Global, canSend: bool)
    requires GlobalInv(g) && GlobalEnabled(g, Queue(canSend))
    ensures var id, g' := g.log[g.snd.lastQ].id, GlobalApply(g, Queue(canSend));
      if g.rev[id] == g.snd.revs[id] then
        g' == g.(snd := g.snd.(lastQ := g.snd.lastQ + 1))
      else if |g.snd.pkt| < g.snd.perPkt then
        var g1 := StageGlobal(g, id); g' == g1.(snd := g1.snd.(lastQ := g1.snd.lastQ + 1))
      else if canSend then
        GlobalEnabled(g, Flush) && g' == StageGlobal(GlobalApply(g, Flush), id)
      else g' == g
  {
  }

  /** Staging is possible when the queue turn finds a change and the buffer has room or was flushed. */
  lemma QueueCanStage(g: Global, canSend: bool)
    requires GlobalInv(g) && GlobalEnabled(g, Queue(canSend))
    ensures var id := g.log[g.snd.lastQ].id;
      && (g.rev[id] != g.snd.revs[id] && |g.snd.pkt| < g.snd.perPkt ==> CanStage(g, id))
      && (g.rev[id] != g.snd.revs[id] && |g.snd.pkt| >= g.snd.perPkt ==>
            GlobalEnabled(g, Flush) && CanStage(GlobalApply(g, Flush), id))
  {
    assert ChangeOk(g, g.log[g.snd.lastQ]);
    if |g.snd.pkt| >= g.snd.perPkt { FlushKeeps(g); }
  }

  lemma QueueKeeps(g: Global, canSend: bool)
    requires GlobalInv(g) && GlobalEnabled(g, Queue(canSend))
    ensures GlobalInv(GlobalApply(g, Queue(canSend))) && Evolves(g, GlobalApply(g, Queue(canSend)))
  {
    hide SenderInv, HistInv, NetInv, LogInv;
    var id := g.log[g.snd.lastQ].id;
    QueueParts(g, canSend);
    QueueCanStage(g, canSend);
    if g.rev[id] == g.snd.revs[id] {
      AdvanceKeeps(g);
    } else if |g.snd.pkt| < g.snd.perPkt {
      var g1 := StageGlobal(g, id);
      StageKeeps(g, id);
      AdvanceKeeps(g1);
      EvolvesTransitive(g, g1, g1.(snd := g1.snd.(lastQ := g1.snd.lastQ + 1)));
    } else if canSend {
      var g1 := GlobalApply(g, Flush);
      FlushKeeps(g);
      StageKeeps(g1, id);
      EvolvesTransitive(g, g1, StageGlobal(g1, id));
    }
  }

  lemma GlobalStepKeeps(g: Global, step: Step)
    requires GlobalInv(g) && GlobalEnabled(g, step)
    ensures GlobalInv(GlobalApply(g, step)) && Evolves(g, GlobalApply(g, step))
  {
    match step
    case Commit(id) => CommitKeeps(g, id);
    case LogChange => LogChangeKeeps(g);
    case Queue(canSend) => QueueKeeps(g, canSend);
    case Flush => FlushKeeps(g);
    case Beat => BeatKeeps(g);
  }

  // ---------------------------------------------------------------- a receiver while others act

  lemma CapturedEvolves(g: Global, g': Global, id: nat, seqNo: int, rev: nat)
    requires Evolves(g, g') && Captured(g, id, seqNo, rev) && seqNo < g.snd.nextSeq
    ensures Captured(g', id, seqNo, rev)
  {
    if seqNo > 0 {
      var e :| e in g.hist && e.seqNo == seqNo && e.id == id;
      assert e in g'.hist;
    }
  }

  lemma MsgEvolves(g: Global, g': Global, recv: Receiver, m: TcpMsg)
    requires Evolves(g, g') && MsgOk(g, recv, m) && recv.next <= g.snd.nextSeq
    ensures MsgOk(g', recv, m)
  {
    if m.Response? { CapturedEvolves(g, g', m.id, m.seqNo, m.rev); }
  }

  lemma ReceiverEvolves(g: Global, g': Global, recv: Receiver)
    requires Evolves(g, g') && ReceiverInv(g, recv)
    ensures ReceiverInv(g', recv)
  {
    forall i | 0 <= i < |recv.seqs| && recv.seqs[i] != -1 ensures Captured(g', i, recv.seqs[i], recv.vals[i]) {
      CapturedEvolves(g, g', i, recv.seqs[i], recv.vals[i]);
    }
  }

  lemma MsgsEvolve(g: Global, g': Global, s: Session)
    requires Evolves(g, g') && MsgsInv(g, s) && s.recv.next <= g.snd.nextSeq
    ensures MsgsInv(g', s)
  {
    if s.clnt.out.Some? { MsgEvolves(g, g', s.recv, s.clnt.out.value); }
    forall k | 0 <= k < |s.resps| ensures MsgOk(g', s.recv, s.resps[k]) {
      MsgEvolves(g, g', s.recv, s.resps[k]);
    }
  }

  lemma SessionEvolves(g: Global, g': Global, s: Session)
    requires Evolves(g, g') && SessionInv(g, s)
    ensures SessionInv(g', s)
  {
    ReceiverEvolves(g, g', s.recv);
    MsgsEvolve(g, g', s);
  }

  // ---------------------------------------------------------------- steps of a receiver

  lemma {:induction false} ApplyRecsFrame(r: Receiver, seqNo: int, recs: seq<Staged>, i: nat)
    requires i < |r.seqs| == |r.vals|
    ensures var r' := ApplyRecs(r, seqNo, recs);
      && |r'.seqs| == |r'.vals| == |r.seqs| && r'.next == r.next && r'.out == r.out
      && ((forall j :: 0 <= j < |recs| ==> recs[j].id != i) ==> r'.seqs[i] == r.seqs[i] && r'.vals[i] == r.vals[i])
  {
    if recs != [] { ApplyRecsFrame(r, seqNo, recs[..|recs| - 1], i); }
  }

  lemma {:induction false} ApplyRecsHit(r: Receiver, seqNo: int, recs: seq<Staged>, i: nat, j: nat)
    requires i < |r.seqs| == |r.vals| && OlderFirst(recs) && j < |recs| && recs[j].id == i
    ensures var r' := ApplyRecs(r, seqNo, recs);
      && |r'.seqs| == |r'.vals| == |r.seqs| && r'.seqs[i] == seqNo
      && (exists k :: 0 <= k < |recs| && recs[k] == Staged(i, r'.vals[i]))
      && forall k :: 0 <= k < |recs| && recs[k].id == i ==> recs[k].rev <= r'.vals[i]
  {
    var n := |recs| - 1;
    var init, last := recs[..n], recs[n];
    ApplyRecsFrame(r, seqNo, init, i);
    if last.id == i {
      assert recs[n] == Staged(i, last.rev);
    } else {
      assert init[j] == recs[j] && OlderFirst(init);
      ApplyRecsHit(r, seqNo, init, i, j);
      var k :| 0 <= k < |init| && init[k] == Staged(i, ApplyRecs(r, seqNo, init).vals[i]);
      assert recs[k] == init[k];
      assert forall k :: 0 <= k < |recs| && recs[k].id == i ==> k < n && init[k] == recs[k];
    }
  }

  /** What the record loop of mcast_on_read leaves in record i. */
  lemma ApplyRecsEffect(r: Receiver, seqNo: int, recs: seq<Staged>, i: nat)
    requires i < |r.seqs| == |r.vals| && OlderFirst(recs)
    ensures var r' := ApplyRecs(r, seqNo, recs);
      && |r'.seqs| == |r'.vals| == |r.seqs| && r'.next == r.next && r'.out == r.out
      && ((forall j :: 0 <= j < |recs| ==> recs[j].id != i) ==> r'.seqs[i] == r.seqs[i] && r'.vals[i] == r.vals[i])
      && ((exists j :: 0 <= j < |recs| && recs[j].id == i) ==>
            && r'.seqs[i] == seqNo
            && (exists k :: 0 <= k < |recs| && recs[k] == Staged(i, r'.vals[i]))
            && forall j :: 0 <= j < |recs| && recs[j].id == i ==> recs[j].rev <= r'.vals[i])
  {
    ApplyRecsFrame(r, seqNo, recs, i);
    if exists j :: 0 <= j < |recs| && recs[j].id == i {
      var j :| 0 <= j < |recs| && recs[j].id == i;
      ApplyRecsHit(r, seqNo, recs, i, j);
    }
  }

  /** The packet that a record was last staged in brings what was staged. */
  lemma LatestPacketEffect(g: Global, r: Receiver, p: Packet, i: nat)
    requires GlobalInv(g) && p in g.net && i < |r.seqs| == |r.vals| == |g.rev| && p.hdr == g.snd.seqs[i] > 0
    ensures var r' := ApplyRecs(r, p.hdr, p.recs);
      && |r'.seqs| == |r'.vals| == |r.seqs| && r'.next == r.next && r'.out == r.out
      && r'.seqs[i] == g.snd.seqs[i] && r'.vals[i] == g.snd.revs[i]
  {
    assert WirePacketOk(g, p);
    ApplyRecsEffect(r, p.hdr, p.recs, i);
    assert Entry(p.hdr, i, g.snd.revs[i]) in g.hist;
    assert Staged(i, g.snd.revs[i]) in p.recs;
    hide ApplyRecs, OlderFirst;
    var j :| 0 <= j < |p.recs| && p.recs[j] == Staged(i, ApplyRecs(r, p.hdr, p.recs).vals[i]);
    assert Entry(p.hdr, p.recs[j].id, p.recs[j].rev) in g.hist;
  }

  /** A data packet that is not old leaves every record with a value that stands for its sequence. */
  lemma ApplyPacketKeeps(g: Global, r: Receiver, p: Packet, i: nat)
    requires GlobalInv(g) && ReceiverInv(g, r) && p in g.net && p.hdr >= r.next && i < |r.seqs|
    ensures var r' := ApplyRecs(r, p.hdr, p.recs);
      && |r'.seqs| == |r'.vals| == |r.seqs| && r'.next == r.next && r'.out == r.out
      && -1 <= r'.seqs[i] <= p.hdr && (r'.seqs[i] == r.seqs[i] || r'.seqs[i] == p.hdr)
      && r'.seqs[i] <= g.snd.seqs[i]
      && (if r'.seqs[i] == -1 then r'.vals[i] == 0 else Captured(g, i, r'.seqs[i], r'.vals[i]))
      && r.vals[i] <= r'.vals[i]
  {
    assert WirePacketOk(g, p);
    ApplyRecsEffect(r, p.hdr, p.recs, i);
    var r' := ApplyRecs(r, p.hdr, p.recs);
    if exists j :: 0 <= j < |p.recs| && p.recs[j].id == i {
      var j :| 0 <= j < |p.recs| && p.recs[j] == Staged(i, r'.vals[i]);
      var e := Entry(p.hdr, i, r'.vals[i]);
      assert e in g.hist;
      assert HasEntry(g, p.hdr, i);
      forall f | f in g.hist && f.id == i
        ensures if f.seqNo <= p.hdr then f.rev <= r'.vals[i] else r'.vals[i] <= f.rev
      {
        if f.seqNo == p.hdr {
          assert Staged(f.id, f.rev) in p.recs;
        }
      }
    }
  }

  lemma SentPacketOk(g: Global, p: Packet)
    requires GlobalInv(g) && p in g.net
    ensures WirePacketOk(g, p)
  {
  }

  lemma MsgsAdvance(g: Global, s: Session, s': Session)
    requires MsgsInv(g, s) && s.recv.next <= s'.recv.next && s'.clnt.out == s.clnt.out && s'.resps == s.resps
    ensures MsgsInv(g, s')
  {
    if s.clnt.out.Some? { assert MsgOk(g, s.recv, s.clnt.out.value); }
    forall k | 0 <= k < |s'.resps| ensures MsgOk(g, s'.recv, s'.resps[k]) { assert MsgOk(g, s.recv, s.resps[k]); }
  }

  /** Every sequence below the next one was sent. */
  lemma PacketOf(g: Global, seqNo: int) returns (p: Packet)
    requires GlobalInv(g) && 1 <= seqNo < g.snd.nextSeq
    ensures p in g.net && p.hdr == seqNo
  {
    assert WasSent(g, seqNo);
    p :| p in g.net && p.hdr == seqNo;
  }

  /** A receiver that advances, perhaps with one more request, leaves its connection as it was. */
  lemma AdvancedReceiverKeeps(g: Global, s: Session, r: Receiver, sent: nat)
    requires SessionInv(g, s) && ReceiverInv(g, r) && s.recv.next <= r.next
    requires if r.out == s.recv.out then sent == s.sent
             else sent == 0 && r.out.Some? && r.out.value.low == s.recv.next < r.out.value.high <= r.next
    requires var least := if r.out == s.recv.out then s.recv.next else r.out.value.high;
      forall i :: 0 <= i < |r.seqs| ==> r.seqs[i] == s.recv.seqs[i] || least <= r.seqs[i]
    ensures SessionInv(g, s.(recv := r, sent := sent))
  {
    var s' := s.(recv := r, sent := sent);
    MsgsAdvance(g, s, s');
    assert UnansweredInv(s') by {
      assert forall k :: 0 <= k < |s.resps| ==> MsgOk(g, s.recv, s.resps[k]);
    }
  }

  /** The record loop of a packet that is not old, as a whole. */
  lemma ApplyAllKeeps(g: Global, r: Receiver, p: Packet)
    requires GlobalInv(g) && ReceiverInv(g, r) && p in g.net && p.hdr >= r.next
    ensures var r' := ApplyRecs(r, p.hdr, p.recs);
      && r'.next == r.next && r'.out == r.out
      && ReceiverInv(g, r'.(next := p.hdr + 1))
      && |r'.vals| == |r.vals| && (forall i :: 0 <= i < |r.vals| ==> r.vals[i] <= r'.vals[i])
      && |r'.seqs| == |r.seqs| && forall i :: 0 <= i < |r.seqs| ==> r'.seqs[i] == r.seqs[i] || r'.seqs[i] == p.hdr
  {
    SentPacketOk(g, p);
    var r' := ApplyRecs(r, p.hdr, p.recs);
    ApplyPacketKeeps(g, r, p, 0);
    forall i | 0 <= i < |r.seqs|
      ensures -1 <= r'.seqs[i] <= p.hdr && r'.seqs[i] <= g.snd.seqs[i] && r.vals[i] <= r'.vals[i]
      ensures r'.seqs[i] == r.seqs[i] || r'.seqs[i] == p.hdr
      ensures if r'.seqs[i] == -1 then r'.vals[i] == 0 else Captured(g, i, r'.seqs[i], r'.vals[i])
    {
      ApplyPacketKeeps(g, r, p, i);
    }
  }

  /** The request in the buffer can be written. */
  lemma SlotIsOk(g: Global, s: Session)
    requires GlobalInv(g) && ConnectionInv(g, s)
    ensures SlotOk(s)
  {
  }

  /** Losing the frames keeps what does not depend on them. */
  lemma UnframedStill(g: Global, s: Session, raw: Option<seq<Byte>>)
    requires SessionInv(g, s) && 1 <= s.recv.next
    ensures UnframedInv(g, s.(raw := raw))
  {
  }

  /** Any packet on the network, old or new, as the receiver sees it. */
  lemma McastKeeps(g: Global, r: Receiver, p: Packet)
    requires GlobalInv(g) && ReceiverInv(g, r) && p in g.net
    ensures var r', gap := McastOnRead(r, p), RequestsGap(r, p);
      && ReceiverInv(g, r') && r.next <= r'.next
      && (if gap then r'.out.Some? && r'.out.value.low == r.next < r'.out.value.high <= r'.next else r'.out == r.out)
      && (var least := if gap then r'.out.value.high else r.next;
          forall i :: 0 <= i < |r.seqs| ==> r'.seqs[i] == r.seqs[i] || least <= r'.seqs[i])
      && forall i :: 0 <= i < |r.vals| ==> r.vals[i] <= r'.vals[i]
  {
    SentPacketOk(g, p);
    hide SenderInv, HistInv, NetInv, LogInv, Captured, PacketOk, ApplyRecs;
    if p.hdr >= r.next { ApplyAllKeeps(g, r, p); }
  }

  lemma DeliverKeeps(g: Global, s: Session, step: Step)
    requires GlobalInv(g) && SessionInv(g, s) && step.Deliver? && SessionEnabled(g, s, step)
    ensures ConnectionInv(g, SessionApply(g, s, step))
    ensures |SessionApply(g, s, step).recv.vals| == |s.recv.vals|
    ensures forall i :: 0 <= i < |s.recv.vals| ==> s.recv.vals[i] <= SessionApply(g, s, step).recv.vals[i]
  {
    var s' := SessionApply(g, s, step);
    McastKeeps(g, s.recv, step.packet);
    hide GlobalInv, ScanInv, MsgsInv, UnansweredInv, Captured, EncodeRange, McastOnRead, RequestsGap;
    AdvancedReceiverKeeps(g, s, s'.recv, s'.sent);
    if !Framed(s') { UnframedStill(g, s.(recv := s'.recv, sent := s'.sent), s'.raw); }
  }

  lemma ResponseKeepsReceiver(g: Global, r: Receiver, m: TcpMsg)
    requires GlobalInv(g) && ReceiverInv(g, r) && MsgOk(g, r, m)
    ensures var r' := TcpOnRead(r, m);
      && ReceiverInv(g, r') && r'.next == r.next && r'.out == r.out
      && (forall i :: 0 <= i < |r.vals| ==> r.vals[i] <= r'.vals[i])
      && forall i :: 0 <= i < |r.seqs| ==> r'.seqs[i] == r.seqs[i] || (m.Response? && r'.seqs[i] == m.seqNo)
  {
    if m.Response? && m.seqNo > r.seqs[m.id] && r.seqs[m.id] != -1 {
      // Something was staged under m.seqNo; it is no older than what is held and no newer than m.
      assert Captured(g, m.id, r.seqs[m.id], r.vals[m.id]);
      var e :| e in g.hist && e.seqNo == m.seqNo && e.id == m.id;
    }
  }

  lemma ReadResponseKeeps(g: Global, s: Session, step: Step)
    requires GlobalInv(g) && SessionInv(g, s) && step.ReadResponse? && SessionEnabled(g, s, step)
    ensures SessionInv(g, SessionApply(g, s, step))
    ensures |SessionApply(g, s, step).recv.vals| == |s.recv.vals|
    ensures forall i :: 0 <= i < |s.recv.vals| ==> s.recv.vals[i] <= SessionApply(g, s, step).recv.vals[i]
  {
    assert MsgOk(g, s.recv, s.resps[0]);
    ResponseKeepsReceiver(g, s.recv, s.resps[0]);
    hide GlobalInv, Captured, ScanInv, TcpOnRead;
  }

  lemma ScanKeeps(g: Global, s: Session, step: Step)
    requires GlobalInv(g) && SessionInv(g, s) && step.Scan? && SessionEnabled(g, s, step)
    ensures SessionInv(g, SessionApply(g, s, step))
  {
    CapturedNow(g, s.clnt.replyId);
    hide GlobalInv, Captured;
  }

  /** The value in storage stands for the sequence a record was last staged under. */
  lemma CapturedNow(g: Global, id: nat)
    requires GlobalInv(g) && id < |g.rev|
    ensures |g.snd.seqs| == |g.rev| && 0 <= g.snd.seqs[id] && Captured(g, id, g.snd.seqs[id], g.rev[id])
  {
    if g.snd.seqs[id] > 0 {
      assert Entry(g.snd.seqs[id], id, g.snd.revs[id]) in g.hist;
      assert HasEntry(g, g.snd.seqs[id], id);
    }
  }

  lemma ScanDoneKeeps(g: Global, s: Session, step: Step)
    requires GlobalInv(g) && ScanInv(g, s.clnt) && step.ScanDone? && SessionEnabled(g, s, step)
    ensures GlobalInv(SessionGlobal(g, s, step))
  {
    var g' := SessionGlobal(g, s, step);
    NetUnchanged(g, g');
    hide NetInv;
  }

  lemma RequestStepKeeps(g: Global, s: Session, step: Step)
    requires GlobalInv(g) && SessionInv(g, s) && SessionEnabled(g, s, step)
    requires step.ReadRequest? || step.ReadBlocked? || step.SendRequest?
    ensures SessionInv(g, SessionApply(g, s, step))
  {
    var s' := SessionApply(g, s, step);
    hide EncodeRange, FrameOf;
    assert RequestsInv(s') && UnansweredInv(s');
  }

  lemma SendStepKeeps(g: Global, s: Session, step: Step)
    requires GlobalInv(g) && SessionInv(g, s) && SessionEnabled(g, s, step)
    requires step.QueueHeartbeat? || step.WriteOut? || step.ScanDone?
    ensures SessionInv(g, SessionApply(g, s, step))
  {
    var s' := SessionApply(g, s, step);
    assert MsgsInv(g, s');
  }

  lemma FramedStepKeeps(g: Global, s: Session, step: Step)
    requires GlobalInv(g) && SessionInv(g, s) && SessionEnabled(g, s, step)
    ensures GlobalInv(SessionGlobal(g, s, step)) && Evolves(g, SessionGlobal(g, s, step))
    ensures ConnectionInv(g, SessionApply(g, s, step))
  {
    match step {
      case Deliver(_, _) => DeliverKeeps(g, s, step);
      case ReadResponse(_) => ReadResponseKeeps(g, s, step);
      case Scan(_) => ScanKeeps(g, s, step);
      case ScanDone(_) => ScanDoneKeeps(g, s, step); SendStepKeeps(g, s, step);
      case QueueHeartbeat(_) => SendStepKeeps(g, s, step);
      case WriteOut(_) => SendStepKeeps(g, s, step);
      case _ => RequestStepKeeps(g, s, step);
    }
  }

  lemma UnframedDeliverKeeps(g: Global, s: Session, p: Packet)
    requires GlobalInv(g) && UnframedInv(g, s) && !Framed(s) && p in g.net && SlotOk(s)
    ensures UnframedInv(g, HearPacket(s, p)) && !Framed(HearPacket(s, p))
  {
    SentPacketOk(g, p);
    ApplyRecsFrame(s.recv, p.hdr, p.recs, 0);
    hide SenderInv, HistInv, NetInv, LogInv, ScanInv, EncodeRange, ApplyRecs, PacketOk;
  }

  /** Without frames: the shared part is as safe as before, whatever ranges the sender answers. */
  lemma UnframedStepKeeps(g: Global, s: Session, step: Step)
    requires GlobalInv(g) && UnframedInv(g, s) && !Framed(s) && SessionEnabled(g, s, step)
    ensures GlobalInv(SessionGlobal(g, s, step)) && Evolves(g, SessionGlobal(g, s, step))
    ensures UnframedInv(g, SessionApply(g, s, step)) && !Framed(SessionApply(g, s, step))
  {
    if step.Deliver? { UnframedDeliverKeeps(g, s, step.packet); }
    if step.ScanDone? { ScanDoneKeeps(g, s, step); }
    hide HistInv, NetInv, LogInv, EncodeRange, FrameOf, HearPacket;
  }

  lemma UnframedEvolves(g: Global, g': Global, s: Session)
    requires Evolves(g, g') && UnframedInv(g, s)
    ensures UnframedInv(g', s)
  {
  }

  lemma ConnectionEvolves(g: Global, g': Global, s: Session)
    requires Evolves(g, g') && ConnectionInv(g, s)
    ensures ConnectionInv(g', s)
  {
    if Framed(s) { SessionEvolves(g, g', s); } else { UnframedEvolves(g, g', s); }
  }

  /** Every step of a connection keeps the invariants; `Framed` tells the past, so it does not come back. */
  lemma SessionStepKeeps(g: Global, s: Session, step: Step)
    requires GlobalInv(g) && ConnectionInv(g, s) && SessionEnabled(g, s, step)
    ensures GlobalInv(SessionGlobal(g, s, step)) && Evolves(g, SessionGlobal(g, s, step))
    ensures ConnectionInv(SessionGlobal(g, s, step), SessionApply(g, s, step))
    ensures !Framed(s) ==> !Framed(SessionApply(g, s, step))
  {
    if Framed(s) { FramedStepKeeps(g, s, step); } else { UnframedStepKeeps(g, s, step); }
    hide GlobalInv, SessionInv, UnframedInv, Evolves;
    ConnectionEvolves(g, SessionGlobal(g, s, step), SessionApply(g, s, step));
  }
}
