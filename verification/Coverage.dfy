/** Coverage: nothing is silently lost. For one receiver and one record, Covered says that the
    record's current value is held by the replica or that something still in motion will bring it. */
module Coverage {
  import opened SenderModel
  import opened ReceiverModel
  import opened Protocol
  import opened ProtocolInvariants
  import opened RequestFraming

  /** A change of record i waits in the change queue, or is about to be written there. */
  ghost predicate Queued(g: Global, i: nat) {
    || (g.unlogged.Some? && g.unlogged.value.id == i)
    || exists k :: g.snd.lastQ <= k < |g.log| && g.log[k].id == i
  }

  predicate Answers(m: TcpMsg, i: nat, seqNo: int) {
    m.Response? && m.id == i && m.seqNo == seqNo
  }

  /** A response for record i under seqNo is in the sender's buffer or on the wire. */
  ghost predicate InFlight(s: Session, i: nat, seqNo: int) {
    || (s.clnt.out.Some? && Answers(s.clnt.out.value, i, seqNo))
    || exists k :: 0 <= k < |s.resps| && Answers(s.resps[k], i, seqNo)
  }

  /** A request that covers seqNo waits in the receiver, is on the wire, was merged into
      union_range, or is being answered by a scan that has not reached record i. */
  ghost predicate Requested(s: Session, i: nat, seqNo: int) {
    || (s.recv.out.Some? && s.recv.out.value.Contains(seqNo))
    || (exists k :: 0 <= k < |s.reqs| && s.reqs[k].Contains(seqNo))
    || s.clnt.union.Contains(seqNo)
    || (s.clnt.reply.Contains(seqNo) && s.clnt.replyId <= i)
  }

  /** The sender passed over a change of record i while nobody was connected. */
  ghost predicate SkippedChange(g: Global, i: nat) {
    i < |g.rev| == |g.snd.revs| && g.snd.revs[i] != -1 && g.snd.revs[i] != g.rev[i] && !Queued(g, i)
  }

  ghost predicate Sized(g: Global, s: Session, i: nat) {
    i < |g.rev| == |g.snd.revs| == |g.snd.seqs| == |s.recv.seqs| == |s.recv.vals|
  }

  /** What would arrive by multicast, what is held and what is in flight under the sequence the
      record was last staged under is the current value, unless a newer one is queued. */
  ghost predicate Current(g: Global, s: Session, i: nat)
    requires Sized(g, s, i)
  {
    var seqNo := g.snd.seqs[i];
    && (seqNo >= s.recv.next ==> !SkippedChange(g, i))
    && (s.recv.seqs[i] == seqNo ==> s.recv.vals[i] == g.rev[i] || Queued(g, i))
    && (s.clnt.out.Some? && Answers(s.clnt.out.value, i, seqNo) ==> s.clnt.out.value.rev == g.rev[i] || Queued(g, i))
    && (forall k :: 0 <= k < |s.resps| && Answers(s.resps[k], i, seqNo) ==> s.resps[k].rev == g.rev[i] || Queued(g, i))
  }

  ghost predicate OnItsWay(g: Global, s: Session, i: nat)
    requires Sized(g, s, i)
  {
    var seqNo := g.snd.seqs[i];
    || g.rev[i] == 0
    || (Queued(g, i) && g.snd.revs[i] != g.rev[i])
    || s.recv.seqs[i] == seqNo
    || seqNo >= s.recv.next
    || Requested(s, i, seqNo)
    || InFlight(s, i, seqNo)
  }

  ghost predicate Covered(g: Global, s: Session, i: nat) {
    Sized(g, s, i) && Current(g, s, i) && OnItsWay(g, s, i)
  }

  /** Both halves of coverage outlast the step, each on its own. */
  ghost predicate Kept(g: Global, s: Session, g': Global, s': Session, i: nat) {
    Sized(g, s, i) ==>
      && Sized(g', s', i)
      && (Current(g, s, i) ==> Current(g', s', i))
      && (OnItsWay(g, s, i) ==> OnItsWay(g', s', i))
  }

  // ---------------------------------------------------------------- steps of the shared part

  /** A value held or in flight under a record's latest sequence is no older than what was staged. */
  lemma CapturedIsRecent(g: Global, i: nat, rev: nat)
    requires GlobalInv(g) && i < |g.rev| && g.snd.seqs[i] > 0 && Captured(g, i, g.snd.seqs[i], rev)
    ensures g.snd.revs[i] <= rev <= g.rev[i]
  {
    assert Entry(g.snd.seqs[i], i, g.snd.revs[i]) in g.hist;
  }

  /** When the staged revision is the current one, an empty queue loses nothing. */
  lemma StagedIsCurrent(g: Global, s: Session, i: nat)
    requires GlobalInv(g) && SessionInv(g, s) && Sized(g, s, i) && g.snd.revs[i] == g.rev[i]
    ensures s.recv.seqs[i] == g.snd.seqs[i] ==> s.recv.vals[i] == g.rev[i]
    ensures s.clnt.out.Some? && Answers(s.clnt.out.value, i, g.snd.seqs[i]) ==> s.clnt.out.value.rev == g.rev[i]
    ensures forall k :: 0 <= k < |s.resps| && Answers(s.resps[k], i, g.snd.seqs[i]) ==> s.resps[k].rev == g.rev[i]
  {
    assert g.snd.seqs[i] > 0;
    if s.recv.seqs[i] == g.snd.seqs[i] { CapturedIsRecent(g, i, s.recv.vals[i]); }
    if s.clnt.out.Some? && Answers(s.clnt.out.value, i, g.snd.seqs[i]) { CapturedIsRecent(g, i, s.clnt.out.value.rev); }
    forall k | 0 <= k < |s.resps| && Answers(s.resps[k], i, g.snd.seqs[i]) ensures s.resps[k].rev == g.rev[i] {
      assert MsgOk(g, s.recv, s.resps[k]);
      CapturedIsRecent(g, i, s.resps[k].rev);
    }
  }

  /** Coverage of record i depends on the shared part only through what it says about record i. */
  lemma SameRecordSameCovered(g: Global, g': Global, s: Session, i: nat)
    requires Sized(g, s, i) && |g'.rev| == |g'.snd.revs| == |g'.snd.seqs| == |g.rev|
    requires g'.rev[i] == g.rev[i] && g'.snd.revs[i] == g.snd.revs[i] && g'.snd.seqs[i] == g.snd.seqs[i]
    requires Queued(g', i) <==> Queued(g, i)
    ensures Kept(g, s, g', s, i)
  {
  }

  lemma QueueEffect(g: Global, canSend: bool, i: nat)
    requires GlobalInv(g) && GlobalEnabled(g, Queue(canSend)) && i < |g.rev|
    ensures var id, g' := g.log[g.snd.lastQ].id, GlobalApply(g, Queue(canSend));
      && |g'.rev| == |g'.snd.revs| == |g'.snd.seqs| == |g.rev| && g'.rev == g.rev
      && (id != i ==>
            g'.snd.revs[i] == g.snd.revs[i] && g'.snd.seqs[i] == g.snd.seqs[i] && (Queued(g', i) <==> Queued(g, i)))
      && (id == i ==>
            || g' == g
            || (g'.snd.revs[i] == g.rev[i] && (g'.snd.seqs[i] >= g.snd.nextSeq || (g'.snd.seqs == g.snd.seqs && g'.snd.revs == g.snd.revs))))
  {
    var id, g' := g.log[g.snd.lastQ].id, GlobalApply(g, Queue(canSend));
    assert ChangeOk(g, g.log[g.snd.lastQ]);
    QueueParts(g, canSend);
    if id != i { QueuedElsewhere(g, g', i); }
  }

  lemma QueueKeepsCovered(g: Global, s: Session, canSend: bool, i: nat)
    requires GlobalInv(g) && SessionInv(g, s) && GlobalEnabled(g, Queue(canSend)) && Sized(g, s, i)
    ensures Kept(g, s, GlobalApply(g, Queue(canSend)), s, i)
  {
    var id, g' := g.log[g.snd.lastQ].id, GlobalApply(g, Queue(canSend));
    QueueEffect(g, canSend, i);
    if id != i {
      SameRecordSameCovered(g, g', s, i);
    } else if g' != g {
      QueueKeeps(g, canSend);
      SessionEvolves(g, g', s);
      StagedIsCurrent(g', s, i);
    }
  }

  /** Moving past entries of other records does not change whether record i is queued. */
  lemma QueuedElsewhere(g: Global, g': Global, i: nat)
    requires g'.log == g.log && g'.unlogged == g.unlogged && g.snd.lastQ <= g'.snd.lastQ <= |g.log|
    requires forall k :: g.snd.lastQ <= k < g'.snd.lastQ ==> g.log[k].id != i
    ensures Queued(g', i) <==> Queued(g, i)
  {
    if exists k :: g.snd.lastQ <= k < |g.log| && g.log[k].id == i {
      var k :| g.snd.lastQ <= k < |g.log| && g.log[k].id == i;
      assert k >= g'.snd.lastQ;
    }
  }

  lemma LogKeepsQueued(g: Global, i: nat)
    requires g.unlogged.Some? && g.snd.lastQ <= |g.log|
    ensures Queued(GlobalApply(g, LogChange), i) <==> Queued(g, i)
  {
    var g' := GlobalApply(g, LogChange);
    assert g'.log[|g.log|] == g.unlogged.value;
    if exists k :: g.snd.lastQ <= k < |g.log| && g.log[k].id == i {
      var k :| g.snd.lastQ <= k < |g.log| && g.log[k].id == i;
      assert g'.log[k].id == i;
    }
    if exists k :: g'.snd.lastQ <= k < |g'.log| && g'.log[k].id == i {
      var k :| g'.snd.lastQ <= k < |g'.log| && g'.log[k].id == i;
      assert k < |g.log| ==> g.log[k].id == i;
    }
  }

  /** A commit covers the record for every receiver whose requests are whole, whatever was lost before. */
  lemma CommitCovers(g: Global, s: Session, i: nat)
    requires GlobalInv(g) && SessionInv(g, s) && GlobalEnabled(g, Commit(i))
    ensures Covered(GlobalApply(g, Commit(i)), s, i)
  {
  }

  lemma GlobalStepKeepsCovered(g: Global, s: Session, step: Step, i: nat)
    requires GlobalInv(g) && SessionInv(g, s) && GlobalEnabled(g, step) && Sized(g, s, i)
    ensures Kept(g, s, GlobalApply(g, step), s, i)
  {
    match step
    case Commit(id) =>
      if id != i { QueuedElsewhere(g, g, i); }
    case LogChange => LogKeepsQueued(g, i);
    case Queue(canSend) => QueueKeepsCovered(g, s, canSend, i);
    case Flush => QueuedElsewhere(g, GlobalApply(g, step), i);
    case Beat => QueuedElsewhere(g, GlobalApply(g, step), i);
  }

  // ---------------------------------------------------------------- steps of a receiver

  /** The receiver does not replace a gap request that is still in its one-slot buffer. */
  predicate Orderly(s: Session, step: Step) {
    step.Deliver? && RequestsGap(s.recv, step.packet) ==> s.recv.out.None?
  }

  /** What an accepted data packet does to a record, by where the record's latest staging lies. */
  lemma DataPacketEffect(g: Global, s: Session, p: Packet, i: nat)
    requires GlobalInv(g) && SessionInv(g, s) && p in g.net && p.hdr >= s.recv.next && Sized(g, s, i)
    ensures var r' := ApplyRecs(s.recv, p.hdr, p.recs);
      && |r'.seqs| == |r'.vals| == |s.recv.seqs|
      && (p.hdr == g.snd.seqs[i] ==> r'.seqs[i] == g.snd.seqs[i] && r'.vals[i] == g.snd.revs[i])
      && (p.hdr > g.snd.seqs[i] ==> r'.seqs[i] == s.recv.seqs[i] && r'.vals[i] == s.recv.vals[i])
      && (p.hdr < g.snd.seqs[i] ==> r'.seqs[i] < g.snd.seqs[i])
  {
    assert WirePacketOk(g, p);
    ApplyRecsEffect(s.recv, p.hdr, p.recs, i);
    if p.hdr == g.snd.seqs[i] {
      LatestPacketEffect(g, s.recv, p, i);
    } else if p.hdr > g.snd.seqs[i] {
      assert forall j :: 0 <= j < |p.recs| && p.recs[j].id == i ==> Entry(p.hdr, p.recs[j].id, p.recs[j].rev) in g.hist;
    }
  }

  /** What any packet does to a record whose latest staging is behind the receiver: nothing. */
  lemma BehindIsLeftAlone(g: Global, s: Session, p: Packet, i: nat)
    requires GlobalInv(g) && SessionInv(g, s) && p in g.net && SlotOk(s) && Sized(g, s, i) && g.snd.seqs[i] < s.recv.next
    ensures var s' := HearPacket(s, p);
      && Sized(g, s', i) && s'.recv.seqs[i] == s.recv.seqs[i] && s'.recv.vals[i] == s.recv.vals[i]
      && s.recv.next <= s'.recv.next && s'.clnt == s.clnt && s'.reqs == s.reqs && s'.resps == s.resps
      && (if RequestsGap(s.recv, p) then s'.recv.out.Some? && s'.recv.out.value.low == s.recv.next else s'.recv.out == s.recv.out)
  {
    SentPacketOk(g, p);
    if p.hdr >= s.recv.next {
      DataPacketEffect(g, s, p, i);
      ApplyRecsEffect(s.recv, p.hdr, p.recs, i);
    }
    hide GlobalInv, SessionInv, WirePacketOk, ApplyRecs, EncodeRange;
  }

  lemma ApplyKeepsCovered(g: Global, s: Session, p: Packet, i: nat)
    requires GlobalInv(g) && SessionInv(g, s) && p in g.net && p.hdr >= s.recv.next && Sized(g, s, i)
    ensures var s' := s.(recv := ApplyRecs(s.recv, p.hdr, p.recs));
      && Kept(g, s, g, s', i) && (p.hdr == g.snd.seqs[i] ==> s'.recv.seqs[i] == g.snd.seqs[i])
      && s'.recv.next == s.recv.next && s'.recv.out == s.recv.out
  {
    assert WirePacketOk(g, p);
    ApplyRecsEffect(s.recv, p.hdr, p.recs, i);
    DataPacketEffect(g, s, p, i);
  }

  lemma AdvanceKeepsCovered(g: Global, s: Session, seqNo: int, i: nat)
    requires Sized(g, s, i) && (seqNo > s.recv.next ==> s.recv.out.None?)
    ensures Kept(g, s, g, s.(recv := AdvanceTo(s.recv, seqNo)), i)
  {
  }

  lemma ConsumeKeepsCovered(g: Global, s: Session, i: nat)
    requires Sized(g, s, i) && (g.snd.seqs[i] == s.recv.next ==> s.recv.seqs[i] == g.snd.seqs[i])
    ensures Kept(g, s, g, s.(recv := s.recv.(next := s.recv.next + 1)), i)
  {
  }

  lemma DeliverKeepsCovered(g: Global, s: Session, step: Step, i: nat)
    requires GlobalInv(g) && SessionInv(g, s) && step.Deliver? && SessionEnabled(g, s, step) && Orderly(s, step)
    requires Sized(g, s, i)
    ensures Kept(g, s, g, SessionApply(g, s, step), i)
  {
    var p := step.packet;
    if p.hdr < 0 {
      AdvanceKeepsCovered(g, s, -p.hdr, i);
    } else if p.hdr >= s.recv.next {
      ApplyKeepsCovered(g, s, p, i);
      var s1 := s.(recv := ApplyRecs(s.recv, p.hdr, p.recs));
      AdvanceKeepsCovered(g, s1, p.hdr, i);
      var s2 := s1.(recv := AdvanceTo(s1.recv, p.hdr));
      ConsumeKeepsCovered(g, s2, i);
    }
  }

  /** An orderly receiver keeps its frames. */
  lemma OrderlyKeepsFrames(g: Global, s: Session, step: Step)
    requires SessionInv(g, s) && SessionEnabled(g, s, step) && Orderly(s, step)
    ensures Framed(SessionApply(g, s, step))
  {
  }

  lemma ReadResponseKeepsCovered(g: Global, s: Session, step: Step, i: nat)
    requires GlobalInv(g) && SessionInv(g, s) && step.ReadResponse? && SessionEnabled(g, s, step)
    requires Sized(g, s, i)
    ensures Kept(g, s, g, SessionApply(g, s, step), i)
  {
    var seqNo, s' := g.snd.seqs[i], SessionApply(g, s, step);
    assert MsgOk(g, s.recv, s.resps[0]);
    assert forall k :: 0 <= k < |s'.resps| ==> s'.resps[k] == s.resps[k + 1];
    if InFlight(s, i, seqNo) && s'.recv.seqs[i] != seqNo {
      if !(s.clnt.out.Some? && Answers(s.clnt.out.value, i, seqNo)) {
        var k :| 0 <= k < |s.resps| && Answers(s.resps[k], i, seqNo);
        assert k > 0;
        assert Answers(s'.resps[k - 1], i, seqNo);
      }
      assert InFlight(s', i, seqNo);
    }
  }

  lemma ScanKeepsCovered(g: Global, s: Session, step: Step, i: nat)
    requires GlobalInv(g) && SessionInv(g, s) && SessionEnabled(g, s, step) && Sized(g, s, i)
    requires step.Scan? || step.ScanDone? || step.QueueHeartbeat?
    ensures Kept(g, s, SessionGlobal(g, s, step), SessionApply(g, s, step), i)
  {
    var g' := SessionGlobal(g, s, step);
    QueuedElsewhere(g, g', i);
  }

  lemma WriteOutKeepsCovered(g: Global, s: Session, step: Step, i: nat)
    requires GlobalInv(g) && SessionInv(g, s) && step.WriteOut? && SessionEnabled(g, s, step) && Sized(g, s, i)
    ensures Kept(g, s, g, SessionApply(g, s, step), i)
  {
    var seqNo, s' := g.snd.seqs[i], SessionApply(g, s, step);
    assert s'.resps[|s.resps|] == s.clnt.out.value;
    if InFlight(s, i, seqNo) && !Answers(s.clnt.out.value, i, seqNo) {
      var k :| 0 <= k < |s.resps| && Answers(s.resps[k], i, seqNo);
      assert Answers(s'.resps[k], i, seqNo);
    }
  }

  /** Coverage depends on the requests only through whether record i is requested. */
  lemma StillRequested(g: Global, s: Session, s': Session, i: nat)
    requires Sized(g, s, i) && s'.recv.seqs == s.recv.seqs && s'.recv.vals == s.recv.vals && s'.recv.next == s.recv.next
    requires s'.clnt.out == s.clnt.out && s'.resps == s.resps
    requires Requested(s, i, g.snd.seqs[i]) ==> Requested(s', i, g.snd.seqs[i])
    ensures Kept(g, s, g, s', i)
  {
    assert InFlight(s', i, g.snd.seqs[i]) <==> InFlight(s, i, g.snd.seqs[i]);
  }

  lemma ReadRequestKeepsCovered(g: Global, s: Session, step: Step, i: nat)
    requires SessionInv(g, s) && step.ReadRequest? && SessionEnabled(g, s, step) && Sized(g, s, i)
    ensures Kept(g, s, g, SessionApply(g, s, step), i)
  {
    var seqNo, s' := g.snd.seqs[i], SessionApply(g, s, step);
    if exists k :: 0 <= k < |s.reqs| && s.reqs[k].Contains(seqNo) {
      var k :| 0 <= k < |s.reqs| && s.reqs[k].Contains(seqNo);
      if k > 0 { assert s'.reqs[k - 1] == s.reqs[k]; }
    }
    StillRequested(g, s, s', i);
  }

  /** Here min_seq matters: what is dropped lies below every record's sequence. */
  lemma ReadBlockedKeepsCovered(g: Global, s: Session, step: Step, i: nat)
    requires GlobalInv(g) && SessionInv(g, s) && step.ReadBlocked? && Sized(g, s, i)
    ensures Kept(g, s, g, SessionApply(g, s, step), i)
  {
    hide HistInv, NetInv, LogInv, Current, OnItsWay;
    var seqNo, s' := g.snd.seqs[i], SessionApply(g, s, step);
    assert g.snd.minSeq <= seqNo;
    StillRequested(g, s, s', i);
  }

  lemma SendRequestKeepsCovered(g: Global, s: Session, step: Step, i: nat)
    requires SessionInv(g, s) && step.SendRequest? && SessionEnabled(g, s, step) && Sized(g, s, i)
    ensures Kept(g, s, g, SessionApply(g, s, step), i)
  {
    hide Current, OnItsWay;
    var seqNo, s' := g.snd.seqs[i], SessionApply(g, s, step);
    if s'.recv.out.None? { assert s'.reqs[|s.reqs|] == s.recv.out.value; }
    if exists k :: 0 <= k < |s.reqs| && s.reqs[k].Contains(seqNo) {
      var k :| 0 <= k < |s.reqs| && s.reqs[k].Contains(seqNo);
      assert s'.reqs[k] == s.reqs[k];
    }
    StillRequested(g, s, s', i);
  }

  lemma RequestKeepsCovered(g: Global, s: Session, step: Step, i: nat)
    requires GlobalInv(g) && SessionInv(g, s) && SessionEnabled(g, s, step) && Sized(g, s, i)
    requires step.ReadRequest? || step.ReadBlocked? || step.SendRequest?
    ensures Kept(g, s, g, SessionApply(g, s, step), i)
  {
    hide GlobalInv, SessionInv, Kept;
    match step
    case ReadRequest(_) => ReadRequestKeepsCovered(g, s, step, i);
    case ReadBlocked(_) => ReadBlockedKeepsCovered(g, s, step, i);
    case SendRequest(_, _) => SendRequestKeepsCovered(g, s, step, i);
  }

  lemma SessionStepKeepsCovered(g: Global, s: Session, step: Step, i: nat)
    requires GlobalInv(g) && SessionInv(g, s) && SessionEnabled(g, s, step) && Orderly(s, step) && Sized(g, s, i)
    ensures Kept(g, s, SessionGlobal(g, s, step), SessionApply(g, s, step), i)
  {
    hide GlobalInv, SessionInv, Kept, Orderly;
    match step
    case Deliver(_, _) => DeliverKeepsCovered(g, s, step, i);
    case ReadResponse(_) => ReadResponseKeepsCovered(g, s, step, i);
    case WriteOut(_) => WriteOutKeepsCovered(g, s, step, i);
    case ReadRequest(_) => RequestKeepsCovered(g, s, step, i);
    case ReadBlocked(_) => RequestKeepsCovered(g, s, step, i);
    case SendRequest(_, _) => RequestKeepsCovered(g, s, step, i);
    case _ => ScanKeepsCovered(g, s, step, i);
  }

  /** Another receiver's step changes at most min_seq. */
  lemma MinSeqKeepsCovered(g: Global, minSeq: int, s: Session, i: nat)
    requires Sized(g, s, i) && g.snd.lastQ <= |g.log|
    ensures Kept(g, s, g.(snd := g.snd.(minSeq := minSeq)), s, i)
  {
    QueuedElsewhere(g, g.(snd := g.snd.(minSeq := minSeq)), i);
  }
}
