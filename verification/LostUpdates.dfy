/** Where the protocol does lose an update, and exactly when: accepting a client when there is none
    resumes at the head of the change queue although the packet buffer and the network may still hold
    older values (src/sender.c:455-460, with src/sender.c:502-503 leaving the buffer as it is). */
module LostUpdates {
  import opened Sequences
  import opened SenderModel
  import opened ReceiverModel
  import opened Protocol
  import opened ProtocolInvariants
  import opened Coverage
  import opened RequestFraming
  import opened Replication
  import opened CatchUp

  /** The record's latest sequence is behind the receiver and lies below everything still asked for. */
  ghost predicate NeverAsked(g: Global, s: Session, i: nat)
    requires Sized(g, s, i)
  {
    var seqNo := g.snd.seqs[i];
    && seqNo < s.recv.next
    && (s.recv.out.Some? ==> s.recv.out.value.low > seqNo)
    && (forall k :: 0 <= k < |s.reqs| ==> s.reqs[k].low > seqNo)
    && s.clnt.union.low > seqNo
    && !(s.clnt.reply.Contains(seqNo) && s.clnt.replyId <= i)
    && (s.clnt.out.Some? && s.clnt.out.value.Response? && s.clnt.out.value.id == i ==> s.clnt.out.value.rev != g.rev[i])
    && (forall k :: 0 <= k < |s.resps| && s.resps[k].Response? && s.resps[k].id == i ==> s.resps[k].rev != g.rev[i])
  }

  /** The replica differs from the storage in record i and nothing is on its way that would mend it. */
  ghost predicate Doomed(g: Global, s: Session, i: nat) {
    && Sized(g, s, i) && Framed(s)
    && !Queued(g, i)
    && s.recv.vals[i] != g.rev[i]
    && (s.recv.seqs[i] == g.snd.seqs[i] || NeverAsked(g, s, i))
  }

  /** A covered record is not lost, and a lost one is not covered. */
  lemma CoveredIsNotDoomed(g: Global, s: Session, i: nat)
    requires Covered(g, s, i) && g.rev[i] > 0
    ensures !Doomed(g, s, i)
  {
  }

  lemma GlobalStepKeepsDoomed(g: Global, s: Session, step: Step, i: nat)
    requires GlobalInv(g) && GlobalEnabled(g, step) && Doomed(g, s, i) && step != Commit(i)
    ensures Doomed(GlobalApply(g, step), s, i)
  {
    match step
    case Commit(id) => QueuedElsewhere(g, g, i);
    case LogChange => LogKeepsQueued(g, i);
    case Queue(canSend) => QueueEffect(g, canSend, i);
    case Flush => QueuedElsewhere(g, GlobalApply(g, step), i);
    case Beat => QueuedElsewhere(g, GlobalApply(g, step), i);
  }

  lemma DeliverKeepsDoomed(g: Global, s: Session, step: Step, i: nat)
    requires GlobalInv(g) && SessionInv(g, s) && step.Deliver? && SessionEnabled(g, s, step) && Doomed(g, s, i)
    ensures Framed(SessionApply(g, s, step)) ==> Doomed(g, SessionApply(g, s, step), i)
  {
    assert g.snd.seqs[i] < s.recv.next;
    BehindIsLeftAlone(g, s, step.packet, i);
    hide GlobalInv, SessionInv, Queued, HearPacket, RequestsGap;
  }

  lemma ReadResponseKeepsDoomed(g: Global, s: Session, step: Step, i: nat)
    requires SessionInv(g, s) && step.ReadResponse? && SessionEnabled(g, s, step) && Doomed(g, s, i)
    ensures Doomed(g, SessionApply(g, s, step), i)
  {
    assert MsgOk(g, s.recv, s.resps[0]);
    hide ReceiverInv, RequestsInv, UnansweredInv, ScanInv, Queued;
  }

  lemma SenderStepKeepsDoomed(g: Global, s: Session, step: Step, i: nat)
    requires GlobalInv(g) && SessionInv(g, s) && SessionEnabled(g, s, step) && Doomed(g, s, i)
    requires step.ReadRequest? || step.ReadBlocked? || step.Scan? || step.WriteOut? || step.SendRequest?
    ensures Doomed(g, SessionApply(g, s, step), i)
  {
    hide HistInv, NetInv, LogInv, ReceiverInv, UnansweredInv, MsgsInv, EncodeRange, FrameOf, Queued;
  }

  lemma SessionStepKeepsDoomed(g: Global, s: Session, step: Step, i: nat)
    requires GlobalInv(g) && SessionInv(g, s) && SessionEnabled(g, s, step) && Doomed(g, s, i)
    ensures Framed(SessionApply(g, s, step)) ==> Doomed(SessionGlobal(g, s, step), SessionApply(g, s, step), i)
  {
    QueuedElsewhere(g, SessionGlobal(g, s, step), i);
    match step
    case Deliver(_, _) => DeliverKeepsDoomed(g, s, step, i);
    case ReadResponse(_) => ReadResponseKeepsDoomed(g, s, step, i);
    case ScanDone(_) => hide GlobalInv, SessionInv, Queued;
    case QueueHeartbeat(_) => hide GlobalInv, SessionInv, Queued;
    case _ => SenderStepKeepsDoomed(g, s, step, i);
  }

  lemma StepKeepsDoomed(sys: System, step: Step, c: nat, i: nat)
    requires SystemInv(sys) && Enabled(sys, step) && step != Commit(i)
    requires c in sys.sessions && c in Apply(sys, step).sessions && Doomed(sys.g, sys.sessions[c], i)
    requires Framed(Apply(sys, step).sessions[c])
    ensures Doomed(Apply(sys, step).g, Apply(sys, step).sessions[c], i)
  {
    if IsGlobal(step) {
      GlobalStepKeepsDoomed(sys.g, sys.sessions[c], step, i);
    } else if !step.Accept? && !step.Hup? {
      if step.c == c {
        SessionStepKeepsDoomed(sys.g, sys.sessions[c], step, i);
      } else {
        QueuedElsewhere(sys.g, Apply(sys, step).g, i);
      }
    }
  }

  /** A lost update stays lost: whatever happens, short of the writer committing the record again or
      the request stream losing its frames, the replica never catches up. */
  lemma {:induction false} LostUntilNextCommit(states: seq<System>, steps: seq<Step>, a: nat, b: nat, c: nat, i: nat)
    requires Path(states, steps) && SystemInv(states[0]) && a <= b < |states|
    requires c in states[a].sessions && c in states[b].sessions && Doomed(states[a].g, states[a].sessions[c], i)
    requires Framed(states[b].sessions[c])
    requires forall k :: a <= k < b ==> steps[k] != Commit(i)
    ensures Doomed(states[b].g, states[b].sessions[c], i)
    ensures states[b].sessions[c].recv.vals[i] != states[b].g.rev[i]
    decreases b - a
  {
    if a < b {
      PathKeeps(states, steps, a);
      StaysConnected(states, steps, c, a + 1, b);
      FramedAllAlong(states, steps, c, a + 1, b);
      StepKeepsDoomed(states[a], steps[a], c, i);
      LostUntilNextCommit(states, steps, a + 1, b, c, i);
    }
  }

  // ---------------------------------------------------------------- accepting a client

  /** Delivering the packet that holds the stale staging of record i dooms it. */
  lemma StalePacketDooms(g: Global, s: Session, p: Packet, i: nat)
    requires GlobalInv(g) && SessionInv(g, s) && s == FreshSession(|g.rev|) && SkippedChange(g, i)
    requires p in g.net && p.hdr == g.snd.seqs[i]
    ensures SlotOk(s) && Doomed(g, HearPacket(s, p), i)
  {
    assert WirePacketOk(g, p);
    DataPacketEffect(g, s, p, i);
    ApplyRecsEffect(s.recv, p.hdr, p.recs, i);
  }

  lemma DeliveryDooms(sys: System, c: nat, i: nat) returns (p: Packet)
    requires SystemInv(sys) && c in sys.sessions && sys.sessions[c] == FreshSession(|sys.g.rev|)
    requires SkippedChange(sys.g, i) && sys.g.snd.seqs[i] < sys.g.snd.nextSeq
    ensures Enabled(sys, Deliver(c, p)) && Orderly(sys.sessions[c], Deliver(c, p))
    ensures var sys' := Apply(sys, Deliver(c, p)); c in sys'.sessions && Doomed(sys'.g, sys'.sessions[c], i)
  {
    p := PacketOf(sys.g, sys.g.snd.seqs[i]);
    assert SessionInv(sys.g, sys.sessions[c]);
    StalePacketDooms(sys.g, sys.sessions[c], p, i);
  }

  lemma FlushKeepsSkipped(sys: System, i: nat)
    requires SystemInv(sys) && sys.sessions != map[] && SkippedChange(sys.g, i)
    requires sys.g.snd.seqs[i] == sys.g.snd.nextSeq < SEQUENCE_MAX - 1
    ensures Enabled(sys, Flush) && SystemInv(Apply(sys, Flush)) && SkippedChange(Apply(sys, Flush).g, i)
    ensures Room(sys.g) ==> Room(Apply(sys, Flush).g)
    ensures Apply(sys, Flush).g.snd.seqs[i] < Apply(sys, Flush).g.snd.nextSeq
  {
    assert sys.g.snd.pkt != [];
    StepKeeps(sys, Flush);
    QueuedElsewhere(sys.g, Apply(sys, Flush).g, i);
  }

  /** If the stale staging is still in the buffer, it is sent first. */
  lemma StaleIsSent(sys: System, c: nat, i: nat) returns (states: seq<System>, steps: seq<Step>)
    requires SystemInv(sys) && c in sys.sessions && SkippedChange(sys.g, i) && sys.g.snd.nextSeq + 1 < SEQUENCE_MAX
    ensures Path(states, steps) && states[0] == sys && forall k :: 0 <= k < |steps| ==> steps[k].Flush?
    ensures var last := states[|steps|];
      && SystemInv(last) && last.sessions == sys.sessions && |last.g.rev| == |sys.g.rev| && (Room(sys.g) ==> Room(last.g))
      && SkippedChange(last.g, i) && |last.g.snd.seqs| == |last.g.rev| && last.g.snd.seqs[i] < last.g.snd.nextSeq
  {
    states, steps := [sys], [];
    if sys.g.snd.seqs[i] >= sys.g.snd.nextSeq {
      FlushKeepsSkipped(sys, i);
      states, steps := Extend(states, steps, Flush);
    }
  }

  /** A receiver that connects when a change of some record has been skipped can be driven into a
      state where that update is lost for good. */
  lemma SkippedChangeCanBeLost(sys: System, c: nat, i: nat) returns (states: seq<System>, steps: seq<Step>)
    requires SystemInv(sys) && c in sys.sessions && sys.sessions[c] == FreshSession(|sys.g.rev|)
    requires SkippedChange(sys.g, i) && sys.g.snd.nextSeq + 1 < SEQUENCE_MAX
    ensures Path(states, steps) && states[0] == sys && forall k :: 0 <= k < |steps| ==> !steps[k].Commit?
    ensures OrderlySince(states, steps, 0, c) && (Room(sys.g) ==> Room(states[|steps|].g))
    ensures var last := states[|steps|]; c in last.sessions && Doomed(last.g, last.sessions[c], i)
  {
    var states1, steps1 := StaleIsSent(sys, c, i);
    var sys1 := states1[|steps1|];
    var p := DeliveryDooms(sys1, c, i);
    assert Apply(sys1, Deliver(c, p)).g == sys1.g;
    hide SystemInv, SkippedChange, Doomed, Apply, Enabled, Room, Orderly;
    states, steps := Extend(states1, steps1, Deliver(c, p));
    OrderlyExtends(states1, steps1, states, Deliver(c, p), 0, c);
  }

  /** Whatever happens from here on, record i of receiver c equals the storage's whenever nothing is in
      motion. */
  ghost predicate AlwaysConverges(sys: System, c: nat, i: nat) {
    forall states: seq<System>, steps: seq<Step> :: Path(states, steps) && states[0] == sys && ConvergencePoint(states, steps, c) ==>
      EqualIn(states[|steps|], c, i)
  }

  predicate EqualIn(sys: System, c: nat, i: nat) {
    c in sys.sessions && i < |sys.sessions[c].recv.vals| == |sys.g.rev| && sys.sessions[c].recv.vals[i] == sys.g.rev[i]
  }

  /** The path is orderly and ends with nothing in motion. */
  predicate ConvergencePoint(states: seq<System>, steps: seq<Step>, c: nat)
    requires |states| == |steps| + 1
  {
    && OrderlySince(states, steps, 0, c)
    && c in states[|steps|].sessions && Quiescent(states[|steps|].g, states[|steps|].sessions[c])
  }

  /** After a loss, working off everything in motion leads to a quiet state with a wrong record. */
  lemma SkippedChangeDiverges(sys: System, c: nat, i: nat) returns (states: seq<System>, steps: seq<Step>)
    requires SystemInv(sys) && Connected(sys, c) && SkippedChange(sys.g, i)
    requires Room(sys.g) && sys.g.snd.nextSeq + 1 < SEQUENCE_MAX
    ensures Path(states, steps) && states[0] == sys && ConvergencePoint(states, steps, c)
    ensures !EqualIn(states[|steps|], c, i)
  {
    var states1, steps1 := SkippedChangeCanBeLost(sys, c, i);
    var n := |steps1|;
    PathKeeps(states1, steps1, n);
    ReadyFits(states1[n], c);
    hide SystemInv, Ready, Doomed, Room, Fit, RankIn, Settled;
    var tail;
    states, tail := Settle(states1, steps1, 0, c, true, RankIn(states1[n], c));
    steps := steps1 + tail;
    SettledQuietly(states1, steps1, states, tail, 0, c);
    assert states[n] == states1[n] && states[0] == states1[0];
    LostUntilNextCommit(states, steps, n, |steps|, c, i);
  }

  /** The condition on the start in RecordConverges is exact: a record of a receiver that has just connected
      is bound to converge if and only if no change of it was skipped. */
  lemma ConvergesExactly(sys: System, c: nat, i: nat)
    requires SystemInv(sys) && Connected(sys, c) && i < |sys.g.rev|
    requires Room(sys.g) && sys.g.snd.nextSeq + 1 < SEQUENCE_MAX
    ensures AlwaysConverges(sys, c, i) <==> !SkippedChange(sys.g, i)
  {
    if SkippedChange(sys.g, i) {
      var states, steps := SkippedChangeDiverges(sys, c, i);
      hide Path, ConvergencePoint, EqualIn;
      assert Path(states, steps);
    } else {
      forall states: seq<System>, steps: seq<Step> | Path(states, steps) && states[0] == sys && ConvergencePoint(states, steps, c)
        ensures EqualIn(states[|steps|], c, i)
      {
        RecordConverges(states, steps, 0, |steps|, c, i);
      }
    }
  }

  /** One client connects, a record is staged in the packet buffer, the client goes away. */
  lemma BufferedAndDeserted() returns (states: seq<System>, steps: seq<Step>)
    ensures Run(states, steps)
    ensures var last := states[|steps|];
      && last.sessions == map[] && last.nextClient == 1 && last.g.rev == [1] && last.g.unlogged.None?
      && last.g.snd.revs == [1] && last.g.log == [Change(0, 1)]
  {
    var s0 := System(Global([0], [], None, InitSender(1, 1), {}, {}, 0), map[], 0);
    states, steps := [s0], [];
    states, steps := Extend(states, steps, Accept);
    states, steps := Extend(states, steps, Commit(0));
    states, steps := Extend(states, steps, LogChange);
    assert 0 in states[|steps|].sessions;
    states, steps := Extend(states, steps, Queue(true));
    states, steps := Extend(states, steps, Hup(0));
  }

  /** A skipped change is reached: after that, the record changes and another client connects. */
  lemma SkippedChangeIsReachable() returns (states: seq<System>, steps: seq<Step>)
    ensures Run(states, steps)
    ensures var last := states[|steps|];
      1 in last.sessions && last.sessions[1] == FreshSession(|last.g.rev|) && SkippedChange(last.g, 0)
  {
    states, steps := BufferedAndDeserted();
    states, steps := Extend(states, steps, Commit(0));
    states, steps := Extend(states, steps, LogChange);
    states, steps := Extend(states, steps, Accept);
  }
}
