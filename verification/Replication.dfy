/** Whole-run theorems about replication. */
module Replication {
  import opened Sequences
  import opened SenderModel
  import opened ReceiverModel
  import opened Protocol
  import opened ProtocolInvariants
  import opened Coverage

  // ---------------------------------------------------------------- from steps to runs

  lemma InitInv(sys: System)
    requires Init(sys)
    ensures SystemInv(sys)
  {
  }

  lemma ResumeKeeps(g: Global)
    requires GlobalInv(g)
    ensures var g' := g.(snd := g.snd.(lastQ := |g.log|), startQ := |g.log|); GlobalInv(g') && Evolves(g, g')
  {
    var g' := g.(snd := g.snd.(lastQ := |g.log|), startQ := |g.log|);
    NetUnchanged(g, g');
    hide NetInv;
  }

  lemma FreshKeeps(g: Global)
    requires GlobalInv(g)
    ensures SessionInv(g, FreshSession(|g.rev|)) && ConnectionInv(g, FreshSession(|g.rev|))
  {
  }

  lemma OthersKeep(sys: System, g': Global, c: nat)
    requires SystemInv(sys) && Evolves(sys.g, g') && c in sys.sessions
    ensures c < sys.nextClient && ConnectionInv(g', sys.sessions[c])
  {
    ConnectionEvolves(sys.g, g', sys.sessions[c]);
  }

  lemma StepKeepsGlobal(sys: System, step: Step)
    requires SystemInv(sys) && Enabled(sys, step)
    ensures GlobalInv(Apply(sys, step).g) && Evolves(sys.g, Apply(sys, step).g)
  {
    if IsGlobal(step) {
      GlobalStepKeeps(sys.g, step);
    } else if step.Accept? {
      ResumeKeeps(sys.g);
    } else if !step.Hup? {
      SessionStepKeeps(sys.g, sys.sessions[step.c], step);
    }
  }

  lemma StepKeeps(sys: System, step: Step)
    requires SystemInv(sys) && Enabled(sys, step)
    ensures SystemInv(Apply(sys, step))
  {
    var sys' := Apply(sys, step);
    StepKeepsGlobal(sys, step);
    hide GlobalInv, ConnectionInv, Evolves;
    forall c | c in sys'.sessions ensures c < sys'.nextClient && ConnectionInv(sys'.g, sys'.sessions[c]) {
      if step.Accept? && c == sys.nextClient {
        FreshKeeps(sys'.g);
      } else if !IsGlobal(step) && !step.Accept? && !step.Hup? && c == step.c {
        assert ConnectionInv(sys.g, sys.sessions[c]);
        SessionStepKeeps(sys.g, sys.sessions[c], step);
      } else {
        OthersKeep(sys, sys'.g, c);
      }
    }
  }

  lemma Extend(states: seq<System>, steps: seq<Step>, step: Step) returns (states': seq<System>, steps': seq<Step>)
    requires Path(states, steps) && Enabled(states[|steps|], step)
    ensures Path(states', steps') && states'[0] == states[0] && steps' == steps + [step]
    ensures states <= states' && states'[|steps'|] == Apply(states[|steps|], step)
  {
    states', steps' := states + [Apply(states[|steps|], step)], steps + [step];
  }

  lemma {:induction false} PathKeeps(states: seq<System>, steps: seq<Step>, k: nat)
    requires Path(states, steps) && SystemInv(states[0]) && k < |states|
    ensures SystemInv(states[k])
  {
    if k > 0 {
      PathKeeps(states, steps, k - 1);
      StepKeeps(states[k - 1], steps[k - 1]);
    }
  }

  /** Every reachable state satisfies the invariants. */
  lemma ReachableInv(states: seq<System>, steps: seq<Step>, k: nat)
    requires Run(states, steps) && k < |states|
    ensures SystemInv(states[k])
  {
    InitInv(states[0]);
    PathKeeps(states, steps, k);
  }

  /** Connections are not numbered twice: a receiver present at both ends was present all along. */
  lemma {:induction false} StaysConnected(states: seq<System>, steps: seq<Step>, c: nat, a: nat, b: nat)
    requires Path(states, steps) && SystemInv(states[0]) && a <= b < |states|
    requires c < states[a].nextClient && c in states[b].sessions
    ensures c in states[a].sessions && states[a].nextClient <= states[b].nextClient
    decreases b - a
  {
    if a < b {
      StaysConnected(states, steps, c, a + 1, b);
    }
  }

  /** That a request was once replaced after its first byte stays a fact, whatever follows. */
  lemma StepKeepsUnframed(sys: System, step: Step, c: nat)
    requires SystemInv(sys) && Enabled(sys, step) && c in sys.sessions && c in Apply(sys, step).sessions
    ensures !Framed(sys.sessions[c]) ==> !Framed(Apply(sys, step).sessions[c])
  {
    if !IsGlobal(step) && !step.Accept? && !step.Hup? && step.c == c {
      assert ConnectionInv(sys.g, sys.sessions[c]);
      SessionStepKeeps(sys.g, sys.sessions[c], step);
    }
  }

  lemma {:induction false} FramedAllAlong(states: seq<System>, steps: seq<Step>, c: nat, a: nat, b: nat)
    requires Path(states, steps) && SystemInv(states[0]) && a <= b < |states|
    requires c < states[a].nextClient && c in states[b].sessions && Framed(states[b].sessions[c])
    ensures c in states[a].sessions && Framed(states[a].sessions[c])
    decreases b - a
  {
    if a < b {
      StaysConnected(states, steps, c, a, b);
      StaysConnected(states, steps, c, a + 1, b);
      PathKeeps(states, steps, a);
      FramedAllAlong(states, steps, c, a + 1, b);
      StepKeepsUnframed(states[a], steps[a], c);
    }
  }

  // ---------------------------------------------------------------- single updates

  /** No update of the loop goes beyond a bound on what was held and what is applied. */
  lemma ApplyBounded(r: Receiver, seqNo: int, recs: seq<Staged>, i: nat, bound: nat)
    requires i < |r.seqs| == |r.vals| && OlderFirst(recs) && r.vals[i] <= bound
    requires forall a :: 0 <= a < |recs| && recs[a].id == i ==> recs[a].rev <= bound
    ensures var r' := ApplyRecs(r, seqNo, recs); |r'.seqs| == |r'.vals| == |r.vals| && r'.vals[i] <= bound
  {
    ApplyRecsEffect(r, seqNo, recs, i);
    hide ApplyRecs, OlderFirst;
  }

  lemma FirstInPacket(g: Global, r: Receiver, p: Packet, j: nat)
    requires GlobalInv(g) && ReceiverInv(g, r) && p in g.net && p.hdr >= r.next && j < |p.recs| && p.recs[j].id < |r.vals|
    ensures r.vals[p.recs[j].id] <= p.recs[j].rev
  {
    SentPacketOk(g, p);
    var st := p.recs[j];
    assert Entry(p.hdr, st.id, st.rev) in g.hist;
    assert r.seqs[st.id] == -1 || Captured(g, st.id, r.seqs[st.id], r.vals[st.id]);
  }

  lemma ApplyOneMore(r: Receiver, seqNo: int, recs: seq<Staged>, j: nat)
    requires j < |recs|
    ensures ApplyRecs(r, seqNo, recs[..j + 1]) == UpdateRecord(ApplyRecs(r, seqNo, recs[..j]), seqNo, recs[j].id, recs[j].rev)
  {
    assert recs[..j + 1][..j] == recs[..j];
  }

  /** The same at the granularity of single updates while one packet is being applied. */
  lemma UpdatesWithinPacketMonotone(g: Global, r: Receiver, p: Packet, j: nat, i: nat)
    requires GlobalInv(g) && ReceiverInv(g, r) && p in g.net && p.hdr >= r.next && j < |p.recs| && i < |r.vals|
    ensures var before, after := ApplyRecs(r, p.hdr, p.recs[..j]), ApplyRecs(r, p.hdr, p.recs[..j + 1]);
      |before.vals| == |after.vals| == |r.vals| && before.vals[i] <= after.vals[i]
  {
    SentPacketOk(g, p);
    var st, earlier := p.recs[j], p.recs[..j];
    assert OlderFirst(earlier) && |r.seqs| == |r.vals|;
    assert forall a :: 0 <= a < j && earlier[a].id == st.id ==> earlier[a].rev <= st.rev;
    hide GlobalInv, ReceiverInv, WirePacketOk, OlderFirst;
    ApplyOneMore(r, p.hdr, p.recs, j);
    hide ApplyRecs;
    if st.id == i {
      FirstInPacket(g, r, p, j);
      ApplyBounded(r, p.hdr, earlier, i, st.rev);
    } else {
      ApplyRecsFrame(r, p.hdr, earlier, i);
    }
  }

  // ---------------------------------------------------------------- dropped and rejected requests

  /** A request dropped because it lies below min_seq covers no record any more, however many scans
      of other clients overwrote min_seq meanwhile. */
  lemma DroppedRequestIsEmpty(states: seq<System>, steps: seq<Step>, k: nat, r: Range, i: nat)
    requires Run(states, steps) && k < |states| && i < |states[k].g.snd.seqs|
    requires r.high <= states[k].g.snd.minSeq
    ensures !r.Contains(states[k].g.snd.seqs[i])
  {
    ReachableInv(states, steps, k);
  }

  /** The sender never reads a request it would refuse as an invalid range, as long as none of that
      receiver's was replaced after its first byte. */
  lemma NoInvalidRequest(states: seq<System>, steps: seq<Step>, k: nat, c: nat)
    requires Run(states, steps) && k < |states| && c in states[k].sessions && Framed(states[k].sessions[c])
    requires NextRequest(states[k].sessions[c]).Some?
    ensures NextRequest(states[k].sessions[c]).value.Valid() && Enabled(states[k], ReadRequest(c))
  {
    ReachableInv(states, steps, k);
    assert RequestsInv(states[k].sessions[c]);
  }

  /** No change-queue entry read since the sender last resumed is passed before a revision at least
      as new as that change is staged, in spite of the early exits of the queue loop. */
  lemma PassedChangesAreStaged(states: seq<System>, steps: seq<Step>, k: nat, q: nat)
    requires Run(states, steps) && k < |states|
    requires states[k].g.startQ <= q < states[k].g.snd.lastQ
    ensures var g := states[k].g;
      q < |g.log| && g.log[q].id < |g.snd.revs| && g.log[q].rev <= g.snd.revs[g.log[q].id]
  {
    ReachableInv(states, steps, k);
    assert ChangeOk(states[k].g, states[k].g.log[q]);
  }

  // ---------------------------------------------------------------- convergence

  /** Nothing is in motion between the writer, the sender and this receiver. */
  predicate Quiescent(g: Global, s: Session) {
    && g.unlogged.None? && g.snd.lastQ == |g.log| && g.snd.pkt == []
    && s.recv.next == g.snd.nextSeq && s.recv.out.None? && s.reqs == []
    && !s.clnt.union.Valid() && !s.clnt.reply.Valid() && s.clnt.out.None? && s.resps == []
  }

  lemma QuiescentCovered(g: Global, s: Session, i: nat)
    requires GlobalInv(g) && SessionInv(g, s) && Quiescent(g, s) && Covered(g, s, i)
    ensures s.recv.vals[i] == g.rev[i]
  {
    if g.rev[i] == 0 {
      assert s.recv.seqs[i] == -1 || Captured(g, i, s.recv.seqs[i], s.recv.vals[i]);
    }
  }

  /** The record's staged revision being the current one, whatever way it is on leads to it. */
  lemma QuiescentStaged(g: Global, s: Session, i: nat)
    requires GlobalInv(g) && SessionInv(g, s) && Quiescent(g, s) && Sized(g, s, i) && OnItsWay(g, s, i)
    requires g.snd.revs[i] == g.rev[i]
    ensures s.recv.vals[i] == g.rev[i]
  {
    StagedIsCurrent(g, s, i);
    assert s.recv.seqs[i] == g.snd.seqs[i];
  }

  /** A receiver that has just connected is covered for exactly the records with no skipped change, and
      every record is on its way to it. */
  lemma FreshCovered(g: Global, i: nat)
    requires GlobalInv(g) && i < |g.rev|
    ensures var s := FreshSession(|g.rev|);
      Sized(g, s, i) && OnItsWay(g, s, i) && (Covered(g, s, i) <==> !SkippedChange(g, i))
  {
  }

  lemma StepKeepsCovered(sys: System, step: Step, c: nat, i: nat)
    requires SystemInv(sys) && Enabled(sys, step)
    requires c in sys.sessions && c in Apply(sys, step).sessions && Framed(sys.sessions[c])
    requires !IsGlobal(step) && !step.Accept? && step.c == c ==> Orderly(sys.sessions[c], step)
    ensures Kept(sys.g, sys.sessions[c], Apply(sys, step).g, Apply(sys, step).sessions[c], i)
  {
    var s := sys.sessions[c];
    if Sized(sys.g, s, i) {
      assert SessionInv(sys.g, s) && sys.g.snd.lastQ <= |sys.g.log|;
      hide GlobalInv, SessionInv, SessionApply, SessionEnabled, GlobalApply, GlobalEnabled;
      if IsGlobal(step) {
        GlobalStepKeepsCovered(sys.g, s, step, i);
      } else if step.Accept? || step.Hup? {
        assert Apply(sys, step).g == sys.g;
      } else if step.c == c {
        SessionStepKeepsCovered(sys.g, s, step, i);
      } else {
        MinSeqKeepsCovered(sys.g, Apply(sys, step).g.snd.minSeq, s, i);
      }
    }
  }

  /** From state a on, receiver c's one-slot request buffer is never overwritten. */
  predicate OrderlySince(states: seq<System>, steps: seq<Step>, a: nat, c: nat)
    requires |states| == |steps| + 1
  {
    forall k :: a <= k < |steps| && steps[k].Deliver? && steps[k].c == c && c in states[k].sessions ==>
      Orderly(states[k].sessions[c], steps[k])
  }

  lemma StepKeepsFramed(sys: System, step: Step, c: nat)
    requires SystemInv(sys) && Enabled(sys, step) && c in sys.sessions && c in Apply(sys, step).sessions
    requires Framed(sys.sessions[c])
    requires !IsGlobal(step) && !step.Accept? && step.c == c ==> Orderly(sys.sessions[c], step)
    ensures Framed(Apply(sys, step).sessions[c])
  {
    if !IsGlobal(step) && !step.Accept? && !step.Hup? && step.c == c {
      OrderlyKeepsFrames(sys.g, sys.sessions[c], step);
    }
  }

  /** An orderly receiver whose requests are whole goes on writing whole requests. */
  lemma {:induction false} OrderlyFromFramed(states: seq<System>, steps: seq<Step>, a: nat, b: nat, c: nat)
    requires Path(states, steps) && SystemInv(states[0]) && a <= b < |states| && OrderlySince(states, steps, a, c)
    requires c in states[a].sessions && c in states[b].sessions && Framed(states[a].sessions[c])
    ensures Framed(states[b].sessions[c])
    decreases b - a
  {
    if a < b {
      PathKeeps(states, steps, a);
      StaysConnected(states, steps, c, a + 1, b);
      StepKeepsFramed(states[a], steps[a], c);
      OrderlyFromFramed(states, steps, a + 1, b, c);
    }
  }

  /** Over any orderly stretch of a path, what is covered stays covered and what is on its way stays so. */
  lemma {:induction false} CoveredThroughout(states: seq<System>, steps: seq<Step>, a: nat, b: nat, c: nat, i: nat)
    requires Path(states, steps) && SystemInv(states[0]) && a <= b < |states| && OrderlySince(states, steps, a, c)
    requires c in states[a].sessions && c in states[b].sessions && Framed(states[a].sessions[c])
    ensures Kept(states[a].g, states[a].sessions[c], states[b].g, states[b].sessions[c], i)
    decreases b - a
  {
    if a < b {
      PathKeeps(states, steps, a);
      StaysConnected(states, steps, c, a + 1, b);
      StepKeepsFramed(states[a], steps[a], c);
      StepKeepsCovered(states[a], steps[a], c, i);
      hide SystemInv, Current, OnItsWay, Sized;
      CoveredThroughout(states, steps, a + 1, b, c, i);
    }
  }

  /** Receiver c has just connected. */
  predicate Connected(sys: System, c: nat) { c in sys.sessions && sys.sessions[c] == FreshSession(|sys.g.rev|) }

  /** Coverage: for every record, whatever was skipped before an orderly receiver connected, at any later
      time its latest staging is held by the replica, or still ahead of it, or requested, or in flight. */
  lemma NothingIsForgotten(states: seq<System>, steps: seq<Step>, a: nat, b: nat, c: nat, i: nat)
    requires Path(states, steps) && SystemInv(states[0]) && a <= b < |states|
    requires Connected(states[a], c) && OrderlySince(states, steps, a, c) && c in states[b].sessions
    requires i < |states[a].g.rev|
    ensures Sized(states[b].g, states[b].sessions[c], i) && OnItsWay(states[b].g, states[b].sessions[c], i)
  {
    PathKeeps(states, steps, a);
    FreshCovered(states[a].g, i);
    CoveredThroughout(states, steps, a, b, c, i);
  }

  /** What is known of record i of a receiver that connected at a, in state b: no change of it had been
      skipped then, or it was committed since, or it is staged at its current revision. */
  ghost predicate Accounted(states: seq<System>, steps: seq<Step>, a: nat, b: nat, i: nat)
    requires |states| == |steps| + 1 && a <= b < |states|
  {
    || !SkippedChange(states[a].g, i)
    || (exists k :: a <= k < b && steps[k] == Commit(i))
    || (i < |states[b].g.snd.revs| == |states[b].g.rev| && states[b].g.snd.revs[i] == states[b].g.rev[i])
  }

  lemma EndsCovered(sys: System, c: nat, i: nat)
    requires SystemInv(sys) && c in sys.sessions && Framed(sys.sessions[c])
    requires Quiescent(sys.g, sys.sessions[c]) && Covered(sys.g, sys.sessions[c], i)
    ensures sys.sessions[c].recv.vals[i] == sys.g.rev[i]
  {
    QuiescentCovered(sys.g, sys.sessions[c], i);
  }

  /** Recovery: whatever had been lost, a record that is committed while the receiver's requests are whole,
      and orderly from then on, is equal in every later state in which nothing is in motion. */
  lemma CommitRestores(states: seq<System>, steps: seq<Step>, k: nat, b: nat, c: nat, i: nat)
    requires Path(states, steps) && SystemInv(states[0]) && k < b < |states| && steps[k] == Commit(i)
    requires c in states[k].sessions && Framed(states[k].sessions[c]) && OrderlySince(states, steps, k, c)
    requires c in states[b].sessions && Quiescent(states[b].g, states[b].sessions[c])
    ensures i < |states[b].sessions[c].recv.vals| == |states[b].g.rev|
    ensures states[b].sessions[c].recv.vals[i] == states[b].g.rev[i]
  {
    PathKeeps(states, steps, k);
    PathKeeps(states, steps, b);
    CommitCovers(states[k].g, states[k].sessions[c], i);
    OrderlyFromFramed(states, steps, k, b, c);
    hide SystemInv, Current, OnItsWay, Quiescent;
    CoveredThroughout(states, steps, k + 1, b, c, i);
    EndsCovered(states[b], c, i);
  }

  /** Convergence of one record. */
  lemma RecordConverges(states: seq<System>, steps: seq<Step>, a: nat, b: nat, c: nat, i: nat)
    requires Path(states, steps) && SystemInv(states[0]) && a <= b < |states|
    requires Connected(states[a], c) && OrderlySince(states, steps, a, c)
    requires c in states[b].sessions && Quiescent(states[b].g, states[b].sessions[c])
    requires i < |states[a].g.rev| && Accounted(states, steps, a, b, i)
    ensures i < |states[b].sessions[c].recv.vals| == |states[b].g.rev|
    ensures states[b].sessions[c].recv.vals[i] == states[b].g.rev[i]
  {
    PathKeeps(states, steps, b);
    NothingIsForgotten(states, steps, a, b, c, i);
    OrderlyFromFramed(states, steps, a, b, c);
    if k :| a <= k < b && steps[k] == Commit(i) {
      PathKeeps(states, steps, a);
      InBetween(states, steps, a, k, b, c);
      hide SystemInv, OnItsWay, Quiescent;
      CommitRestores(states, steps, k, b, c, i);
    } else if !SkippedChange(states[a].g, i) {
      PathKeeps(states, steps, a);
      FreshCovered(states[a].g, i);
      CoveredThroughout(states, steps, a, b, c, i);
      hide SystemInv, Quiescent, Current, OnItsWay;
      EndsCovered(states[b], c, i);
    } else {
      QuiescentStaged(states[b].g, states[b].sessions[c], i);
    }
  }

  lemma InBetween(states: seq<System>, steps: seq<Step>, a: nat, k: nat, b: nat, c: nat)
    requires Path(states, steps) && SystemInv(states[0]) && a <= k <= b < |states| && SystemInv(states[a])
    requires c in states[a].sessions && Framed(states[a].sessions[c]) && c in states[b].sessions && OrderlySince(states, steps, a, c)
    ensures c in states[k].sessions && Framed(states[k].sessions[c])
  {
    NumbersGrow(states, steps, a, k);
    StaysConnected(states, steps, c, k, b);
    OrderlyFromFramed(states, steps, a, k, c);
  }

  lemma {:induction false} NumbersGrow(states: seq<System>, steps: seq<Step>, a: nat, b: nat)
    requires Path(states, steps) && a <= b < |states|
    ensures states[a].nextClient <= states[b].nextClient
    decreases b - a
  {
    if a < b { NumbersGrow(states, steps, a + 1, b); }
  }

  /** Convergence: in every state in which nothing is in motion, the replica of an orderly receiver equals
      the writer's storage in every record that is accounted for. */
  lemma ReplicaConverges(states: seq<System>, steps: seq<Step>, a: nat, b: nat, c: nat)
    requires Path(states, steps) && SystemInv(states[0]) && a <= b < |states|
    requires Connected(states[a], c) && OrderlySince(states, steps, a, c)
    requires c in states[b].sessions && Quiescent(states[b].g, states[b].sessions[c])
    ensures |states[b].sessions[c].recv.vals| == |states[b].g.rev| == |states[a].g.rev|
    ensures forall i :: 0 <= i < |states[b].g.rev| && Accounted(states, steps, a, b, i) ==>
      states[b].sessions[c].recv.vals[i] == states[b].g.rev[i]
    ensures (forall i :: 0 <= i < |states[b].g.rev| ==> Accounted(states, steps, a, b, i)) ==>
      states[b].sessions[c].recv.vals == states[b].g.rev
  {
    PathKeeps(states, steps, b);
    SizeIsFixed(states, steps, a, b);
    OrderlyFromFramed(states, steps, a, b, c);
    var g, s := states[b].g, states[b].sessions[c];
    assert SessionInv(g, s) && |s.recv.vals| == |g.rev|;
    hide SystemInv, SessionInv, Quiescent, Accounted;
    forall i | 0 <= i < |g.rev| && Accounted(states, steps, a, b, i) ensures s.recv.vals[i] == g.rev[i] {
      RecordConverges(states, steps, a, b, c, i);
    }
  }

  /** The storage keeps its number of records. */
  lemma {:induction false} SizeIsFixed(states: seq<System>, steps: seq<Step>, a: nat, b: nat)
    requires Path(states, steps) && SystemInv(states[0]) && a <= b < |states|
    ensures |states[a].g.rev| == |states[b].g.rev|
    decreases b - a
  {
    if a < b {
      PathKeeps(states, steps, a);
      if IsGlobal(steps[a]) { GlobalStepKeeps(states[a].g, steps[a]); }
      SizeIsFixed(states, steps, a + 1, b);
    }
  }
}
