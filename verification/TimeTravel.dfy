/** When a replica can go back in time. The sender may come to answer a range that nobody asked for; what
    matters is whether such a range holds a sequence that the receiver has not reached. */
module TimeTravel {
  import opened Sequences
  import opened SenderModel
  import opened ReceiverModel
  import opened Protocol
  import opened ProtocolInvariants
  import opened RequestFraming
  import opened Replication

  /** No record is staged, or can still be staged, under a sequence of the range that the receiver has
      not reached. */
  ghost predicate Safe(g: Global, recv: Receiver, r: Range) {
    r.Valid() ==>
      && r.high <= g.snd.nextSeq
      && forall i :: 0 <= i < |g.snd.seqs| && r.Contains(g.snd.seqs[i]) ==> g.snd.seqs[i] < recv.next
  }

  /** The receiver is sound and what the sender is answering is safe. */
  ghost predicate SoundInv(g: Global, s: Session) {
    ReceiverInv(g, s.recv) && MsgsInv(g, s) && ScanInv(g, s.clnt) && Safe(g, s.recv, s.clnt.reply)
  }

  /** And so is what it will answer next. */
  ghost predicate SafeInv(g: Global, s: Session) { SoundInv(g, s) && Safe(g, s.recv, s.clnt.union) }

  // ---------------------------------------------------------------- no record goes back in time

  lemma FreshIsSafe(g: Global)
    requires GlobalInv(g)
    ensures SafeInv(g, FreshSession(|g.rev|))
  {
  }

  /** While the frames are whole, everything is safe. */
  lemma FramedIsSafe(g: Global, s: Session)
    requires GlobalInv(g) && SessionInv(g, s)
    ensures SafeInv(g, s)
  {
  }

  lemma SafeEvolves(g: Global, g': Global, s: Session)
    requires Evolves(g, g') && SoundInv(g, s)
    ensures SoundInv(g', s) && (SafeInv(g, s) ==> SafeInv(g', s))
  {
    ReceiverEvolves(g, g', s.recv);
    MsgsEvolve(g, g', s);
    hide Captured;
  }

  lemma DeliverKeepsSafe(g: Global, s: Session, step: Step)
    requires GlobalInv(g) && SafeInv(g, s) && step.Deliver? && SessionEnabled(g, s, step)
    ensures SafeInv(g, SessionApply(g, s, step))
    ensures forall i :: 0 <= i < |s.recv.vals| ==> s.recv.vals[i] <= SessionApply(g, s, step).recv.vals[i]
  {
    var s' := SessionApply(g, s, step);
    McastKeeps(g, s.recv, step.packet);
    hide GlobalInv, ReceiverInv, MsgsInv, EncodeRange, McastOnRead, RequestsGap;
    MsgsAdvance(g, s, s');
  }

  lemma ReadResponseKeepsSound(g: Global, s: Session, step: Step)
    requires GlobalInv(g) && SoundInv(g, s) && step.ReadResponse? && SessionEnabled(g, s, step)
    ensures SoundInv(g, SessionApply(g, s, step)) && SessionApply(g, s, step).recv.next == s.recv.next
    ensures forall i :: 0 <= i < |s.recv.vals| ==> s.recv.vals[i] <= SessionApply(g, s, step).recv.vals[i]
  {
    assert MsgOk(g, s.recv, s.resps[0]);
    ResponseKeepsReceiver(g, s.recv, s.resps[0]);
    hide GlobalInv, Captured, TcpOnRead;
  }

  lemma ScanKeepsSound(g: Global, s: Session, step: Step)
    requires GlobalInv(g) && SoundInv(g, s) && step.Scan? && SessionEnabled(g, s, step)
    ensures SoundInv(g, SessionApply(g, s, step))
  {
    CapturedNow(g, s.clnt.replyId);
    hide GlobalInv, Captured;
  }

  lemma OtherStepKeepsSound(g: Global, s: Session, step: Step)
    requires SoundInv(g, s) && SessionEnabled(g, s, step)
    requires !step.Deliver? && !step.ReadResponse? && !step.Scan?
    requires step.ReadBlocked? ==> Safe(g, s.recv, s.clnt.union)
    ensures SoundInv(g, SessionApply(g, s, step)) && SessionApply(g, s, step).recv.vals == s.recv.vals
    ensures SessionApply(g, s, step).recv.next == s.recv.next
  {
    hide Captured, EncodeRange, FrameOf;
  }

  /** Every step of a connection that does not make an unsafe range pending keeps it safe and lowers no
      revision, whatever became of the frames of its requests. */
  lemma SafeStepKeeps(g: Global, s: Session, step: Step)
    requires GlobalInv(g) && SafeInv(g, s) && SessionEnabled(g, s, step)
    requires step.ReadRequest? ==> Safe(g, s.recv, TakeRequest(s).clnt.union)
    ensures SafeInv(g, SessionApply(g, s, step))
    ensures |SessionApply(g, s, step).recv.vals| == |s.recv.vals|
    ensures forall i :: 0 <= i < |s.recv.vals| ==> s.recv.vals[i] <= SessionApply(g, s, step).recv.vals[i]
  {
    match step
    case Deliver(_, _) => DeliverKeepsSafe(g, s, step);
    case ReadResponse(_) => ReadResponseKeepsSound(g, s, step);
    case Scan(_) => ScanKeepsSound(g, s, step);
    case _ => OtherStepKeepsSound(g, s, step);
  }

  /** If the step reads a request of receiver c, the merged range it leaves pending is safe. */
  ghost predicate ReadsSafely(sys: System, step: Step, c: nat) {
    step == ReadRequest(c) && c in sys.sessions && NextRequest(sys.sessions[c]).Some? ==>
      Safe(sys.g, sys.sessions[c].recv, TakeRequest(sys.sessions[c]).clnt.union)
  }

  lemma StepKeepsSafe(sys: System, step: Step, c: nat)
    requires SystemInv(sys) && Enabled(sys, step) && ReadsSafely(sys, step, c)
    requires c in sys.sessions && c in Apply(sys, step).sessions && SafeInv(sys.g, sys.sessions[c])
    ensures var s, sys' := sys.sessions[c], Apply(sys, step); var s' := sys'.sessions[c];
      && SafeInv(sys'.g, s') && |s'.recv.vals| == |s.recv.vals| == |sys.g.rev| == |sys'.g.rev|
      && forall i :: 0 <= i < |s.recv.vals| ==> s.recv.vals[i] <= s'.recv.vals[i]
  {
    var s, sys' := sys.sessions[c], Apply(sys, step);
    StepKeepsGlobal(sys, step);
    assert |s.recv.vals| == |sys.g.rev| == |sys'.g.rev|;
    hide ConnectionInv, GlobalInv, SoundInv, Safe, Evolves, SessionApply, SessionEnabled, GlobalApply;
    if !IsGlobal(step) && !step.Accept? && !step.Hup? && step.c == c {
      SafeStepKeeps(sys.g, s, step);
      SafeEvolves(sys.g, sys'.g, sys'.sessions[c]);
    } else {
      SafeEvolves(sys.g, sys'.g, s);
    }
  }

  /** Up to state b, no request read from receiver c made an unsafe range pending. */
  ghost predicate SafeReads(states: seq<System>, steps: seq<Step>, b: nat, c: nat)
    requires |states| == |steps| + 1
  {
    forall k :: 0 <= k < b && k < |steps| ==> ReadsSafely(states[k], steps[k], c)
  }

  lemma {:induction false} SafeThroughout(states: seq<System>, steps: seq<Step>, b: nat, c: nat)
    requires Run(states, steps) && b < |states| && c in states[b].sessions && SafeReads(states, steps, b, c)
    ensures SafeInv(states[b].g, states[b].sessions[c])
  {
    if b > 0 {
      ReachableInv(states, steps, b - 1);
      ReachableInv(states, steps, b);
      var sys, step := states[b - 1], steps[b - 1];
      if c in sys.sessions {
        SafeThroughout(states, steps, b - 1, c);
        assert ReadsSafely(sys, step, c);
        StepKeepsSafe(sys, step, c);
      } else {
        assert step.Accept? && states[b].sessions[c] == FreshSession(|states[b].g.rev|);
        FreshIsSafe(states[b].g);
      }
    }
  }

  /** Over every run, with packets lost, duplicated and reordered, repairs interleaved and requests
      replaced at any moment, the writer revision a replica holds for a record never decreases, as long
      as no request read from that receiver makes an unsafe range pending. */
  lemma {:induction false} NoTimeTravel(states: seq<System>, steps: seq<Step>, c: nat, a: nat, b: nat, i: nat)
    requires Run(states, steps) && a <= b < |states| && SafeReads(states, steps, b, c)
    requires c in states[a].sessions && c in states[b].sessions && i < |states[a].g.rev|
    ensures |states[a].sessions[c].recv.vals| == |states[b].sessions[c].recv.vals| == |states[a].g.rev| == |states[b].g.rev|
    ensures states[a].sessions[c].recv.vals[i] <= states[b].sessions[c].recv.vals[i] <= states[b].g.rev[i]
    decreases b - a
  {
    SafeThroughout(states, steps, a, c);
    ReachableInv(states, steps, a);
    InitInv(states[0]);
    if a < b {
      StaysConnected(states, steps, c, a + 1, b);
      assert ReadsSafely(states[a], steps[a], c);
      StepKeepsSafe(states[a], steps[a], c);
      NoTimeTravel(states, steps, c, a + 1, b, i);
    } else {
      assert ReceiverInv(states[a].g, states[a].sessions[c].recv);
    }
  }

  /** A receiver that never replaces a request after its first byte reads safely. */
  lemma FramedReadsSafely(states: seq<System>, steps: seq<Step>, b: nat, c: nat)
    requires Run(states, steps) && b < |states| && c in states[b].sessions && Framed(states[b].sessions[c])
    ensures SafeReads(states, steps, b, c)
  {
    forall k | 0 <= k < b && k < |steps| ensures ReadsSafely(states[k], steps[k], c) {
      if steps[k] == ReadRequest(c) && c in states[k].sessions && NextRequest(states[k].sessions[c]).Some? {
        ReachableInv(states, steps, k);
        ReachableInv(states, steps, k + 1);
        InitInv(states[0]);
        FramedAllAlong(states, steps, c, k + 1, b);
        FramedIsSafe(states[k + 1].g, states[k + 1].sessions[c]);
      }
    }
  }

  // ---------------------------------------------------------------- paths without their middle

  /** Some path leads from one state to the other. */
  ghost predicate Leads(sys: System, sys': System) {
    exists states: seq<System>, steps: seq<Step> :: Path(states, steps) && states[0] == sys && states[|steps|] == sys'
  }

  lemma LeadsHere(sys: System)
    ensures Leads(sys, sys)
  {
    assert Path([sys], []);
  }

  lemma LeadsBy(sys: System, step: Step)
    requires Enabled(sys, step)
    ensures Leads(sys, Apply(sys, step))
  {
    var states, steps := Extend([sys], [], step);
  }

  lemma LeadsTransitive(a: System, b: System, c: System)
    requires Leads(a, b) && Leads(b, c)
    ensures Leads(a, c)
  {
    var states1: seq<System>, steps1: seq<Step> :| Path(states1, steps1) && states1[0] == a && states1[|steps1|] == b;
    var states2: seq<System>, steps2: seq<Step> :| Path(states2, steps2) && states2[0] == b && states2[|steps2|] == c;
    PathsJoin(states1, steps1, states2, steps2);
  }

  lemma PathsJoin(states1: seq<System>, steps1: seq<Step>, states2: seq<System>, steps2: seq<Step>)
    requires Path(states1, steps1) && Path(states2, steps2) && states1[|steps1|] == states2[0]
    ensures var states, steps := states1 + states2[1..], steps1 + steps2;
      Path(states, steps) && states[0] == states1[0] && states[|steps|] == states2[|steps2|]
  {
    hide Enabled, Apply;
    var states, steps, n := states1 + states2[1..], steps1 + steps2, |steps1|;
    assert forall k :: 0 <= k <= n ==> states[k] == states1[k];
    assert forall k :: n <= k <= |steps| ==> states[k] == states2[k - n];
    forall k | 0 <= k < |steps| ensures Enabled(states[k], steps[k]) && states[k + 1] == Apply(states[k], steps[k]) {
      if k < n {
        assert states1[k + 1] == Apply(states1[k], steps1[k]);
      } else {
        assert states2[k - n + 1] == Apply(states2[k - n], steps2[k - n]);
      }
    }
  }

  /** One step from a sound state. */
  lemma Next(sys: System, step: Step)
    requires SystemInv(sys) && Enabled(sys, step)
    ensures Leads(sys, Apply(sys, step)) && SystemInv(Apply(sys, step))
  {
    LeadsBy(sys, step);
    StepKeeps(sys, step);
  }

  // ---------------------------------------------------------------- and when one does

  /** The step takes record i of receiver c back. */
  predicate TakesBack(sys: System, step: Step, c: nat, i: nat) {
    && Enabled(sys, step) && c in sys.sessions && c in Apply(sys, step).sessions
    && i < |sys.sessions[c].recv.vals| == |Apply(sys, step).sessions[c].recv.vals|
    && sys.sessions[c].recv.vals[i] > Apply(sys, step).sessions[c].recv.vals[i]
  }

  ghost predicate CanGoBack(sys: System, c: nat) {
    exists sys1, step, i :: Leads(sys, sys1) && TakesBack(sys1, step, c, i)
  }

  lemma GoesBackLater(sys: System, sys': System, c: nat)
    requires Leads(sys, sys') && CanGoBack(sys', c)
    ensures CanGoBack(sys, c)
  {
    hide Leads, TakesBack;
    var sys1, step, i :| Leads(sys', sys1) && TakesBack(sys1, step, c, i);
    LeadsTransitive(sys, sys', sys1);
  }

  /** Receiver c and its connection, nothing on its way and no scan running, with range r pending. */
  ghost predicate Idle(sys: System, c: nat, r: Range) {
    && SystemInv(sys) && c in sys.sessions
    && var s := sys.sessions[c];
       && ReceiverInv(sys.g, s.recv) && s.clnt.union == r && !s.clnt.reply.Valid() && s.clnt.out.None? && s.resps == []
  }

  /** Some record is staged under a sequence of r that the receiver has not reached. */
  ghost predicate Ahead(sys: System, c: nat, r: Range, i: nat) {
    && c in sys.sessions && i < |sys.g.rev| == |sys.g.snd.seqs|
    && r.Contains(sys.g.snd.seqs[i]) && sys.sessions[c].recv.next <= sys.g.snd.seqs[i]
  }

  // The last part: the scan answers with a value newer than the one staged, and the packet follows.

  /** The receiver is given the newest revision under a sequence that it has not reached. */
  ghost predicate Overtaken(sys: System, c: nat, i: nat) {
    && SystemInv(sys) && c in sys.sessions && i < |sys.g.rev| == |sys.g.snd.seqs|
    && var r := sys.sessions[c].recv;
       |r.seqs| == |r.vals| == |sys.g.rev| && r.next <= sys.g.snd.seqs[i] && sys.g.snd.revs[i] < r.vals[i] && 0 < sys.g.snd.seqs[i]
  }

  lemma HearLatest(g: Global, s: Session, p: Packet, i: nat)
    requires GlobalInv(g) && p in g.net && SlotOk(s) && i < |s.recv.seqs| == |s.recv.vals| == |g.rev|
    requires s.recv.next <= p.hdr == g.snd.seqs[i] && p.hdr > 0
    ensures var r' := HearPacket(s, p).recv; |r'.vals| == |s.recv.vals| && r'.vals[i] == g.snd.revs[i]
  {
    LatestPacketEffect(g, s.recv, p, i);
    hide GlobalInv, ApplyRecs, EncodeRange;
  }

  lemma PacketTakesBack(sys: System, c: nat, i: nat) returns (step: Step)
    requires Overtaken(sys, c, i) && sys.g.snd.seqs[i] < sys.g.snd.nextSeq
    ensures TakesBack(sys, step, c, i)
  {
    var p := PacketOf(sys.g, sys.g.snd.seqs[i]);
    SlotIsOk(sys.g, sys.sessions[c]);
    HearLatest(sys.g, sys.sessions[c], p, i);
    hide SystemInv, HearPacket;
    step := Deliver(c, p);
  }

  lemma FlushKeepsOvertaken(sys: System, c: nat, i: nat)
    requires Overtaken(sys, c, i) && sys.g.snd.seqs[i] == sys.g.snd.nextSeq && sys.g.snd.nextSeq + 1 < SEQUENCE_MAX
    ensures Enabled(sys, Flush)
    ensures var sys' := Apply(sys, Flush); Overtaken(sys', c, i) && sys'.g.snd.seqs[i] < sys'.g.snd.nextSeq
  {
    assert sys.g.snd.pkt != [] && sys.g.snd.hdr == sys.g.snd.nextSeq;
    StepKeeps(sys, Flush);
  }

  lemma OvertakenGoesBack(sys: System, c: nat, i: nat)
    requires Overtaken(sys, c, i)
    requires sys.g.snd.seqs[i] < sys.g.snd.nextSeq || sys.g.snd.nextSeq + 1 < SEQUENCE_MAX
    ensures CanGoBack(sys, c)
  {
    var sys1 := sys;
    LeadsHere(sys);
    if sys.g.snd.seqs[i] >= sys.g.snd.nextSeq {
      assert sys.g.snd.seqs[i] == sys.g.snd.nextSeq;
      FlushKeepsOvertaken(sys, c, i);
      LeadsBy(sys, Flush);
      sys1 := Apply(sys, Flush);
    }
    hide Overtaken, Leads, Apply, Enabled;
    var step := PacketTakesBack(sys1, c, i);
    assert TakesBack(sys1, step, c, i);
  }

  // The scan up to that record. What it sends on the way is read at once and is for other records.

  /** The scan stands before record k; record i, still to be examined, will be answered. */
  ghost predicate Scanning(sys: System, c: nat, r: Range, i: nat, k: nat) {
    && SystemInv(sys) && c in sys.sessions && k <= i && Ahead(sys, c, r, i) && sys.g.snd.revs[i] < sys.g.rev[i]
    && var s := sys.sessions[c];
       && |s.recv.seqs| == |s.recv.vals| == |sys.g.rev| && s.recv.seqs[i] < sys.g.snd.seqs[i] && 0 < s.recv.next
       && s.clnt.reply == r && s.clnt.replyId == k && s.clnt.out.None? && s.resps == []
  }

  /** A step of the connection that leaves the shared part alone. */
  lemma NextOf(sys: System, step: Step, c: nat)
    requires SystemInv(sys) && c in sys.sessions && SessionEnabled(sys.g, sys.sessions[c], step)
    requires (step.Scan? || step.WriteOut? || step.ReadResponse? || step.ReadBlocked?) && step.c == c
    ensures var sys' := sys.(sessions := sys.sessions[c := SessionApply(sys.g, sys.sessions[c], step)]);
      Leads(sys, sys') && SystemInv(sys')
  {
    hide SystemInv, Leads;
    Next(sys, step);
  }

  /** What one turn of the scan, sent and read at once, makes of the connection. */
  function Examined(g: Global, s: Session, k: nat): Session
    requires k < |g.snd.seqs| && k < |g.rev| && k < |s.recv.seqs|
  {
    var s1 := s.(clnt := ScanOne(s.clnt, g.snd.seqs[k], g.rev[k]));
    if s1.clnt.out.None? then s1
    else s1.(clnt := s1.clnt.(out := None), recv := TcpOnRead(s.recv, Response(g.snd.seqs[k], k, g.rev[k])))
  }

  /** The connection with session s in place of receiver c's. */
  function With(sys: System, c: nat, s: Session): System { sys.(sessions := sys.sessions[c := s]) }

  /** The message in the buffer is written and, nothing being ahead of it, read. */
  lemma SendAndRead(sys: System, c: nat)
    requires SystemInv(sys) && c in sys.sessions
    requires var s := sys.sessions[c];
      s.clnt.out.Some? && s.resps == [] && (s.clnt.out.value.Response? ==> s.clnt.out.value.id < |s.recv.seqs|)
    ensures var s := sys.sessions[c];
      var sys' := With(sys, c, s.(clnt := s.clnt.(out := None), recv := TcpOnRead(s.recv, s.clnt.out.value)));
      Leads(sys, sys') && SystemInv(sys')
  {
    hide SystemInv, Leads;
    var g, s, m := sys.g, sys.sessions[c], sys.sessions[c].clnt.out.value;
    NextOf(sys, WriteOut(c), c);
    var s2 := s.(clnt := s.clnt.(out := None), resps := [m]);
    assert s.resps + [m] == [m] && SessionApply(g, s, WriteOut(c)) == s2;
    var sys2 := With(sys, c, s2);
    NextOf(sys2, ReadResponse(c), c);
    assert [m][1..] == [];
    var s3 := s.(clnt := s.clnt.(out := None), recv := TcpOnRead(s.recv, m));
    assert SessionApply(g, s2, ReadResponse(c)) == s3;
    assert With(sys2, c, s3) == With(sys, c, s3);
    LeadsTransitive(sys, sys2, With(sys, c, s3));
  }

  /** One record is examined, and what comes of it is sent and read. */
  lemma ExamineOne(sys: System, c: nat, r: Range, i: nat, k: nat) returns (sys': System)
    requires Scanning(sys, c, r, i, k)
    ensures k < |sys.g.snd.seqs| && k < |sys.g.rev| && k < |sys.sessions[c].recv.seqs|
    ensures Leads(sys, sys') && SystemInv(sys') && sys'.g == sys.g
    ensures c in sys'.sessions && sys'.sessions[c] == Examined(sys.g, sys.sessions[c], k)
  {
    var g, s := sys.g, sys.sessions[c];
    assert |g.snd.seqs| == |g.rev| == |s.recv.seqs| && SessionEnabled(g, s, Scan(c));
    hide SystemInv, Leads;
    NextOf(sys, Scan(c), c);
    var s1 := SessionApply(g, s, Scan(c));
    sys' := With(sys, c, s1);
    if s1.clnt.out.Some? {
      var sys1 := sys';
      SendAndRead(sys1, c);
      sys' := With(sys1, c, s1.(clnt := s1.clnt.(out := None), recv := TcpOnRead(s1.recv, s1.clnt.out.value)));
      LeadsTransitive(sys, sys1, sys');
    }
  }

  lemma ExaminedOnWay(sys: System, sys': System, c: nat, r: Range, i: nat, k: nat)
    requires Scanning(sys, c, r, i, k) && SystemInv(sys') && sys'.g == sys.g && c in sys'.sessions
    requires k < |sys.g.snd.seqs| && k < |sys.g.rev| && k < |sys.sessions[c].recv.seqs|
    requires sys'.sessions[c] == Examined(sys.g, sys.sessions[c], k)
    ensures if k < i then Scanning(sys', c, r, i, k + 1) else Overtaken(sys', c, i)
  {
    hide SystemInv;
  }

  lemma {:induction false} ScanGoesBack(sys: System, c: nat, r: Range, i: nat, k: nat)
    requires Scanning(sys, c, r, i, k)
    requires sys.g.snd.seqs[i] < sys.g.snd.nextSeq || sys.g.snd.nextSeq + 1 < SEQUENCE_MAX
    ensures CanGoBack(sys, c)
    decreases i - k
  {
    var sys' := ExamineOne(sys, c, r, i, k);
    ExaminedOnWay(sys, sys', c, r, i, k);
    hide Leads, Scanning, Overtaken, CanGoBack;
    if k < i {
      ScanGoesBack(sys', c, r, i, k + 1);
    } else {
      OvertakenGoesBack(sys', c, i);
    }
    GoesBackLater(sys, sys', c);
  }

  // The scan begins.

  lemma GlobalKeepsIdle(sys: System, step: Step, c: nat, r: Range)
    requires Idle(sys, c, r) && IsGlobal(step) && Enabled(sys, step)
    ensures var sys' := Apply(sys, step);
      && Leads(sys, sys') && Idle(sys', c, r) && sys'.sessions == sys.sessions
      && sys'.g == GlobalApply(sys.g, step) && Evolves(sys.g, sys'.g)
  {
    Next(sys, step);
    StepKeepsGlobal(sys, step);
    hide GlobalInv, ConnectionInv, Leads, Evolves, GlobalApply, GlobalEnabled;
    ReceiverEvolves(sys.g, Apply(sys, step).g, sys.sessions[c].recv);
  }

  /** The writer can commit, once what it committed before is logged. */
  lemma CommitAhead(sys: System, c: nat, r: Range, i: nat) returns (sys': System)
    requires Idle(sys, c, r) && Ahead(sys, c, r, i)
    ensures Leads(sys, sys') && Idle(sys', c, r) && Ahead(sys', c, r, i) && sys'.sessions == sys.sessions
    ensures sys'.g.snd == sys.g.snd && |sys'.g.snd.revs| == |sys'.g.rev| && sys'.g.snd.revs[i] < sys'.g.rev[i]
  {
    var sys1 := sys;
    LeadsHere(sys);
    if sys.g.unlogged.Some? {
      GlobalKeepsIdle(sys, LogChange, c, r);
      sys1 := Apply(sys, LogChange);
    }
    assert sys1.g.unlogged.None? && sys1.g.snd == sys.g.snd && sys1.g.rev == sys.g.rev && |sys1.g.snd.revs| == |sys1.g.rev|;
    assert sys1.g.snd.revs[i] <= sys1.g.rev[i];
    hide SystemInv, Leads;
    GlobalKeepsIdle(sys1, Commit(i), c, r);
    sys' := Apply(sys1, Commit(i));
    LeadsTransitive(sys, sys1, sys');
  }

  lemma BeginScan(sys: System, c: nat, r: Range, i: nat) returns (sys': System)
    requires Idle(sys, c, r) && Ahead(sys, c, r, i)
    requires |sys.g.snd.revs| == |sys.g.rev| && sys.g.snd.revs[i] < sys.g.rev[i]
    ensures Leads(sys, sys') && Scanning(sys', c, r, i, 0) && sys'.g == sys.g
  {
    var s := sys.sessions[c];
    assert sys.g.snd.minSeq <= sys.g.snd.seqs[i];
    assert ConnectionInv(sys.g, s) && 0 < s.recv.next;
    hide SystemInv, Leads;
    NextOf(sys, ReadBlocked(c), c);
    sys' := With(sys, c, SessionApply(sys.g, s, ReadBlocked(c)));
  }

  lemma AheadGoesBack(sys: System, c: nat, r: Range, i: nat)
    requires Idle(sys, c, r) && Ahead(sys, c, r, i)
    requires sys.g.snd.seqs[i] < sys.g.snd.nextSeq || sys.g.snd.nextSeq + 1 < SEQUENCE_MAX
    ensures CanGoBack(sys, c)
  {
    hide Leads, Idle, Ahead, CanGoBack;
    var sys1 := CommitAhead(sys, c, r, i);
    var sys2 := BeginScan(sys1, c, r, i);
    ScanGoesBack(sys2, c, r, i, 0);
    GoesBackLater(sys1, sys2, c);
    GoesBackLater(sys, sys1, c);
  }

  // A sequence of the range is staged, if none is yet.

  /** Queue turns with an empty buffer: the first change that is not staged yet is. */
  lemma {:induction false} StageOne(sys: System, c: nat, r: Range) returns (sys': System)
    requires Idle(sys, c, r) && sys.g.snd.pkt == []
    ensures Leads(sys, sys') && Idle(sys', c, r) && sys'.sessions == sys.sessions
    ensures sys'.g.snd.nextSeq == sys.g.snd.nextSeq && sys'.g.snd.pkt != []
    decreases sys.g.unlogged.Some?, |sys.g.log| - sys.g.snd.lastQ
  {
    var step := if sys.g.unlogged.Some? then LogChange else Queue(true);
    if sys.g.unlogged.None? && sys.g.snd.lastQ >= |sys.g.log| {
      sys' := StageNew(sys, c, r);
    } else {
      if sys.g.unlogged.None? { TurnWithRoom(sys, c, r); }
      GlobalKeepsIdle(sys, step, c, r);
      var sys1 := Apply(sys, step);
      hide Leads, Idle;
      sys' := sys1;
      if sys1.g.snd.pkt == [] {
        sys' := StageOne(sys1, c, r);
        LeadsTransitive(sys, sys1, sys');
      }
    }
  }

  /** One turn with an empty buffer. */
  lemma TurnWithRoom(sys: System, c: nat, r: Range)
    requires Idle(sys, c, r) && sys.g.snd.pkt == [] && sys.g.snd.lastQ < |sys.g.log|
    ensures Enabled(sys, Queue(true))
    ensures var id, g' := sys.g.log[sys.g.snd.lastQ].id, GlobalApply(sys.g, Queue(true));
      && id < |sys.g.rev| == |sys.g.snd.revs|
      && g'.snd.nextSeq == sys.g.snd.nextSeq && g'.unlogged == sys.g.unlogged && g'.log == sys.g.log
      && (if sys.g.rev[id] == sys.g.snd.revs[id] then g'.snd.pkt == [] && g'.snd.lastQ == sys.g.snd.lastQ + 1 else g'.snd.pkt != [])
  {
    assert ChangeOk(sys.g, sys.g.log[sys.g.snd.lastQ]);
    QueueParts(sys.g, true);
  }

  /** The queue is empty: record 0 changes and is staged. */
  lemma StageNew(sys: System, c: nat, r: Range) returns (sys': System)
    requires Idle(sys, c, r) && sys.g.snd.pkt == [] && sys.g.unlogged.None? && sys.g.snd.lastQ >= |sys.g.log|
    ensures Leads(sys, sys') && Idle(sys', c, r) && sys'.sessions == sys.sessions
    ensures sys'.g.snd.nextSeq == sys.g.snd.nextSeq && sys'.g.snd.pkt != []
  {
    var g := sys.g;
    assert 0 < |g.rev| == |g.snd.revs| && g.snd.revs[0] <= g.rev[0] && g.snd.lastQ == |g.log|;
    GlobalKeepsIdle(sys, Commit(0), c, r);
    var sys1 := Apply(sys, Commit(0));
    hide Leads, Idle;
    GlobalKeepsIdle(sys1, LogChange, c, r);
    var sys2 := Apply(sys1, LogChange);
    TurnWithRoom(sys2, c, r);
    GlobalKeepsIdle(sys2, Queue(true), c, r);
    sys' := Apply(sys2, Queue(true));
    LeadsTransitive(sys, sys1, sys2);
    LeadsTransitive(sys, sys2, sys');
  }

  lemma BufferedIsAhead(sys: System, c: nat, r: Range) returns (i: nat)
    requires Idle(sys, c, r) && sys.g.snd.pkt != [] && r.Contains(sys.g.snd.nextSeq)
    ensures Ahead(sys, c, r, i) && sys.g.snd.seqs[i] == sys.g.snd.nextSeq
  {
    i := sys.g.snd.pkt[0].id;
    assert Entry(sys.g.snd.nextSeq, i, sys.g.snd.pkt[0].rev) in sys.g.hist;
  }

  /** If the range reaches into what is still to be staged, that can be staged. */
  lemma {:induction false} FutureGoesBack(sys: System, c: nat, r: Range)
    requires Idle(sys, c, r) && r.Valid() && sys.g.snd.nextSeq < r.high
    requires (if r.low < sys.g.snd.nextSeq then sys.g.snd.nextSeq else r.low) + 1 < SEQUENCE_MAX
    ensures CanGoBack(sys, c)
    decreases r.low - sys.g.snd.nextSeq
  {
    var sys1 := sys;
    LeadsHere(sys);
    if sys.g.snd.pkt == [] { sys1 := StageOne(sys, c, r); }
    if r.low <= sys1.g.snd.nextSeq {
      var i := BufferedIsAhead(sys1, c, r);
      AheadGoesBack(sys1, c, r, i);
    } else {
      assert sys1.g.snd.hdr >= 0;
      GlobalKeepsIdle(sys1, Flush, c, r);
      hide Leads, Idle, CanGoBack;
      FutureGoesBack(Apply(sys1, Flush), c, r);
      GoesBackLater(sys1, Apply(sys1, Flush), c);
    }
    GoesBackLater(sys, sys1, c);
  }

  // What the connection is busy with is finished first.

  ghost predicate Sound(sys: System, c: nat, r: Range) {
    && SystemInv(sys) && c in sys.sessions && SoundInv(sys.g, sys.sessions[c])
    && sys.sessions[c].clnt.union == r
  }

  function BusyStep(g: Global, s: Session, c: nat): Option<Step> {
    if s.resps != [] then Some(ReadResponse(c))
    else if s.clnt.out.Some? then Some(WriteOut(c))
    else if s.clnt.reply.Valid() then Some(if s.clnt.replyId < |g.rev| then Scan(c) else ScanDone(c))
    else None
  }

  function ScanLeft(g: Global, s: Session): int {
    if s.clnt.reply.Valid() then |g.rev| - s.clnt.replyId + 1 else 0
  }

  predicate LessBusy(g: Global, s: Session, s': Session) {
    && 0 <= ScanLeft(g, s') <= ScanLeft(g, s)
    && (ScanLeft(g, s') == ScanLeft(g, s) ==>
          || (s.clnt.out.Some? && s'.clnt.out.None?)
          || (s.clnt.out == s'.clnt.out && |s'.resps| < |s.resps|))
  }

  lemma BusyStepEnabled(g: Global, s: Session, c: nat)
    requires GlobalInv(g) && SoundInv(g, s) && BusyStep(g, s, c).Some?
    ensures var step := BusyStep(g, s, c).value;
      && SessionEnabled(g, s, step) && step.c == c && !IsGlobal(step) && !step.Accept? && !step.Hup?
      && var s' := SessionApply(g, s, step); LessBusy(g, s, s') && s'.clnt.union == s.clnt.union
  {
    assert |g.snd.seqs| == |g.rev| == |s.recv.seqs|;
    if s.resps != [] { assert MsgOk(g, s.recv, s.resps[0]); }
    hide GlobalInv, ReceiverInv, MsgsInv, Safe, TcpOnRead;
  }

  lemma BusyStepSound(g: Global, s: Session, c: nat)
    requires GlobalInv(g) && SoundInv(g, s) && BusyStep(g, s, c).Some? && SessionEnabled(g, s, BusyStep(g, s, c).value)
    ensures var s' := SessionApply(g, s, BusyStep(g, s, c).value); SoundInv(g, s') && s'.recv.next == s.recv.next
  {
    var step := BusyStep(g, s, c).value;
    hide GlobalInv, SoundInv;
    match step {
      case ReadResponse(_) => ReadResponseKeepsSound(g, s, step);
      case Scan(_) => ScanKeepsSound(g, s, step);
      case _ => OtherStepKeepsSound(g, s, step);
    }
  }

  lemma BusyStepKeeps(sys: System, c: nat, r: Range)
    requires Sound(sys, c, r) && BusyStep(sys.g, sys.sessions[c], c).Some?
    ensures var step := BusyStep(sys.g, sys.sessions[c], c).value;
      && Enabled(sys, step)
      && var sys' := Apply(sys, step);
         && Leads(sys, sys') && Sound(sys', c, r) && sys'.g == sys.g.(snd := sys.g.snd.(minSeq := sys'.g.snd.minSeq))
         && LessBusy(sys.g, sys.sessions[c], sys'.sessions[c]) && sys'.sessions[c].recv.next == sys.sessions[c].recv.next
  {
    var g, s := sys.g, sys.sessions[c];
    var step := BusyStep(g, s, c).value;
    BusyStepEnabled(g, s, c);
    BusyStepSound(g, s, c);
    Next(sys, step);
    StepKeepsGlobal(sys, step);
    hide SystemInv, GlobalInv, SoundInv, Evolves, Leads, SessionApply, SessionEnabled, LessBusy, BusyStep;
    SafeEvolves(g, Apply(sys, step).g, Apply(sys, step).sessions[c]);
  }

  lemma NotBusyIsIdle(sys: System, c: nat, r: Range)
    requires Sound(sys, c, r) && BusyStep(sys.g, sys.sessions[c], c).None?
    ensures Idle(sys, c, r)
  {
    hide SystemInv;
  }

  lemma {:induction false} FinishWork(sys: System, c: nat, r: Range, left: int) returns (sys': System)
    requires Sound(sys, c, r) && left == ScanLeft(sys.g, sys.sessions[c])
    ensures Leads(sys, sys') && Idle(sys', c, r) && sys'.g == sys.g.(snd := sys.g.snd.(minSeq := sys'.g.snd.minSeq))
    ensures sys'.sessions[c].recv.next == sys.sessions[c].recv.next
    decreases left, sys.sessions[c].clnt.out.Some?, |sys.sessions[c].resps|
  {
    if BusyStep(sys.g, sys.sessions[c], c).None? {
      NotBusyIsIdle(sys, c, r);
      LeadsHere(sys);
      sys' := sys;
    } else {
      BusyStepKeeps(sys, c, r);
      var sys1 := Apply(sys, BusyStep(sys.g, sys.sessions[c], c).value);
      hide Leads, Sound, Idle, BusyStep, Apply, Enabled;
      sys' := FinishWork(sys1, c, r, ScanLeft(sys1.g, sys1.sessions[c]));
      LeadsTransitive(sys, sys1, sys');
    }
  }

  /** There are sequences left for what the range reaches into. */
  predicate RoomIn(g: Global, r: Range) {
    g.snd.nextSeq < r.high ==> (if r.low < g.snd.nextSeq then g.snd.nextSeq else r.low) + 1 < SEQUENCE_MAX
  }

  /** Once an unsafe range is pending for a sound receiver, some continuation takes a record back in time. */
  lemma UnsafeGoesBack(sys: System, c: nat)
    requires SystemInv(sys) && c in sys.sessions && SoundInv(sys.g, sys.sessions[c])
    requires !Safe(sys.g, sys.sessions[c].recv, sys.sessions[c].clnt.union) && RoomIn(sys.g, sys.sessions[c].clnt.union)
    ensures CanGoBack(sys, c)
  {
    var r := sys.sessions[c].clnt.union;
    assert |sys.g.snd.seqs| == |sys.g.rev|;
    var sys1 := FinishWork(sys, c, r, ScanLeft(sys.g, sys.sessions[c]));
    if i :| 0 <= i < |sys.g.snd.seqs| && r.Contains(sys.g.snd.seqs[i]) && sys.g.snd.seqs[i] >= sys.sessions[c].recv.next {
      assert sys.g.snd.seqs[i] <= sys.g.snd.nextSeq;
      AheadGoesBack(sys1, c, r, i);
    } else {
      FutureGoesBack(sys1, c, r);
    }
    GoesBackLater(sys, sys1, c);
  }

  /** The condition of NoTimeTravel is exact, step by step: a step that reads a request and makes an unsafe
      range pending opens a way back in time. */
  lemma UnsafeReadGoesBack(sys: System, c: nat)
    requires SystemInv(sys) && Enabled(sys, ReadRequest(c)) && SafeInv(sys.g, sys.sessions[c])
    requires !ReadsSafely(sys, ReadRequest(c), c) && RoomIn(sys.g, TakeRequest(sys.sessions[c]).clnt.union)
    ensures CanGoBack(Apply(sys, ReadRequest(c)), c)
  {
    OtherStepKeepsSound(sys.g, sys.sessions[c], ReadRequest(c));
    StepKeeps(sys, ReadRequest(c));
    hide SystemInv, SoundInv;
    UnsafeGoesBack(Apply(sys, ReadRequest(c)), c);
  }
}
