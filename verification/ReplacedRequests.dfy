/** What is lost when request_gap replaces a request that has not been written as a whole
    (src/receiver.c:147-148), whatever else is pending for that receiver. */
module ReplacedRequests {
  import opened Sequences
  import opened SenderModel
  import opened ReceiverModel
  import opened Protocol
  import opened ProtocolInvariants
  import opened Coverage
  import opened RequestFraming
  import opened Replication
  import opened CatchUp
  import opened LostUpdates

  /** The packet makes the receiver replace the request in its buffer. */
  predicate Replaces(g: Global, s: Session, step: Step) {
    && step.Deliver? && SessionEnabled(g, s, step)
    && s.recv.out.Some? && RequestsGap(s.recv, step.packet)
  }

  /** The record was last staged in the range of the request in the buffer, and no newer staging of it
      is to be expected. */
  ghost predicate Awaited(g: Global, s: Session, i: nat)
    requires Sized(g, s, i) && s.recv.out.Some?
  {
    && s.recv.out.value.Contains(g.snd.seqs[i]) && g.rev[i] > 0
    && (Queued(g, i) ==> g.snd.revs[i] == g.rev[i])
  }

  // ---------------------------------------------------------------- what is uncovered

  /** A record last staged in the replaced range is behind the new packet, which leaves it alone, and
      nothing that is pending otherwise reaches it. */
  lemma ReplacedIsForgotten(g: Global, s: Session, step: Step, i: nat)
    requires GlobalInv(g) && SessionInv(g, s) && Replaces(g, s, step) && Sized(g, s, i)
    requires s.recv.out.value.Contains(g.snd.seqs[i])
    ensures var s', n := SessionApply(g, s, step), g.snd.seqs[i];
      && Sized(g, s', i) && (s.sent == 0 ==> Framed(s')) && s'.recv.seqs[i] == s.recv.seqs[i] != n && s'.recv.vals[i] == s.recv.vals[i]
      && n < s'.recv.next && s'.recv.out.Some? && s'.recv.out.value.low > n
      && s'.clnt == s.clnt && s'.reqs == s.reqs && s'.resps == s.resps
  {
    assert g.snd.seqs[i] < s.recv.next && !s.recv.out.value.Contains(s.recv.seqs[i]);
    BehindIsLeftAlone(g, s, step.packet, i);
  }

  lemma ForgottenIsUncovered(g: Global, s: Session, step: Step, i: nat)
    requires GlobalInv(g) && SessionInv(g, s) && Replaces(g, s, step) && Covered(g, s, i)
    requires s.recv.out.value.Contains(g.snd.seqs[i])
    ensures Covered(g, SessionApply(g, s, step), i) <==> !Awaited(g, s, i)
  {
    var s', n := SessionApply(g, s, step), g.snd.seqs[i];
    ReplacedIsForgotten(g, s, step, i);
    assert UnansweredInv(s);
    assert !Requested(s', i, n) && !InFlight(s', i, n);
    hide GlobalInv, SessionInv, UnansweredInv, SessionApply, Requested, InFlight;
  }

  /** Coverage does not depend on how far the request in the buffer has been written, nor on the bytes of
      a stream without frames. */
  lemma CoveredIgnoresBytes(g: Global, s: Session, s': Session, i: nat)
    requires Covered(g, s, i) && s'.clnt == s.clnt && s'.recv == s.recv && s'.reqs == s.reqs && s'.resps == s.resps
    ensures Covered(g, s', i)
  {
  }

  /** Any other record is as well off as if the buffer had been empty. */
  lemma OthersStayCovered(g: Global, s: Session, step: Step, i: nat)
    requires GlobalInv(g) && SessionInv(g, s) && Replaces(g, s, step) && Covered(g, s, i)
    requires !s.recv.out.value.Contains(g.snd.seqs[i])
    ensures Covered(g, SessionApply(g, s, step), i)
  {
    var s0, p := s.(recv := s.recv.(out := None), sent := 0), step.packet;
    assert Covered(g, s0, i);
    assert SessionInv(g, s0) && SlotOk(s0);
    DeliverKeepsCovered(g, s0, step, i);
    assert Covered(g, SessionApply(g, s0, step), i);
    hide GlobalInv, SessionInv, Covered, EncodeRange;
    McastIgnoresOut(s.recv, p);
    CoveredIgnoresBytes(g, SessionApply(g, s0, step), SessionApply(g, s, step), i);
  }

  /** Replacing a request before its last byte is written uncovers exactly the records that were last
      staged in its range and await no newer staging, whatever requests, scans and responses are pending.
      If some of its bytes had been written, what the stream without frames may happen to ask for comes
      on top. */
  lemma ReplacedRequestLoses(g: Global, s: Session, step: Step, i: nat)
    requires GlobalInv(g) && SessionInv(g, s) && Replaces(g, s, step) && Covered(g, s, i)
    ensures Covered(g, SessionApply(g, s, step), i) <==> !Awaited(g, s, i)
  {
    if s.recv.out.value.Contains(g.snd.seqs[i]) {
      ForgottenIsUncovered(g, s, step, i);
    } else {
      OthersStayCovered(g, s, step, i);
      hide GlobalInv, SessionInv, Covered, Queued;
    }
  }

  lemma {:induction false} ApplyRecsIgnoresOut(r: Receiver, seqNo: int, recs: seq<Staged>)
    ensures ApplyRecs(r, seqNo, recs).next == r.next
    ensures ApplyRecs(r.(out := None), seqNo, recs) == ApplyRecs(r, seqNo, recs).(out := None)
  {
    if recs != [] { ApplyRecsIgnoresOut(r, seqNo, recs[..|recs| - 1]); }
  }

  lemma McastIgnoresOut(r: Receiver, p: Packet)
    requires RequestsGap(r, p)
    ensures McastOnRead(r.(out := None), p) == McastOnRead(r, p)
  {
    ApplyRecsIgnoresOut(r, p.hdr, p.recs);
  }

  // ---------------------------------------------------------------- what is lost for good

  /** Messages for the receiver, in the order in which they will arrive. */
  function InTransit(s: Session): seq<TcpMsg> {
    s.resps + (if s.clnt.out.Some? then [s.clnt.out.value] else [])
  }

  /** What the replica holds of record i, sequence and revision. */
  datatype Held = Held(seqNo: int, rev: nat)

  function Take(h: Held, m: TcpMsg, i: nat): Held {
    if m.Response? && m.id == i && m.seqNo > h.seqNo then Held(m.seqNo, m.rev) else h
  }

  function Arrived(h: Held, ms: seq<TcpMsg>, i: nat): Held
    decreases |ms|
  {
    if ms == [] then h else Arrived(Take(h, ms[0], i), ms[1..], i)
  }

  lemma {:induction false} ArrivedConcat(h: Held, a: seq<TcpMsg>, b: seq<TcpMsg>, i: nat)
    ensures Arrived(h, a + b, i) == Arrived(Arrived(h, a, i), b, i)
    decreases |a|
  {
    if a == [] {
      assert a + b == b;
    } else {
      assert (a + b)[1..] == a[1..] + b;
      ArrivedConcat(Take(h, a[0], i), a[1..], b, i);
    }
  }

  /** What the replica will hold once everything sent to it has arrived. */
  function Expected(s: Session, i: nat): nat
    requires i < |s.recv.seqs| && i < |s.recv.vals|
  {
    Arrived(Held(s.recv.seqs[i], s.recv.vals[i]), InTransit(s), i).rev
  }

  /** Nothing asked for reaches record i and no newer staging of it is to be expected. */
  ghost predicate Unasked(g: Global, s: Session, i: nat) {
    && Sized(g, s, i) && Framed(s) && g.rev[i] > 0 && (Queued(g, i) ==> g.snd.revs[i] == g.rev[i])
    && var n := g.snd.seqs[i];
       && n < s.recv.next && (s.recv.out.Some? ==> s.recv.out.value.low > n)
       && (forall k :: 0 <= k < |s.reqs| ==> s.reqs[k].high <= n)
       && (s.clnt.union == INVALID_RANGE || s.clnt.union.high <= n)
       && (s.clnt.reply.Valid() ==> s.clnt.reply.high <= n)
  }

  /** Everything sent to the receiver arrives in order, so a message queued behind the others changes
      what is expected of record i only if it is for record i. */
  lemma ExpectedAppend(s: Session, s': Session, m: TcpMsg, i: nat)
    requires i < |s.recv.seqs| && i < |s.recv.vals| && s'.recv == s.recv && InTransit(s') == InTransit(s) + [m]
    requires m.Response? ==> m.id != i
    ensures Expected(s', i) == Expected(s, i)
  {
    var h := Held(s.recv.seqs[i], s.recv.vals[i]);
    ArrivedConcat(h, InTransit(s), [m], i);
    var x := Arrived(h, InTransit(s), i);
    assert [m][1..] == [] && Arrived(x, [m], i) == Arrived(Take(x, m, i), [], i);
  }

  lemma ReadKeepsExpected(g: Global, s: Session, step: Step, i: nat)
    requires SessionInv(g, s) && step.ReadResponse? && SessionEnabled(g, s, step) && Sized(g, s, i)
    ensures var s' := SessionApply(g, s, step); Sized(g, s', i) && Expected(s', i) == Expected(s, i)
  {
    var s', m := SessionApply(g, s, step), s.resps[0];
    assert MsgOk(g, s.recv, m);
    assert InTransit(s)[0] == m && InTransit(s)[1..] == InTransit(s');
    assert Held(s'.recv.seqs[i], s'.recv.vals[i]) == Take(Held(s.recv.seqs[i], s.recv.vals[i]), m, i);
    hide SessionInv, TcpOnRead;
  }

  /** Working off what is queued or asked for changes neither what reaches record i nor what is
      expected of it. */
  lemma SessionStepKeepsUnasked(g: Global, s: Session, step: Step, c: nat, i: nat)
    requires GlobalInv(g) && SessionInv(g, s) && SessionEnabled(g, s, step) && Scheduled(step, c, false) && Unasked(g, s, i)
    ensures var g', s' := SessionGlobal(g, s, step), SessionApply(g, s, step);
      Unasked(g', s', i) && Expected(s', i) == Expected(s, i)
  {
    var g', s' := SessionGlobal(g, s, step), SessionApply(g, s, step);
    QueuedElsewhere(g, g', i);
    match step
    case ReadResponse(_) => ReadKeepsExpected(g, s, step, i); hide GlobalInv, SessionInv, Queued, Expected;
    case WriteOut(_) => assert InTransit(s') == InTransit(s); hide GlobalInv, SessionInv, Queued;
    case Scan(_) =>
      hide GlobalInv, Queued;
      if s'.clnt.out.Some? { ExpectedAppend(s, s', s'.clnt.out.value, i); }
    case QueueHeartbeat(_) =>
      hide GlobalInv, SessionInv, Queued;
      ExpectedAppend(s, s', Heartbeat, i);
    case ReadRequest(_) => assert InTransit(s') == InTransit(s); hide GlobalInv, SessionInv, Queued;
    case ReadBlocked(_) => assert InTransit(s') == InTransit(s); hide GlobalInv, SessionInv, Queued;
    case ScanDone(_) => assert InTransit(s') == InTransit(s); hide GlobalInv, SessionInv, Queued;
    case _ =>
  }

  lemma GlobalStepKeepsUnasked(g: Global, s: Session, step: Step, c: nat, i: nat)
    requires GlobalInv(g) && GlobalEnabled(g, step) && Scheduled(step, c, false) && Unasked(g, s, i)
    ensures Unasked(GlobalApply(g, step), s, i)
  {
    match step
    case LogChange => LogKeepsQueued(g, i);
    case Queue(canSend) =>
      QueueEffect(g, canSend, i);
      QueueParts(g, canSend);
      if g.log[g.snd.lastQ].id == i { assert g.log[g.snd.lastQ].id == i && Queued(g, i); }
  }

  lemma StepKeepsUnasked(sys: System, step: Step, c: nat, i: nat)
    requires SystemInv(sys) && Enabled(sys, step) && Scheduled(step, c, false) && c in sys.sessions
    requires Unasked(sys.g, sys.sessions[c], i)
    ensures var sys' := Apply(sys, step);
      && c in sys'.sessions && Unasked(sys'.g, sys'.sessions[c], i)
      && Expected(sys'.sessions[c], i) == Expected(sys.sessions[c], i) && sys'.g.rev == sys.g.rev
  {
    if IsGlobal(step) {
      GlobalStepKeepsUnasked(sys.g, sys.sessions[c], step, c, i);
    } else if step.c == c {
      SessionStepKeepsUnasked(sys.g, sys.sessions[c], step, c, i);
    } else {
      QueuedElsewhere(sys.g, Apply(sys, step).g, i);
    }
    hide GlobalInv, ConnectionInv, Queued, Expected, SessionApply, SessionEnabled, GlobalApply;
  }

  lemma {:induction false} PathKeepsUnasked(states: seq<System>, steps: seq<Step>, a: nat, b: nat, c: nat, i: nat)
    requires Path(states, steps) && SystemInv(states[0]) && a <= b < |states|
    requires forall k :: a <= k < b ==> Scheduled(steps[k], c, false)
    requires c in states[a].sessions && Unasked(states[a].g, states[a].sessions[c], i)
    ensures c in states[b].sessions && Unasked(states[b].g, states[b].sessions[c], i)
    ensures Expected(states[b].sessions[c], i) == Expected(states[a].sessions[c], i) && states[b].g.rev == states[a].g.rev
    decreases b - a
  {
    if a < b {
      PathKeeps(states, steps, a);
      hide SystemInv, Unasked, Expected, Scheduled, Apply, Enabled;
      StepKeepsUnasked(states[a], steps[a], c, i);
      PathKeepsUnasked(states, steps, a + 1, b, c, i);
    }
  }

  /** Once everything asked for is worked off, a record nobody asked for is lost. */
  lemma UnaskedIsDoomed(g: Global, s: Session, i: nat)
    requires GlobalInv(g) && SessionInv(g, s) && WorkedOff(g, s) && Unasked(g, s, i) && Expected(s, i) != g.rev[i]
    ensures Doomed(g, s, i)
  {
    assert InTransit(s) == [];
    assert g.snd.seqs[i] < SEQUENCE_MAX;
  }

  /** Right after the replacement. */
  lemma ReplacedIsUnasked(g: Global, s: Session, step: Step, i: nat)
    requires GlobalInv(g) && SessionInv(g, s) && Replaces(g, s, step) && s.sent == 0 && Sized(g, s, i) && Awaited(g, s, i)
    ensures var s' := SessionApply(g, s, step); Unasked(g, s', i) && Expected(s', i) == Expected(s, i)
  {
    ReplacedIsForgotten(g, s, step, i);
    assert UnansweredInv(s);
    assert InTransit(SessionApply(g, s, step)) == InTransit(s);
    hide GlobalInv, SessionInv, SessionApply, Queued;
  }

  lemma ReplacedInSystem(sys: System, c: nat, p: Packet, i: nat)
    requires Ready(sys, c) && Enabled(sys, Deliver(c, p)) && Replaces(sys.g, sys.sessions[c], Deliver(c, p))
    requires sys.sessions[c].sent == 0
    requires Sized(sys.g, sys.sessions[c], i) && Awaited(sys.g, sys.sessions[c], i)
    ensures var sys' := Apply(sys, Deliver(c, p));
      && Ready(sys', c) && sys'.g == sys.g
      && Unasked(sys'.g, sys'.sessions[c], i) && Expected(sys'.sessions[c], i) == Expected(sys.sessions[c], i)
  {
    assert SessionInv(sys.g, sys.sessions[c]);
    ReplacedIsUnasked(sys.g, sys.sessions[c], Deliver(c, p), i);
    StepKeeps(sys, Deliver(c, p));
    hide SystemInv, SessionInv, Room, SessionApply, Replaces, Awaited;
  }

  /** The older requests can be answered, without any commit, until nothing will bring the record. */
  lemma UnaskedCanBeLost(sys: System, c: nat, i: nat) returns (states: seq<System>, steps: seq<Step>)
    requires Ready(sys, c) && Unasked(sys.g, sys.sessions[c], i) && Expected(sys.sessions[c], i) != sys.g.rev[i]
    ensures Path(states, steps) && states[0] == sys && NoCommit(steps)
    ensures var last := states[|steps|]; c in last.sessions && Doomed(last.g, last.sessions[c], i)
  {
    ReadyFits(sys, c);
    assert SystemInv(sys);
    hide SystemInv, Ready, Fit, Expected, Unasked, Doomed, RankIn;
    states, steps := Settle([sys], [], 0, c, false, RankIn(sys, c));
    SettledWorksOff(sys, states, steps, c);
    PathKeepsUnasked(states, steps, 0, |steps|, c, i);
    EndsDoomed(states[|steps|], c, i);
  }

  lemma SettledWorksOff(sys: System, states: seq<System>, steps: seq<Step>, c: nat)
    requires Settled([sys], [], states, steps, 0, c, false)
    ensures Path(states, steps) && states[0] == sys && NoCommit(steps)
    ensures forall k :: 0 <= k < |steps| ==> Scheduled(steps[k], c, false)
    ensures var last := states[|steps|]; Ready(last, c) && WorkedOff(last.g, last.sessions[c])
  {
    assert [] + steps == steps;
    hide Path, Ready, WorkedOff, OrderlySince;
  }

  lemma EndsDoomed(sys: System, c: nat, i: nat)
    requires Ready(sys, c) && WorkedOff(sys.g, sys.sessions[c]) && Unasked(sys.g, sys.sessions[c], i)
    requires Expected(sys.sessions[c], i) != sys.g.rev[i]
    ensures Doomed(sys.g, sys.sessions[c], i)
  {
    UnaskedIsDoomed(sys.g, sys.sessions[c], i);
  }

  // ---------------------------------------------------------------- what is not

  /** The current value of record i is held or on its way, and no newer staging of it is to be expected. */
  ghost predicate Mended(g: Global, s: Session, i: nat) {
    && Sized(g, s, i) && Framed(s) && (Queued(g, i) ==> g.snd.revs[i] == g.rev[i])
    && g.snd.seqs[i] < s.recv.next && Expected(s, i) == g.rev[i]
  }

  lemma {:induction false} ArrivedOld(h: Held, ms: seq<TcpMsg>, i: nat)
    requires forall k :: 0 <= k < |ms| && ms[k].Response? && ms[k].id == i ==> ms[k].seqNo <= h.seqNo
    ensures Arrived(h, ms, i) == h
    decreases |ms|
  {
    if ms != [] { ArrivedOld(h, ms[1..], i); }
  }

  lemma {:induction false} ArrivedNever(h: Held, ms: seq<TcpMsg>, i: nat, rev: nat)
    requires h.rev != rev && forall k :: 0 <= k < |ms| && ms[k].Response? && ms[k].id == i ==> ms[k].rev != rev
    ensures Arrived(h, ms, i).rev != rev
    decreases |ms|
  {
    if ms != [] { ArrivedNever(Take(h, ms[0], i), ms[1..], i, rev); }
  }

  lemma MendedIsNotDoomed(g: Global, s: Session, i: nat)
    requires GlobalInv(g) && SessionInv(g, s) && Mended(g, s, i)
    ensures !Doomed(g, s, i)
  {
    var h, ms := Held(s.recv.seqs[i], s.recv.vals[i]), InTransit(s);
    assert forall k :: 0 <= k < |s.resps| ==> MsgOk(g, s.recv, s.resps[k]);
    hide GlobalInv, ReceiverInv, RequestsInv, UnansweredInv, ScanInv, Queued, Captured;
    if Doomed(g, s, i) {
      if s.recv.seqs[i] == g.snd.seqs[i] {
        ArrivedOld(h, ms, i);
      } else {
        ArrivedNever(h, ms, i, g.rev[i]);
      }
    }
  }

  lemma ExpectedAnswer(s: Session, s': Session, m: TcpMsg, i: nat)
    requires i < |s.recv.seqs| && i < |s.recv.vals| && s'.recv == s.recv && InTransit(s') == InTransit(s) + [m]
    requires m.Response? && m.rev == Expected(s, i)
    ensures Expected(s', i) == Expected(s, i)
  {
    var h := Held(s.recv.seqs[i], s.recv.vals[i]);
    ArrivedConcat(h, InTransit(s), [m], i);
    var x := Arrived(h, InTransit(s), i);
    assert [m][1..] == [] && Arrived(x, [m], i) == Arrived(Take(x, m, i), [], i);
  }

  lemma DeliverKeepsMended(g: Global, s: Session, step: Step, i: nat)
    requires GlobalInv(g) && SessionInv(g, s) && step.Deliver? && SessionEnabled(g, s, step) && Mended(g, s, i)
    requires Framed(SessionApply(g, s, step))
    ensures Mended(g, SessionApply(g, s, step), i)
  {
    BehindIsLeftAlone(g, s, step.packet, i);
    hide GlobalInv, SessionInv, Queued, HearPacket, RequestsGap;
    assert InTransit(SessionApply(g, s, step)) == InTransit(s);
  }

  lemma ScanKeepsMended(g: Global, s: Session, step: Step, i: nat)
    requires step.Scan? && SessionEnabled(g, s, step) && Mended(g, s, i)
    ensures Mended(g, SessionApply(g, s, step), i)
  {
    var s' := SessionApply(g, s, step);
    hide Queued;
    if s'.clnt.out.None? {
      assert InTransit(s') == InTransit(s);
    } else if s.clnt.replyId == i {
      ExpectedAnswer(s, s', s'.clnt.out.value, i);
    } else {
      ExpectedAppend(s, s', s'.clnt.out.value, i);
    }
    hide Expected;
  }

  /** A step that neither reads nor adds a message. */
  lemma QuietStepKeepsMended(g: Global, s: Session, step: Step, i: nat)
    requires SessionEnabled(g, s, step) && Mended(g, s, i) && Framed(SessionApply(g, s, step))
    requires step.WriteOut? || step.SendRequest? || step.ReadRequest? || step.ReadBlocked? || step.ScanDone?
    ensures Mended(g, SessionApply(g, s, step), i)
  {
    hide Queued, EncodeRange;
    assert InTransit(SessionApply(g, s, step)) == InTransit(s);
  }

  lemma SessionStepKeepsMended(g: Global, s: Session, step: Step, i: nat)
    requires GlobalInv(g) && SessionInv(g, s) && SessionEnabled(g, s, step) && Mended(g, s, i)
    requires Framed(SessionApply(g, s, step))
    ensures Mended(SessionGlobal(g, s, step), SessionApply(g, s, step), i)
  {
    var g', s' := SessionGlobal(g, s, step), SessionApply(g, s, step);
    QueuedElsewhere(g, g', i);
    match step
    case Deliver(_, _) => DeliverKeepsMended(g, s, step, i);
    case ReadResponse(_) => ReadKeepsExpected(g, s, step, i); hide GlobalInv, SessionInv, Queued, Expected;
    case Scan(_) => hide GlobalInv, SessionInv, Queued, Expected; ScanKeepsMended(g, s, step, i);
    case QueueHeartbeat(_) =>
      hide GlobalInv, SessionInv, Queued;
      ExpectedAppend(s, s', Heartbeat, i);
    case WriteOut(_) => hide GlobalInv, SessionInv, Queued, Expected; QuietStepKeepsMended(g, s, step, i);
    case SendRequest(_, _) => hide GlobalInv, SessionInv, Queued, Expected; QuietStepKeepsMended(g, s, step, i);
    case ReadRequest(_) => hide GlobalInv, SessionInv, Queued, Expected; QuietStepKeepsMended(g, s, step, i);
    case ReadBlocked(_) => hide GlobalInv, SessionInv, Queued, Expected; QuietStepKeepsMended(g, s, step, i);
    case ScanDone(_) => hide GlobalInv, SessionInv, Queued, Expected; QuietStepKeepsMended(g, s, step, i);
    case _ =>
  }

  lemma GlobalStepKeepsMended(g: Global, s: Session, step: Step, i: nat)
    requires GlobalInv(g) && GlobalEnabled(g, step) && step != Commit(i) && Mended(g, s, i)
    ensures Mended(GlobalApply(g, step), s, i)
  {
    match step
    case Commit(_) => QueuedElsewhere(g, g, i);
    case LogChange => LogKeepsQueued(g, i);
    case Queue(canSend) =>
      QueueEffect(g, canSend, i);
      QueueParts(g, canSend);
      if g.log[g.snd.lastQ].id == i { assert Queued(g, i); }
    case Flush => QueuedElsewhere(g, GlobalApply(g, step), i);
    case Beat => QueuedElsewhere(g, GlobalApply(g, step), i);
  }

  lemma StepKeepsMended(sys: System, step: Step, c: nat, i: nat)
    requires SystemInv(sys) && Enabled(sys, step) && step != Commit(i)
    requires c in sys.sessions && c in Apply(sys, step).sessions && Framed(Apply(sys, step).sessions[c])
    requires Mended(sys.g, sys.sessions[c], i)
    ensures Mended(Apply(sys, step).g, Apply(sys, step).sessions[c], i)
  {
    if IsGlobal(step) {
      GlobalStepKeepsMended(sys.g, sys.sessions[c], step, i);
    } else if !step.Accept? && !step.Hup? {
      if step.c == c {
        SessionStepKeepsMended(sys.g, sys.sessions[c], step, i);
      } else {
        QueuedElsewhere(sys.g, Apply(sys, step).g, i);
      }
    }
    hide GlobalInv, ConnectionInv, Queued, Expected, SessionApply, SessionEnabled, GlobalApply;
  }

  /** If a response already on its way carries the current value, the update is not lost: no state
      reached without another commit of the record, and with the frames intact, is doomed. */
  lemma {:induction false} MendedIsNeverDoomed(states: seq<System>, steps: seq<Step>, a: nat, b: nat, c: nat, i: nat)
    requires Path(states, steps) && SystemInv(states[0]) && a <= b < |states|
    requires c in states[a].sessions && c in states[b].sessions && Framed(states[b].sessions[c])
    requires Mended(states[a].g, states[a].sessions[c], i) && forall k :: a <= k < b ==> steps[k] != Commit(i)
    ensures !Doomed(states[b].g, states[b].sessions[c], i)
    decreases b - a
  {
    PathKeeps(states, steps, a);
    if a < b {
      StaysConnected(states, steps, c, a + 1, b);
      FramedAllAlong(states, steps, c, a + 1, b);
      StepKeepsMended(states[a], steps[a], c, i);
      MendedIsNeverDoomed(states, steps, a + 1, b, c, i);
    } else {
      MendedIsNotDoomed(states[b].g, states[b].sessions[c], i);
    }
  }

  /** Without another commit, some way leads to a state in which the update of record i is lost. */
  ghost predicate CanBeLost(sys: System, c: nat, i: nat) {
    exists states: seq<System>, steps: seq<Step> :: Path(states, steps) && states[0] == sys && NoCommit(steps)
      && c in states[|steps|].sessions && Doomed(states[|steps|].g, states[|steps|].sessions[c], i)
  }

  /** If nothing of it had been written, an update that the replaced request was for can be lost for good if and only if what the replica
      holds, with everything already sent to it, is not the current value. */
  lemma ReplacedLossIsExact(sys: System, c: nat, p: Packet, i: nat)
    requires Ready(sys, c) && Enabled(sys, Deliver(c, p)) && Replaces(sys.g, sys.sessions[c], Deliver(c, p))
    requires sys.sessions[c].sent == 0
    requires Sized(sys.g, sys.sessions[c], i) && Awaited(sys.g, sys.sessions[c], i)
    ensures CanBeLost(Apply(sys, Deliver(c, p)), c, i) <==> Expected(sys.sessions[c], i) != sys.g.rev[i]
  {
    ReplacedInSystem(sys, c, p, i);
    var sys1 := Apply(sys, Deliver(c, p));
    hide Apply, Enabled, Replaces, Awaited, Expected, Doomed;
    if Expected(sys.sessions[c], i) != sys.g.rev[i] {
      var states, steps := UnaskedCanBeLost(sys1, c, i);
    } else if CanBeLost(sys1, c, i) {
      var states: seq<System>, steps: seq<Step> :| Path(states, steps) && states[0] == sys1 && NoCommit(steps)
        && c in states[|steps|].sessions && Doomed(states[|steps|].g, states[|steps|].sessions[c], i);
      DoomedIsFramed(states[|steps|], c, i);
      hide SystemInv, Room, Path;
      MendedIsNeverDoomed(states, steps, 0, |steps|, c, i);
    }
  }

  lemma DoomedIsFramed(sys: System, c: nat, i: nat)
    requires c in sys.sessions && Doomed(sys.g, sys.sessions[c], i)
    ensures Framed(sys.sessions[c])
  {
  }
}
