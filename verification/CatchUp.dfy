/** The replica can always catch up: whatever was lost so far, whatever is queued and whatever is half
    done, there is a way forward, without any further commit, to a state in which nothing is in motion.

    The way is a schedule: the first of a fixed list of steps that is not yet done. Every step of the
    schedule lowers a rank, so the schedule ends, and it ends only when nothing is in motion. The same
    schedule without the steps that ask for repairs settles what has been asked for already. */
module CatchUp {
  import opened Sequences
  import opened SenderModel
  import opened ReceiverModel
  import opened Protocol
  import opened ProtocolInvariants
  import opened Coverage
  import opened RequestFraming
  import opened Replication

  function One(b: bool): nat { if b then 1 else 0 }

  /** The entry at the sender's queue index is for a change that is not staged yet. */
  predicate Unstaged(g: Global) {
    && g.snd.lastQ < |g.log| && g.log[g.snd.lastQ].id < |g.rev| == |g.snd.revs|
    && g.snd.revs[g.log[g.snd.lastQ].id] != g.rev[g.log[g.snd.lastQ].id]
  }

  /** Bounds the turns of the queue loop still needed. A turn that sends a packet does not move the
      index on, but it stages the record, so the next turn skips the entry. */
  function Backlog(g: Global): nat
    requires g.snd.lastQ <= |g.log|
  {
    4 * One(g.unlogged.Some?) + 2 * (|g.log| - g.snd.lastQ) + One(Unstaged(g))
  }

  /** There are sequences left for what is queued and buffered. */
  predicate Room(g: Global) {
    g.snd.lastQ <= |g.log| && g.snd.nextSeq + Backlog(g) + One(g.snd.pkt != []) < SEQUENCE_MAX
  }

  function Beacon(g: Global): Packet { Packet(-g.snd.nextSeq, []) }

  /** Which step the schedule takes next, if anything is in motion. With `mend`, gaps are discovered
      and requests sent; without it, only what is queued or asked for already is worked off. */
  function Next(g: Global, s: Session, c: nat, mend: bool): Option<Step> {
    if g.unlogged.Some? then Some(LogChange)
    else if g.snd.lastQ < |g.log| then Some(Queue(true))
    else if mend && g.snd.pkt != [] then Some(Flush)
    else if mend && s.recv.out.Some? then Some(SendRequest(c, if s.sent < FRAME then FRAME - s.sent else 0))
    else if mend && s.recv.next < g.snd.nextSeq then Some(if Beacon(g) in g.net then Deliver(c, Beacon(g)) else Beat)
    else if s.reqs != [] then Some(ReadRequest(c))
    else if s.clnt.out.Some? then Some(WriteOut(c))
    else if s.clnt.reply.Valid() then Some(if s.clnt.replyId < |g.rev| then Scan(c) else ScanDone(c))
    else if s.clnt.union.Valid() then Some(ReadBlocked(c))
    else if s.resps != [] then Some(ReadResponse(c))
    else None
  }

  /** Nothing queued or asked for is left. */
  predicate WorkedOff(g: Global, s: Session) {
    && g.unlogged.None? && g.snd.lastQ == |g.log|
    && s.reqs == [] && !s.clnt.union.Valid() && !s.clnt.reply.Valid() && s.clnt.out.None? && s.resps == []
  }

  /** The kinds of steps in the schedule. */
  predicate Scheduled(step: Step, c: nat, mend: bool) {
    && !step.Commit? && !step.Accept? && !step.Hup?
    && (!mend ==> !step.Flush? && !step.Beat? && !step.SendRequest? && !step.Deliver?)
  }

  /** What is left to do, most important first. */
  datatype Rank = Rank(backlog: nat, pkt: nat, gap: nat, beacon: nat, request: nat, reqs: nat, union: nat, scan: nat, out: nat, resps: nat)

  function RankOf(g: Global, s: Session): Rank
    requires g.snd.lastQ <= |g.log| && s.recv.next <= g.snd.nextSeq
    requires s.clnt.reply.Valid() ==> s.clnt.replyId <= |g.rev|
  {
    Rank(Backlog(g), |g.snd.pkt|, g.snd.nextSeq - s.recv.next, One(Beacon(g) !in g.net), One(s.recv.out.Some?), |s.reqs|,
         One(s.clnt.union.Valid()), if s.clnt.reply.Valid() then |g.rev| - s.clnt.replyId + 1 else 0,
         One(s.clnt.out.Some?), |s.resps|)
  }

  predicate Lower(r: Rank, q: Rank) {
    if r.backlog != q.backlog then r.backlog < q.backlog
    else if r.pkt != q.pkt then r.pkt < q.pkt
    else if r.gap != q.gap then r.gap < q.gap
    else if r.beacon != q.beacon then r.beacon < q.beacon
    else if r.request != q.request then r.request < q.request
    else if r.reqs != q.reqs then r.reqs < q.reqs
    else if r.union != q.union then r.union < q.union
    else if r.scan != q.scan then r.scan < q.scan
    else if r.out != q.out then r.out < q.out
    else r.resps < q.resps
  }

  /** What the schedule needs of a state, and what the invariants give. */
  predicate Fit(g: Global, s: Session) {
    && Room(g) && s.recv.next <= g.snd.nextSeq && 1 <= g.snd.nextSeq
    && 0 < |g.rev| == |g.snd.revs| == |g.snd.seqs|
    && Framed(s) && SlotOk(s)
    && 0 < g.snd.perPkt && (g.snd.pkt != [] ==> g.snd.hdr == g.snd.nextSeq)
    && (g.snd.lastQ < |g.log| ==> g.log[g.snd.lastQ].id < |g.rev|)
    && (s.clnt.reply.Valid() ==> s.clnt.replyId <= |g.rev|)
    && (s.reqs != [] ==> s.reqs[0].Valid())
    && (s.resps != [] && s.resps[0].Response? ==> s.resps[0].id < |s.recv.seqs|)
  }

  lemma InvFits(g: Global, s: Session)
    requires GlobalInv(g) && SessionInv(g, s) && Room(g)
    ensures Fit(g, s)
  {
    if g.snd.lastQ < |g.log| { assert ChangeOk(g, g.log[g.snd.lastQ]); }
    if s.reqs != [] { assert RequestOk(s.reqs[0], s.recv.next); }
    if s.resps != [] { assert MsgOk(g, s.recv, s.resps[0]); }
  }

  /** When the schedule has no step, nothing is in motion. */
  lemma NothingLeft(g: Global, s: Session, c: nat, mend: bool)
    requires Fit(g, s) && Next(g, s, c, mend).None?
    ensures WorkedOff(g, s) && (mend ==> Quiescent(g, s))
  {
  }

  /** A turn of the queue loop stages the entry or passes it. */
  lemma QueueLowers(g: Global, s: Session)
    requires Fit(g, s) && g.unlogged.None? && g.snd.lastQ < |g.log|
    ensures GlobalEnabled(g, Queue(true))
    ensures var g' := GlobalApply(g, Queue(true));
      && Room(g') && g'.rev == g.rev && Backlog(g') < Backlog(g) && g'.snd.nextSeq >= g.snd.nextSeq
  {
  }

  /** A step of the multicast half lowers the backlog or empties the buffer, and leaves room. */
  lemma GlobalNext(g: Global, s: Session, c: nat, mend: bool)
    requires Fit(g, s) && Next(g, s, c, mend).Some? && IsGlobal(Next(g, s, c, mend).value)
    ensures var step := Next(g, s, c, mend).value;
      && GlobalEnabled(g, step) && Scheduled(step, c, mend)
      && var g' := GlobalApply(g, step);
         Room(g') && g'.rev == g.rev && (Fit(g', s) ==> Lower(RankOf(g', s), RankOf(g, s)))
  {
    if Next(g, s, c, mend).value.Queue? {
      QueueLowers(g, s);
      hide Backlog, Room, GlobalApply, GlobalEnabled;
    }
  }

  lemma SessionNextEnabled(g: Global, s: Session, c: nat, mend: bool)
    requires Fit(g, s) && Next(g, s, c, mend).Some? && !IsGlobal(Next(g, s, c, mend).value)
    ensures var step := Next(g, s, c, mend).value;
      Scheduled(step, c, mend) && step.c == c && SessionEnabled(g, s, step) && Orderly(s, step)
  {
  }

  /** A scan that ends changes nothing here but the session. */
  lemma MinSeqKeepsRoom(g: Global, s: Session, step: Step)
    requires Room(g)
    ensures var g' := SessionGlobal(g, s, step);
      Room(g') && Backlog(g') == Backlog(g) && g' == g.(snd := g.snd.(minSeq := g'.snd.minSeq))
  {
  }

  /** A step of the connection leaves the shared part alone and lowers the rank. */
  lemma SessionNext(g: Global, s: Session, c: nat, mend: bool)
    requires Fit(g, s) && Next(g, s, c, mend).Some? && !IsGlobal(Next(g, s, c, mend).value)
    ensures var step := Next(g, s, c, mend).value;
      && Scheduled(step, c, mend) && step.c == c && SessionEnabled(g, s, step) && Orderly(s, step)
      && var g', s' := SessionGlobal(g, s, step), SessionApply(g, s, step);
         Room(g') && g'.rev == g.rev && (Fit(g', s') ==> Lower(RankOf(g', s'), RankOf(g, s)))
  {
    var step := Next(g, s, c, mend).value;
    SessionNextEnabled(g, s, c, mend);
    MinSeqKeepsRoom(g, s, step);
    hide Room, Backlog, SessionEnabled, Orderly, ScanOne, UpdateRecord, TcpOnRead, ApplyRecs, EncodeRange, FrameOf;
  }

  ghost predicate Ready(sys: System, c: nat) {
    SystemInv(sys) && c in sys.sessions && Framed(sys.sessions[c]) && Room(sys.g)
  }

  lemma ReadyFits(sys: System, c: nat)
    requires Ready(sys, c)
    ensures Fit(sys.g, sys.sessions[c])
  {
    InvFits(sys.g, sys.sessions[c]);
  }

  function NextIn(sys: System, c: nat, mend: bool): Option<Step>
    requires c in sys.sessions
  {
    Next(sys.g, sys.sessions[c], c, mend)
  }

  function RankIn(sys: System, c: nat): Rank
    requires c in sys.sessions && Fit(sys.g, sys.sessions[c])
  {
    RankOf(sys.g, sys.sessions[c])
  }

  /** One step of the schedule. */
  lemma NextStep(sys: System, c: nat, mend: bool)
    requires Ready(sys, c) && NextIn(sys, c, mend).Some?
    ensures var step := NextIn(sys, c, mend).value;
      && Enabled(sys, step) && Scheduled(step, c, mend)
      && (step.Deliver? ==> step.c == c && Orderly(sys.sessions[c], step))
      && var sys' := Apply(sys, step);
         && Ready(sys', c) && sys'.g.rev == sys.g.rev
         && Fit(sys.g, sys.sessions[c]) && Fit(sys'.g, sys'.sessions[c]) && Lower(RankIn(sys', c), RankIn(sys, c))
  {
    var step := NextIn(sys, c, mend).value;
    ReadyFits(sys, c);
    hide SystemInv, Next, Room, RankOf, Lower, Fit, Orderly, SessionApply, SessionEnabled, GlobalApply, GlobalEnabled;
    if IsGlobal(step) {
      GlobalNext(sys.g, sys.sessions[c], c, mend);
    } else {
      SessionNext(sys.g, sys.sessions[c], c, mend);
    }
    StepKeeps(sys, step);
    StepKeepsFramed(sys, step, c);
    ReadyFits(Apply(sys, step), c);
  }

  predicate AllScheduled(steps: seq<Step>, c: nat, mend: bool) {
    forall k :: 0 <= k < |steps| ==> Scheduled(steps[k], c, mend)
  }

  lemma OrderlyExtends(states: seq<System>, steps: seq<Step>, states': seq<System>, step: Step, a: nat, c: nat)
    requires |states| == |steps| + 1 && states <= states' && |states'| == |states| + 1
    requires OrderlySince(states, steps, a, c)
    requires step.Deliver? && step.c == c && c in states[|steps|].sessions ==> Orderly(states[|steps|].sessions[c], step)
    ensures OrderlySince(states', steps + [step], a, c)
  {
    forall k | 0 <= k < |states| ensures states'[k] == states[k] {}
  }

  /** The path goes on from its last state, by `tail`, to a state in which nothing is in motion. */
  ghost predicate Settled(states: seq<System>, steps: seq<Step>, states': seq<System>, tail: seq<Step>, a: nat, c: nat, mend: bool)
    requires |states| == |steps| + 1
  {
    && Path(states', steps + tail) && states <= states' && AllScheduled(tail, c, mend)
    && OrderlySince(states', steps + tail, a, c)
    && var last, last' := states[|steps|], states'[|steps + tail|];
       && last'.g.rev == last.g.rev && Ready(last', c)
       && WorkedOff(last'.g, last'.sessions[c]) && (mend ==> Quiescent(last'.g, last'.sessions[c]))
  }

  lemma SettledLater(states: seq<System>, steps: seq<Step>, states1: seq<System>, step: Step,
                     states': seq<System>, rest: seq<Step>, a: nat, c: nat, mend: bool)
    requires |states| == |steps| + 1 && |states1| == |states| + 1 && states <= states1
    requires Scheduled(step, c, mend) && states1[|states|].g.rev == states[|steps|].g.rev
    requires Settled(states1, steps + [step], states', rest, a, c, mend)
    ensures Settled(states, steps, states', [step] + rest, a, c, mend)
  {
    hide Path, OrderlySince, Quiescent, WorkedOff, Ready, Scheduled;
    assert steps + [step] + rest == steps + ([step] + rest);
  }

  /** Runs the schedule to its end; r is the rank it starts from. */
  lemma {:induction false} Settle(states: seq<System>, steps: seq<Step>, a: nat, c: nat, mend: bool, r: Rank)
    returns (states': seq<System>, tail: seq<Step>)
    requires Path(states, steps) && Ready(states[|steps|], c) && OrderlySince(states, steps, a, c)
    requires Fit(states[|steps|].g, states[|steps|].sessions[c]) && r == RankIn(states[|steps|], c)
    ensures Settled(states, steps, states', tail, a, c, mend)
    decreases r.backlog, r.pkt, r.gap, r.beacon, r.request, r.reqs, r.union, r.scan, r.out, r.resps
  {
    var sys := states[|steps|];
    var next := NextIn(sys, c, mend);
    if next.None? {
      NothingLeft(sys.g, sys.sessions[c], c, mend);
      hide Path, OrderlySince, Quiescent, WorkedOff, Ready, Fit;
      assert steps + [] == steps;
      return states, [];
    }
    NextStep(sys, c, mend);
    var sys1 := Apply(sys, next.value);
    hide Settled, Ready, Fit, Next, RankIn, OrderlySince, Enabled, Apply, Orderly, Scheduled;
    var states1, steps1 := Extend(states, steps, next.value);
    OrderlyExtends(states, steps, states1, next.value, a, c);
    var rest;
    states', rest := Settle(states1, steps1, a, c, mend, RankIn(sys1, c));
    tail := [next.value] + rest;
    SettledLater(states, steps, states1, next.value, states', rest, a, c, mend);
  }

  predicate NoCommit(steps: seq<Step>) { forall k :: 0 <= k < |steps| ==> !steps[k].Commit? }

  /** A record staged at its current revision stays so until it is committed again. */
  lemma StepKeepsStaged(sys: System, step: Step, i: nat)
    requires SystemInv(sys) && Enabled(sys, step) && step != Commit(i)
    requires i < |sys.g.snd.revs| == |sys.g.rev| && sys.g.snd.revs[i] == sys.g.rev[i]
    ensures var g' := Apply(sys, step).g; i < |g'.snd.revs| == |g'.rev| && g'.snd.revs[i] == g'.rev[i]
  {
    if step.Queue? { QueueEffect(sys.g, step.canSend, i); }
    hide HistInv, NetInv, LogInv, SessionApply, SessionEnabled;
  }

  lemma {:induction false} StagedStays(states: seq<System>, steps: seq<Step>, a: nat, b: nat, i: nat)
    requires Path(states, steps) && SystemInv(states[0]) && a <= b < |states| && forall k :: a <= k < b ==> !steps[k].Commit?
    requires i < |states[a].g.snd.revs| == |states[a].g.rev| && states[a].g.snd.revs[i] == states[a].g.rev[i]
    ensures i < |states[b].g.snd.revs| == |states[b].g.rev| && states[b].g.snd.revs[i] == states[b].g.rev[i]
    decreases b - a
  {
    if a < b {
      PathKeeps(states, steps, a);
      StepKeepsStaged(states[a], steps[a], i);
      StagedStays(states, steps, a + 1, b, i);
    }
  }

  /** What is accounted for stays so while the schedule runs. */
  lemma AccountedStays(states: seq<System>, steps: seq<Step>, states': seq<System>, tail: seq<Step>, a: nat, i: nat)
    requires Path(states, steps) && SystemInv(states[0]) && a <= |steps| && Accounted(states, steps, a, |steps|, i)
    requires Path(states', steps + tail) && states <= states' && NoCommit(tail)
    ensures Accounted(states', steps + tail, a, |steps + tail|, i)
  {
    var n, steps' := |steps|, steps + tail;
    assert states'[0] == states[0] && states'[a] == states[a] && states'[n] == states[n];
    assert forall k :: 0 <= k < n ==> steps'[k] == steps[k];
    if k :| a <= k < n && steps[k] == Commit(i) {
      assert steps'[k] == Commit(i);
    } else if SkippedChange(states[a].g, i) {
      forall k | n <= k < |steps'| ensures !steps'[k].Commit? { assert steps'[k] == tail[k - n]; }
      StagedStays(states', steps', n, |steps'|, i);
    }
  }

  /** From every state that an orderly receiver is in, its replica can be brought to equal the storage as
      it stands, without any further commit, in every record that is accounted for, as long as there are
      sequences left for what is queued. */
  lemma ReplicaCanCatchUp(states: seq<System>, steps: seq<Step>, a: nat, c: nat)
    returns (states': seq<System>, tail: seq<Step>)
    requires Path(states, steps) && SystemInv(states[0]) && a <= |steps|
    requires Connected(states[a], c) && OrderlySince(states, steps, a, c)
    requires c in states[|steps|].sessions && Room(states[|steps|].g)
    ensures Path(states', steps + tail) && states <= states' && NoCommit(tail)
    ensures var last, last' := states[|steps|], states'[|steps + tail|];
      && c in last'.sessions && last'.g.rev == last.g.rev && |last'.sessions[c].recv.vals| == |last.g.rev|
      && (forall i :: 0 <= i < |last.g.rev| && Accounted(states, steps, a, |steps|, i) ==> last'.sessions[c].recv.vals[i] == last.g.rev[i])
      && ((forall i :: 0 <= i < |last.g.rev| ==> Accounted(states, steps, a, |steps|, i)) ==> last'.sessions[c].recv.vals == last.g.rev)
  {
    var sys := states[|steps|];
    PathKeeps(states, steps, |steps|);
    OrderlyFromFramed(states, steps, a, |steps|, c);
    ReadyFits(sys, c);
    states', tail := Settle(states, steps, a, c, true, RankIn(sys, c));
    SettledQuietly(states, steps, states', tail, a, c);
    assert states'[a] == states[a] && states'[0] == states[0];
    hide SystemInv, Ready, Fit, Settled, Accounted, Room;
    forall i | 0 <= i < |sys.g.rev| && Accounted(states, steps, a, |steps|, i)
      ensures Accounted(states', steps + tail, a, |steps + tail|, i)
    {
      AccountedStays(states, steps, states', tail, a, i);
    }
    ReplicaConverges(states', steps + tail, a, |steps + tail|, c);
  }

  lemma SettledQuietly(states: seq<System>, steps: seq<Step>, states': seq<System>, tail: seq<Step>, a: nat, c: nat)
    requires |states| == |steps| + 1 && Settled(states, steps, states', tail, a, c, true)
    ensures Path(states', steps + tail) && states <= states' && NoCommit(tail) && OrderlySince(states', steps + tail, a, c)
    ensures var last' := states'[|steps + tail|];
      && last'.g.rev == states[|steps|].g.rev && c in last'.sessions && Framed(last'.sessions[c])
      && Quiescent(last'.g, last'.sessions[c])
    ensures forall k :: |steps| <= k < |steps + tail| ==> !(steps + tail)[k].Commit?
  {
    hide Path, OrderlySince, Quiescent, WorkedOff, SystemInv;
    forall k | |steps| <= k < |steps + tail| ensures !(steps + tail)[k].Commit? { assert (steps + tail)[k] == tail[k - |steps|]; }
  }
}
