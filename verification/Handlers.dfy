/** The handlers' loops are made of protocol steps. While the sender is inside a handler, the writer and
    the receivers run on: a call of mcast_on_write or of tcp_on_write is a stretch of a path on which
    the sender takes its turns and everybody else takes any steps in between. */
module Handlers {
  import opened Sequences
  import opened SenderModel
  import opened Protocol
  import opened ProtocolInvariants
  import opened Replication
  import opened GapScan
  import opened SenderProcess

  /** Steps of the writer and of the receivers. */
  predicate IsOutside(step: Step) {
    step.Commit? || step.LogChange? || step.Deliver? || step.SendRequest? || step.ReadResponse?
  }

  /** They leave the sender and its clients alone and only append to the change queue. */
  lemma OutsideKeepsSender(sys: System, step: Step)
    requires Enabled(sys, step) && IsOutside(step)
    ensures var sys' := Apply(sys, step);
      && sys'.g.snd == sys.g.snd && |sys'.g.rev| == |sys.g.rev| && sys.g.log <= sys'.g.log
      && sys'.sessions.Keys == sys.sessions.Keys
      && forall c :: c in sys.sessions ==> sys'.sessions[c].clnt == sys.sessions[c].clnt
  {
  }

  // ---------------------------------------------------------------- mcast_on_write

  function LogIds(log: seq<Change>): seq<nat> { seq(|log|, q requires 0 <= q < |log| => log[q].id) }

  /** Wherever the writer and the receivers have taken the system, the next turn is an enabled step. */
  lemma QueueTurnIsStep(sys: System, canSend: bool)
    requires SystemInv(sys) && sys.sessions != map[] && sys.g.snd.nextSeq + 1 < SEQUENCE_MAX
    requires sys.g.snd.lastQ < |sys.g.log|
    ensures Enabled(sys, Queue(canSend))
  {
    assert ChangeOk(sys.g, sys.g.log[sys.g.snd.lastQ]);
  }

  lemma TurnEffect(sys: System, canSend: bool)
    requires SystemInv(sys) && Enabled(sys, Queue(canSend))
    ensures var id, sys' := sys.g.log[sys.g.snd.lastQ].id, Apply(sys, Queue(canSend));
      && id < |sys.g.rev| == |sys.g.snd.revs| == |sys.g.snd.seqs|
      && sys'.g.snd == QueueTurn(sys.g.snd, id, sys.g.rev[id], canSend).0
      && sys'.g.log == sys.g.log && sys'.g.rev == sys.g.rev && sys'.sessions == sys.sessions
      && (var o := QueueTurn(sys.g.snd, id, sys.g.rev[id], canSend).1;
          o.Skipped? || o.Appended? ==> sys'.g.snd.lastQ == sys.g.snd.lastQ + 1)
  {
  }

  /** The turn that a Queue step would take here leaves the loop. */
  predicate Leaves(sys: System, canSend: bool)
    requires Enabled(sys, Queue(canSend))
  {
    var id := sys.g.log[sys.g.snd.lastQ].id;
    var o := QueueTurn(sys.g.snd, id, sys.g.rev[id], canSend).1;
    o.Blocked? || o.Flushed?
  }

  /** A call of mcast_on_write that found the queue's head at |ids|: outside steps and turns, no turn
      after one that leaves the loop, and turns until the loop is left or the head reached. In each
      turn, first and copied are what the handler reads: the step is taken when the revision that
      counts is read. */
  predicate QueueCall(states: seq<System>, steps: seq<Step>, ids: seq<nat>, first: seq<nat>, copied: seq<nat>, canSend: bool)
    requires Path(states, steps) && |ids| == |first| == |copied|
  {
    && ids <= LogIds(states[0].g.log) && states[0].g.snd.lastQ <= |ids|
    && (forall k :: 0 <= k < |steps| ==> IsOutside(steps[k]) || TurnAt(states[k], steps[k], ids, first, copied, canSend))
    && (forall k, k' :: 0 <= k < k' < |steps| && steps[k] == Queue(canSend) && Leaves(states[k], canSend) ==> IsOutside(steps[k']))
    && (states[|steps|].g.snd.lastQ == |ids| ||
        exists k :: 0 <= k < |steps| && steps[k] == Queue(canSend) && Leaves(states[k], canSend))
  }

  predicate TurnAt(sys: System, step: Step, ids: seq<nat>, first: seq<nat>, copied: seq<nat>, canSend: bool)
    requires |ids| == |first| == |copied|
  {
    var q := sys.g.snd.lastQ;
    && step == Queue(canSend) && q < |ids| && ids[q] < |sys.g.rev| == |sys.g.snd.revs|
    && sys.g.rev[ids[q]] == Found(sys.g.snd.revs[ids[q]], first[q], copied[q])
  }

  /** What holds all through a call. */
  ghost predicate InCall(sys: System, ids: seq<nat>) {
    && SystemInv(sys) && ids <= LogIds(sys.g.log) && sys.g.snd.lastQ <= |ids|
    && |sys.g.snd.revs| == |sys.g.snd.seqs| && forall q :: 0 <= q < |ids| ==> ids[q] < |sys.g.snd.revs|
  }

  lemma CallStarts(sys: System, ids: seq<nat>)
    requires SystemInv(sys) && ids <= LogIds(sys.g.log) && sys.g.snd.lastQ <= |ids|
    ensures InCall(sys, ids)
  {
    forall q | 0 <= q < |ids| ensures ids[q] < |sys.g.snd.revs| {
      assert ids[q] == LogIds(sys.g.log)[q] && ChangeOk(sys.g, sys.g.log[q]);
    }
  }

  lemma OutsideKeepsCall(sys: System, step: Step, ids: seq<nat>)
    requires InCall(sys, ids) && Enabled(sys, step) && IsOutside(step)
    ensures InCall(Apply(sys, step), ids) && Apply(sys, step).g.snd == sys.g.snd
  {
    StepKeeps(sys, step);
    OutsideKeepsSender(sys, step);
    hide SystemInv, Apply, Enabled;
    assert LogIds(sys.g.log) <= LogIds(Apply(sys, step).g.log);
  }

  lemma LoopUnfolds(s: Sender, ids: seq<nat>, first: seq<nat>, copied: seq<nat>, canSend: bool)
    requires s.lastQ < |ids| == |first| == |copied| && |s.revs| == |s.seqs|
    requires forall k :: 0 <= k < |ids| ==> ids[k] < |s.revs|
    ensures var q := s.lastQ;
      var (s1, o) := QueueTurn(s, ids[q], Found(s.revs[ids[q]], first[q], copied[q]), canSend);
      && |s1.revs| == |s1.seqs| == |s.revs| && s1.lastQ <= |ids|
      && QueueLoop(s, ids, first, copied, canSend).0 ==
         if o.Blocked? || o.Flushed? then s1 else QueueLoop(s1, ids, first, copied, canSend).0
  {
  }

  lemma TurnKeepsCall(sys: System, ids: seq<nat>, first: seq<nat>, copied: seq<nat>, canSend: bool)
    requires InCall(sys, ids) && Enabled(sys, Queue(canSend)) && |ids| == |first| == |copied|
    requires TurnAt(sys, Queue(canSend), ids, first, copied, canSend)
    ensures var s, sys' := sys.g.snd, Apply(sys, Queue(canSend));
      && InCall(sys', ids)
      && QueueLoop(s, ids, first, copied, canSend).0 ==
         if Leaves(sys, canSend) then sys'.g.snd else QueueLoop(sys'.g.snd, ids, first, copied, canSend).0
  {
    var q := sys.g.snd.lastQ;
    assert ids[q] == LogIds(sys.g.log)[q] == sys.g.log[q].id;
    StepKeeps(sys, Queue(canSend));
    TurnEffect(sys, canSend);
    LoopUnfolds(sys.g.snd, ids, first, copied, canSend);
    hide SystemInv, Apply, Enabled, QueueTurn, QueueLoop;
    CallStarts(Apply(sys, Queue(canSend)), ids);
  }

  lemma {:induction false} AfterLeaving(states: seq<System>, steps: seq<Step>, k: nat)
    requires Path(states, steps) && k <= |steps| && forall k' :: k <= k' < |steps| ==> IsOutside(steps[k'])
    ensures states[|steps|].g.snd == states[k].g.snd
    decreases |steps| - k
  {
    if k < |steps| {
      OutsideKeepsSender(states[k], steps[k]);
      AfterLeaving(states, steps, k + 1);
    }
  }

  lemma {:induction false} QueueCallFrom(states: seq<System>, steps: seq<Step>, ids: seq<nat>, first: seq<nat>, copied: seq<nat>, canSend: bool, k: nat)
    requires Path(states, steps) && |ids| == |first| == |copied| && QueueCall(states, steps, ids, first, copied, canSend)
    requires k <= |steps| && InCall(states[k], ids)
    requires forall k' :: 0 <= k' < k && steps[k'] == Queue(canSend) ==> !Leaves(states[k'], canSend)
    ensures states[|steps|].g.snd == QueueLoop(states[k].g.snd, ids, first, copied, canSend).0
    decreases |steps| - k
  {
    if k == |steps| {
      LoopEnds(states[k].g.snd, ids, first, copied, canSend);
    } else {
      var sys, step := states[k], steps[k];
      hide SystemInv, Apply, Enabled, QueueLoop;
      if IsOutside(step) {
        OutsideKeepsCall(sys, step, ids);
        QueueCallFrom(states, steps, ids, first, copied, canSend, k + 1);
      } else {
        TurnKeepsCall(sys, ids, first, copied, canSend);
        if Leaves(sys, canSend) {
          AfterLeaving(states, steps, k + 1);
        } else {
          QueueCallFrom(states, steps, ids, first, copied, canSend, k + 1);
        }
      }
    }
  }

  /** On every path on which the sender is inside mcast_on_write, whatever the writer and the receivers
      do between its turns, the protocol arrives at the sender state that the loop computes from the
      revisions it read. */
  lemma QueueCallIsSteps(states: seq<System>, steps: seq<Step>, ids: seq<nat>, first: seq<nat>, copied: seq<nat>, canSend: bool)
    requires Path(states, steps) && SystemInv(states[0])
    requires |ids| == |first| == |copied| && QueueCall(states, steps, ids, first, copied, canSend)
    ensures InCall(states[0], ids)
    ensures states[|steps|].g.snd == QueueLoop(states[0].g.snd, ids, first, copied, canSend).0
  {
    CallStarts(states[0], ids);
    QueueCallFrom(states, steps, ids, first, copied, canSend, 0);
  }

  /** What mcast_on_empty_queue sends is what the protocol sends: the packet in the buffer, by a Flush, or a
      heartbeat, by a Beat, and it sends exactly when one is due. */
  lemma EmptyQueueIsStep(sys: System, ageDue: bool, beatDue: bool)
    requires SystemInv(sys) && sys.sessions != map[] && sys.g.snd.nextSeq + 1 < SEQUENCE_MAX
    ensures var s := sys.g.snd; var (s', st) := EmptyQueue(s, ageDue, beatDue, true);
      && (st.Sent? <==> beatDue || (s.pkt != [] && ageDue)) && (st.Quiet? <==> !st.Sent?) && (st.Quiet? ==> s' == s)
      && (st.Sent? && s.pkt != [] ==>
            && st.packet == Packet(s.nextSeq, s.pkt) && Enabled(sys, Flush)
            && Apply(sys, Flush).g.net == sys.g.net + {st.packet} && Apply(sys, Flush).g.snd == s' == s.(nextSeq := s.nextSeq + 1, pkt := []))
      && (st.Sent? && s.pkt == [] ==>
            && st.packet == Packet(-s.nextSeq, []) && Enabled(sys, Beat)
            && Apply(sys, Beat).g.net == sys.g.net + {st.packet} && Apply(sys, Beat).g.snd == s'.(hdr := s.hdr))
  {
  }

  /** A blocked send changes nothing that is staged; the sender ends. */
  lemma BlockedIsFatal(s: Sender, ageDue: bool, beatDue: bool)
    ensures var (s', st) := EmptyQueue(s, ageDue, beatDue, false);
      (st.Fatal? <==> beatDue || (s.pkt != [] && ageDue)) && !st.Sent? && s'.(hdr := s.hdr) == s
  {
  }

  // ---------------------------------------------------------------- tcp_on_write

  /** A due heartbeat is put into the buffer of a client that is not being answered, by QueueHeartbeat. */
  lemma HeartbeatIsStep(sys: System, c: nat)
    requires c in sys.sessions && sys.sessions[c].clnt.out.None? && !sys.sessions[c].clnt.reply.Valid()
    ensures Enabled(sys, QueueHeartbeat(c))
    ensures var sys' := Apply(sys, QueueHeartbeat(c));
      && sys'.g == sys.g && c in sys'.sessions
      && sys'.sessions[c] == sys.sessions[c].(clnt := sys.sessions[c].clnt.(out := Some(Heartbeat)))
  {
  }

  /** Before and during the scan of a call. */
  predicate Scanning(sys: System, c: nat) {
    && c in sys.sessions && sys.sessions[c].clnt.out.None? && sys.sessions[c].clnt.reply.Valid()
    && |sys.g.rev| == |sys.g.snd.seqs| && sys.sessions[c].clnt.replyId <= |sys.g.rev|
  }

  /** A turn of the scan at which the handler reads the revision revs holds for the record. */
  predicate LookAt(sys: System, step: Step, c: nat, revs: seq<nat>) {
    && step == Scan(c) && Scanning(sys, c)
    && var id := sys.sessions[c].clnt.replyId; id < |revs| && id < |sys.g.rev| && revs[id] == sys.g.rev[id]
  }

  /** A call of tcp_on_write that scans: outside steps and turns, nothing after a turn that queues a
      response or after the end of the scan, and turns until one of the two. */
  predicate ScanCall(states: seq<System>, steps: seq<Step>, c: nat, revs: seq<nat>)
    requires Path(states, steps)
  {
    && Scanning(states[0], c) && |revs| == |states[0].g.rev|
    && (forall k :: 0 <= k < |steps| ==> IsOutside(steps[k]) || LookAt(states[k], steps[k], c, revs) || steps[k] == ScanDone(c))
    && (forall k, k' :: 0 <= k < k' < |steps| && Ends(states[k], steps[k], c) ==> IsOutside(steps[k']))
    && exists k :: 0 <= k < |steps| && Ends(states[k], steps[k], c)
  }

  /** The step ends the scan of this call. */
  predicate Ends(sys: System, step: Step, c: nat) {
    || step == ScanDone(c)
    || (step == Scan(c) && Enabled(sys, step) && Apply(sys, step).sessions[c].clnt.out.Some?)
  }

  lemma OutsideKeepsScanning(sys: System, step: Step, c: nat)
    requires Scanning(sys, c) && Enabled(sys, step) && IsOutside(step)
    ensures Scanning(Apply(sys, step), c) && Apply(sys, step).g.snd == sys.g.snd
    ensures Apply(sys, step).sessions[c].clnt == sys.sessions[c].clnt && |Apply(sys, step).g.rev| == |sys.g.rev|
  {
    OutsideKeepsSender(sys, step);
  }

  lemma {:induction false} AfterScan(states: seq<System>, steps: seq<Step>, c: nat, k: nat)
    requires Path(states, steps) && k <= |steps| && c in states[k].sessions
    requires forall k' :: k <= k' < |steps| ==> IsOutside(steps[k'])
    ensures c in states[|steps|].sessions && states[|steps|].sessions[c].clnt == states[k].sessions[c].clnt
    ensures states[|steps|].g.snd == states[k].g.snd
    decreases |steps| - k
  {
    if k < |steps| {
      OutsideKeepsSender(states[k], steps[k]);
      AfterScan(states, steps, c, k + 1);
    }
  }

  /** The client and min_seq after a call that began with client state `clnt`. */
  predicate ScanEnds(sys: System, c: nat, clnt: Client, snap: Snapshot, minSeq: int)
    requires Shows(snap, |snap.seqs|)
  {
    c in sys.sessions &&
    var r := ScanLoop(clnt, snap, |snap.seqs|);
    if r.out.Some? then sys.sessions[c].clnt == r && sys.g.snd.minSeq == minSeq
    else sys.sessions[c].clnt == r.(reply := INVALID_RANGE) && sys.g.snd.minSeq == r.minFound
  }

  /** One step of the sender in the call. */
  lemma LookUnfolds(sys: System, step: Step, c: nat, revs: seq<nat>)
    requires Scanning(sys, c) && |revs| == |sys.g.rev| && Enabled(sys, step)
    requires LookAt(sys, step, c, revs) || step == ScanDone(c)
    ensures var sys', clnt, snap := Apply(sys, step), sys.sessions[c].clnt, Snapshot(sys.g.snd.seqs, revs);
      if Ends(sys, step, c) then ScanEnds(sys', c, clnt, snap, sys.g.snd.minSeq)
      else
        && Scanning(sys', c) && sys'.g.snd == sys.g.snd && |sys'.g.rev| == |sys.g.rev|
        && ScanLoop(sys'.sessions[c].clnt, snap, |revs|) == ScanLoop(clnt, snap, |revs|)
  {
  }

  lemma {:induction false} ScanCallFrom(states: seq<System>, steps: seq<Step>, c: nat, revs: seq<nat>, k: nat)
    requires Path(states, steps) && ScanCall(states, steps, c, revs) && k <= |steps|
    requires Scanning(states[k], c) && |revs| == |states[k].g.rev|
    requires forall k' :: 0 <= k' < k ==> !Ends(states[k'], steps[k'], c)
    ensures ScanEnds(states[|steps|], c, states[k].sessions[c].clnt, Snapshot(states[k].g.snd.seqs, revs), states[k].g.snd.minSeq)
    decreases |steps| - k
  {
    if k < |steps| {
      var sys, step := states[k], steps[k];
      if IsOutside(step) {
        OutsideKeepsScanning(sys, step, c);
        assert !Ends(sys, step, c);
        hide Scanning, Apply, Enabled, ScanEnds, ScanLoop;
        ScanCallFrom(states, steps, c, revs, k + 1);
      } else {
        LookUnfolds(sys, step, c, revs);
        hide Scanning, Apply, Enabled, ScanLoop;
        if Ends(sys, step, c) {
          AfterScan(states, steps, c, k + 1);
        } else {
          ScanCallFrom(states, steps, c, revs, k + 1);
        }
      }
    }
  }

  /** On every path on which the sender is inside tcp_on_write, the protocol arrives at the client state
      and the min_seq that the scan loop computes from the sequences it finds and the revisions it reads,
      although the writer commits between its turns. */
  lemma ScanCallIsSteps(states: seq<System>, steps: seq<Step>, c: nat, revs: seq<nat>)
    requires Path(states, steps) && ScanCall(states, steps, c, revs)
    ensures ScanEnds(states[|steps|], c, states[0].sessions[c].clnt, Snapshot(states[0].g.snd.seqs, revs), states[0].g.snd.minSeq)
  {
    ScanCallFrom(states, steps, c, revs, 0);
  }
}
