/** The whole replication system as a transition system: one storage writer, one sender, any number
    of receivers that join and leave, an unreliable multicast network and, for each receiver, a TCP
    connection carrying gap requests one way and responses the other. Requests are written in pieces;
    one that is replaced after its first byte leaves the byte stream without its frames.

    Handlers are split at the points where other activity can interleave: a turn of the queue loop,
    a turn of the scan loop, the write of one message. Timers are replaced by free choice. */
module Protocol {
  import opened Sequences
  import opened SenderModel
  import opened ReceiverModel
  import opened RequestFraming
  import opened Wire

  /** A change-queue entry. Only `id` is in the ring; `rev` notes which commit wrote the entry. */
  datatype Change = Change(id: nat, rev: nat)

  /** A record staged by the sender under a sequence. */
  datatype Entry = Entry(seqNo: int, id: nat, rev: nat)

  datatype Global = Global(
    rev: seq<nat>,             // revision of every record in the writer's storage, 0 if never written
    log: seq<Change>,          // every entry ever appended to the change queue
    unlogged: Option<Change>,  // committed, change-queue entry still to be written
    snd: Sender,
    net: set<Packet>,          // every multicast packet sent; any of them can arrive at any time
    hist: set<Entry>,          // bookkeeping: everything ever staged
    startQ: nat)               // bookkeeping: queue index at which the sender last started reading

  datatype Session = Session(
    clnt: Client,
    recv: Receiver,
    reqs: seq<Range>,        // requests completely written and not yet read, oldest first
    sent: nat,               // bytes already written of the request in the receiver's buffer
    raw: Option<seq<Byte>>,  // once a partly written request was replaced: the unread bytes from there on
    resps: seq<TcpMsg>)      // messages on the wire, oldest first

  datatype System = System(g: Global, sessions: map<nat, Session>, nextClient: nat)

  datatype Step =
    | Commit(id: nat)                   // the writer releases a record with the next revision
    | LogChange                         // the writer appends the id to the change queue
    | Queue(canSend: bool)              // one turn of the sender's queue loop
    | Flush                             // the sender sends a packet that is old enough
    | Beat                              // the sender multicasts a heartbeat
    | Accept                            // a receiver connects
    | Hup(c: nat)                       // a receiver is gone
    | ReadRequest(c: nat)               // sender: tcp_on_read
    | ReadBlocked(c: nat)               // sender: tcp_on_read_blocked
    | Scan(c: nat)                      // sender: one turn of the scan loop
    | ScanDone(c: nat)                  // sender: the scan loop ends
    | QueueHeartbeat(c: nat)            // sender: a TCP heartbeat is put in the buffer
    | WriteOut(c: nat)                  // sender: the last byte of a message is written
    | Deliver(c: nat, packet: Packet)   // receiver: mcast_on_read
    | SendRequest(c: nat, k: nat)       // receiver: k bytes of a request are written
    | ReadResponse(c: nat)              // receiver: the last byte of a message is read

  /** Every request was written as a whole, so the sender reads the frames that were written. */
  predicate Framed(s: Session) { s.raw.None? }

  predicate SlotOk(s: Session) {
    && s.sent < FRAME && (s.sent > 0 ==> s.recv.out.Some?)
    && (s.recv.out.Some? ==> RangeOk(s.recv.out.value))
  }

  /** What the sender will take the next sixteen bytes for, if there are that many. */
  function NextRequest(s: Session): Option<Range> {
    if s.reqs != [] then Some(s.reqs[0])
    else if s.raw.Some? && |s.raw.value| >= FRAME then Some(FrameOf(s.raw.value[..FRAME]))
    else None
  }

  /** The sender reads a valid request. */
  function TakeRequest(s: Session): Session
    requires NextRequest(s).Some?
  {
    var s1 := s.(clnt := MergeRequest(s.clnt, NextRequest(s).value));
    if s.reqs != [] then s1.(reqs := s.reqs[1..]) else s1.(raw := Some(s.raw.value[FRAME..]))
  }

  /** The receiver handles a packet. A request it makes starts the buffer over, so what was written of
      the one before stays in the stream without its end. */
  function HearPacket(s: Session, p: Packet): Session
    requires SlotOk(s)
  {
    var s1 := s.(recv := McastOnRead(s.recv, p));
    if !RequestsGap(s.recv, p) then s1
    else if s.raw.None? && s.sent > 0 then s1.(sent := 0, raw := Some(EncodeRange(s.recv.out.value)[..s.sent]))
    else s1.(sent := 0)
  }

  /** The receiver writes k more bytes of its request. */
  function WriteRequest(s: Session, k: nat): Session
    requires SlotOk(s) && s.recv.out.Some? && s.sent + k <= FRAME
  {
    var r, done := s.recv.out.value, s.sent + k == FRAME;
    var s1 := if done then s.(recv := s.recv.(out := None), sent := 0) else s.(sent := s.sent + k);
    if s.raw.Some? then s1.(raw := Some(s.raw.value + EncodeRange(r)[s.sent..s.sent + k]))
    else if done then s1.(reqs := s.reqs + [r])
    else s1
  }

  /** What one receiver, its connection and the shared part do together in steps of that receiver. */
  predicate SessionEnabled(g: Global, s: Session, step: Step) {
    match step
    case ReadRequest(_) => NextRequest(s).Some? && NextRequest(s).value.Valid()
    case ReadBlocked(_) => true
    case Scan(_) => s.clnt.out.None? && s.clnt.reply.Valid() && s.clnt.replyId < |g.snd.seqs| && s.clnt.replyId < |g.rev|
    case ScanDone(_) => s.clnt.out.None? && s.clnt.reply.Valid() && s.clnt.replyId >= |g.snd.seqs|
    case QueueHeartbeat(_) => s.clnt.out.None? && !s.clnt.reply.Valid()
    case WriteOut(_) => s.clnt.out.Some?
    case Deliver(_, p) => p in g.net && SlotOk(s)
    case SendRequest(_, k) => SlotOk(s) && s.recv.out.Some? && 0 < k && s.sent + k <= FRAME
    case ReadResponse(_) => s.resps != [] && (s.resps[0].Response? ==> s.resps[0].id < |s.recv.seqs|)
    case _ => false
  }

  function SessionApply(g: Global, s: Session, step: Step): Session
    requires SessionEnabled(g, s, step)
  {
    match step
    case ReadRequest(_) => TakeRequest(s)
    case ReadBlocked(_) => s.(clnt := StartScan(s.clnt, g.snd.minSeq))
    case Scan(_) => s.(clnt := ScanOne(s.clnt, g.snd.seqs[s.clnt.replyId], g.rev[s.clnt.replyId]))
    case ScanDone(_) => s.(clnt := s.clnt.(reply := INVALID_RANGE))
    case QueueHeartbeat(_) => s.(clnt := s.clnt.(out := Some(Heartbeat)))
    case WriteOut(_) => s.(clnt := s.clnt.(out := None), resps := s.resps + [s.clnt.out.value])
    case Deliver(_, p) => HearPacket(s, p)
    case SendRequest(_, k) => WriteRequest(s, k)
    case ReadResponse(_) => s.(recv := TcpOnRead(s.recv, s.resps[0]), resps := s.resps[1..])
  }

  /** Of the shared part, a receiver's step touches only min_seq, when its scan ends. */
  function SessionGlobal(g: Global, s: Session, step: Step): Global {
    if step.ScanDone? then g.(snd := g.snd.(minSeq := s.clnt.minFound)) else g
  }

  /** Steps of the writer and of the sender's multicast half. */
  predicate GlobalEnabled(g: Global, step: Step) {
    match step
    case Commit(id) => id < |g.rev| && g.unlogged.None?
    case LogChange => g.unlogged.Some?
    case Queue(_) =>
      && g.snd.lastQ < |g.log|
      && g.log[g.snd.lastQ].id < |g.rev| == |g.snd.revs| == |g.snd.seqs|
      && (|g.snd.pkt| < g.snd.perPkt || g.snd.nextSeq + 1 < SEQUENCE_MAX)
    case Flush => g.snd.pkt != [] && g.snd.nextSeq + 1 < SEQUENCE_MAX
    case Beat => g.snd.pkt == []
    case _ => false
  }

  function GlobalApply(g: Global, step: Step): Global
    requires GlobalEnabled(g, step)
  {
    match step
    case Commit(id) =>
      g.(rev := g.rev[id := g.rev[id] + 1], unlogged := Some(Change(id, g.rev[id] + 1)))
    case LogChange => g.(log := g.log + [g.unlogged.value], unlogged := None)
    case Queue(canSend) =>
      var id := g.log[g.snd.lastQ].id;
      var (snd1, o) := QueueTurn(g.snd, id, g.rev[id], canSend);
      g.(snd := snd1,
         net := if o.Flushed? then g.net + {o.packet} else g.net,
         hist := if o.Flushed? || o.Appended? then g.hist + {Entry(snd1.nextSeq, id, g.rev[id])} else g.hist)
    case Flush => var (snd1, p) := SendPkt(g.snd); g.(snd := snd1, net := g.net + {p})
    case Beat => g.(net := g.net + {Packet(-g.snd.nextSeq, [])})
  }

  /** Steps of the writer, and steps of the sender's multicast half, which runs while anyone is connected. */
  predicate IsWriter(step: Step) { step.Commit? || step.LogChange? }

  predicate IsMcast(step: Step) { step.Queue? || step.Flush? || step.Beat? }

  predicate IsGlobal(step: Step) { IsWriter(step) || IsMcast(step) }

  predicate Enabled(sys: System, step: Step) {
    if IsGlobal(step) then GlobalEnabled(sys.g, step) && (IsMcast(step) ==> sys.sessions != map[])
    else if step.Accept? then true
    else step.c in sys.sessions && (step.Hup? || SessionEnabled(sys.g, sys.sessions[step.c], step))
  }

  /** tcp_on_accept: with no other client, reading resumes at the head of the change queue. */
  function AcceptGlobal(sys: System): Global {
    if sys.sessions == map[] then
      sys.g.(snd := sys.g.snd.(lastQ := |sys.g.log|), startQ := |sys.g.log|)
    else sys.g
  }

  function FreshSession(n: nat): Session {
    Session(InitClient, InitReceiver(n), [], 0, None, [])
  }

  function Apply(sys: System, step: Step): System
    requires Enabled(sys, step)
  {
    if IsGlobal(step) then sys.(g := GlobalApply(sys.g, step))
    else if step.Accept? then
      System(AcceptGlobal(sys), sys.sessions[sys.nextClient := FreshSession(|sys.g.rev|)], sys.nextClient + 1)
    else if step.Hup? then sys.(sessions := sys.sessions - {step.c})
    else
      var s := sys.sessions[step.c];
      sys.(g := SessionGlobal(sys.g, s, step), sessions := sys.sessions[step.c := SessionApply(sys.g, s, step)])
  }

  /** Any storage contents, a sender just created, nobody connected. */
  predicate Init(sys: System) {
    && |sys.g.rev| > 0
    && sys.g.snd.perPkt > 0
    && sys == System(Global(sys.g.rev, [], None, InitSender(|sys.g.rev|, sys.g.snd.perPkt), {}, {}, 0), map[], 0)
  }

  /** The states passed through and the steps taken between them. */
  predicate Path(states: seq<System>, steps: seq<Step>) {
    && |states| == |steps| + 1
    && forall k :: 0 <= k < |steps| ==> Enabled(states[k], steps[k]) && states[k + 1] == Apply(states[k], steps[k])
  }

  predicate Run(states: seq<System>, steps: seq<Step>) {
    Path(states, steps) && Init(states[0])
  }
}
