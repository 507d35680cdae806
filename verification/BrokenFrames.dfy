/** Runs in which the one-slot request buffer is started over (src/receiver.c:147-148). With nothing of
    the old request written, an update is lost. With some bytes written, the sender reads ranges that
    nobody asked for: it refuses a request, or its answers let a record go back in time. */
module BrokenFrames {
  import opened Sequences
  import opened SenderModel
  import opened ReceiverModel
  import opened Protocol
  import opened RequestFraming
  import opened Wire
  import opened Replication
  import opened LostUpdates

  const FIRST := Range(0, 1)
  const SECOND := Range(1, 2)

  function Waiting(k: nat): Session {
    FreshSession(2).(recv := InitReceiver(2).(next := 1, out := Some(FIRST)), sent := k)
  }

  /** A client connects and hears a heartbeat. */
  lemma HeartbeatHeard() returns (states: seq<System>, steps: seq<Step>)
    ensures Run(states, steps)
    ensures var last := states[|steps|];
      last.sessions == map[0 := Waiting(0)] && last.g == Global([1, 1], [], None, InitSender(2, 1), {Packet(-1, [])}, {}, 0)
  {
    hide EncodeRange;
    var s0 := System(Global([1, 1], [], None, InitSender(2, 1), {}, {}, 0), map[], 0);
    states, steps := [s0], [];
    states, steps := Extend(states, steps, Accept);
    assert 0 in states[|steps|].sessions;
    states, steps := Extend(states, steps, Beat);
    states, steps := Extend(states, steps, Deliver(0, Packet(-1, [])));
  }

  /** Of its request for everything before, k bytes are written. */
  lemma RequestBuffered(k: nat) returns (states: seq<System>, steps: seq<Step>)
    requires k < FRAME
    ensures Run(states, steps)
    ensures var last := states[|steps|];
      last.sessions == map[0 := Waiting(k)] && last.g == Global([1, 1], [], None, InitSender(2, 1), {Packet(-1, [])}, {}, 0)
  {
    hide EncodeRange;
    states, steps := HeartbeatHeard();
    if k > 0 { states, steps := Extend(states, steps, SendRequest(0, k)); }
  }

  /** Meanwhile a packet with the other record is sent and lost. */
  lemma PacketLost(k: nat) returns (states: seq<System>, steps: seq<Step>)
    requires k < FRAME
    ensures Run(states, steps)
    ensures var last := states[|steps|];
      && last.sessions == map[0 := Waiting(k)]
      && last.g.rev == [2, 1] && last.g.unlogged.None? && last.g.log == [Change(0, 2)]
      && last.g.snd == Sender(1, [2, -1], [1, 0], 2, 0, 1, [], 1)
  {
    states, steps := RequestBuffered(k);
    states, steps := Extend(states, steps, Commit(0));
    states, steps := Extend(states, steps, LogChange);
    assert 0 in states[|steps|].sessions;
    states, steps := Extend(states, steps, Queue(true));
    states, steps := Extend(states, steps, Flush);
  }

  /** The next heartbeat starts the buffer over. */
  lemma Replaced(k: nat) returns (states: seq<System>, steps: seq<Step>)
    requires k < FRAME
    ensures Run(states, steps)
    ensures var last := states[|steps|];
      && last.sessions == map[0 := Waiting(0).(recv := InitReceiver(2).(next := 2, out := Some(SECOND)),
                                               raw := if k == 0 then None else Some(EncodeRange(FIRST)[..k]))]
      && last.g.rev == [2, 1] && last.g.unlogged.None? && last.g.log == [Change(0, 2)]
      && last.g.snd == Sender(1, [2, -1], [1, 0], 2, 0, 1, [], 1)
  {
    states, steps := PacketLost(k);
    hide EncodeRange;
    assert 0 in states[|steps|].sessions;
    states, steps := Extend(states, steps, Beat);
    states, steps := Extend(states, steps, Deliver(0, Packet(-2, [])));
  }

  /** Nothing written: the record the request was for is lost. */
  lemma ReplacedRequestIsReachable() returns (states: seq<System>, steps: seq<Step>)
    ensures Run(states, steps)
    ensures var last := states[|steps|]; 0 in last.sessions && Doomed(last.g, last.sessions[0], 1)
  {
    states, steps := Replaced(0);
  }

  // ---------------------------------------------------------------- a refused request

  lemma {:induction false} ZeroDigits(k: nat)
    ensures forall j :: 0 <= j < k ==> Digits(k, 0)[j] == 0
  {
    if k > 0 { ZeroDigits(k - 1); }
  }

  lemma SmallPut(x: nat)
    requires x < 256
    ensures IsLong(x) && forall j :: 0 <= j < 8 ==> Put64(x)[j] == if j == 7 then x else 0
  {
    ZeroDigits(7);
    assert Digits(8, x) == Digits(7, 0) + [x];
  }

  lemma SmallRange(r: Range)
    requires 0 <= r.low < 256 && 0 <= r.high < 256
    ensures RangeOk(r)
    ensures forall j :: 0 <= j < FRAME ==> EncodeRange(r)[j] == if j == 7 then r.low else if j == 15 then r.high else 0
  {
    SmallPut(r.low);
    SmallPut(r.high);
  }

  /** A first byte and k - 1 zeros. */
  lemma {:induction false} NumberPadded(s: seq<Byte>, k: nat)
    requires 1 <= k <= |s| && forall j :: 1 <= j < k ==> s[j] == 0
    ensures Number(s[..k]) == s[0] as int * Pow256(k - 1)
  {
    if k == 1 {
      assert s[..1][..0] == [] && Number([]) == 0 && Number(s[..1]) == 256 * Number(s[..1][..0]) + s[0];
    } else {
      NumberPadded(s, k - 1);
      assert s[..k][..k - 1] == s[..k - 1] && Number(s[..k]) == 256 * Number(s[..k - 1]);
      var x: int := s[0];
      assert x * (256 * Pow256(k - 2)) == 256 * (x * Pow256(k - 2));
    }
  }

  lemma GetPadded(s: seq<Byte>)
    requires |s| == 8 && s[0] < 128 && forall j :: 1 <= j < 8 ==> s[j] == 0
    ensures Get64(s) == s[0] as int * 0x100_0000_0000_0000
  {
    NumberPadded(s, 8);
    assert s[..8] == s;
    Pow256At8();
    assert Pow256(8) == 256 * Pow256(7);
  }

  /** Nine bytes of the first request and seven of the second are the empty range (0, 0). */
  lemma NineBytes()
    ensures FrameOf((EncodeRange(FIRST)[..9] + EncodeRange(SECOND))[..FRAME]) == Range(0, 0)
  {
    SmallRange(FIRST);
    SmallRange(SECOND);
    hide EncodeRange, Get64;
    var b := (EncodeRange(FIRST)[..9] + EncodeRange(SECOND))[..FRAME];
    forall j | 0 <= j < FRAME ensures b[j] == 0 {
      assert b[j] == if j < 9 then EncodeRange(FIRST)[j] else EncodeRange(SECOND)[j - 9];
    }
    GetPadded(b[..8]);
    GetPadded(b[8..]);
  }

  /** Replaced after nine bytes: the sender refuses what it reads as an invalid range. */
  lemma InvalidRequestIsReachable() returns (states: seq<System>, steps: seq<Step>)
    ensures Run(states, steps)
    ensures var last := states[|steps|];
      0 in last.sessions && NextRequest(last.sessions[0]) == Some(Range(0, 0)) && !Enabled(last, ReadRequest(0))
  {
    states, steps := Replaced(9);
    NineBytes();
    hide EncodeRange, FrameOf;
    assert EncodeRange(SECOND)[0..FRAME] == EncodeRange(SECOND);
    states, steps := Extend(states, steps, SendRequest(0, FRAME));
  }

  // ---------------------------------------------------------------- back in time

  const WIDE := Range(0, 0x100_0000_0000_0000)

  /** One byte of the first request and fifteen of the second are a range far beyond next_seq. */
  lemma OneByte()
    ensures FrameOf(EncodeRange(FIRST)[..1] + EncodeRange(SECOND)[0..15]) == WIDE
  {
    SmallRange(FIRST);
    SmallRange(SECOND);
    hide EncodeRange, Get64;
    var b := EncodeRange(FIRST)[..1] + EncodeRange(SECOND)[0..15];
    forall j | 0 <= j < FRAME ensures b[j] == if j == 8 then 1 else 0 {
      assert b[j] == if j < 1 then EncodeRange(FIRST)[j] else EncodeRange(SECOND)[j - 1];
    }
    GetPadded(b[..8]);
    GetPadded(b[8..]);
  }

  /** Replaced after one byte, and the rest written as far as one frame. */
  lemma FrameFilled() returns (states: seq<System>, steps: seq<Step>)
    ensures Run(states, steps)
    ensures var last := states[|steps|]; var r := InitReceiver(2).(next := 2, out := Some(SECOND));
      && last.sessions == map[0 := Session(InitClient, r, [], 15, Some(EncodeRange(FIRST)[..1] + EncodeRange(SECOND)[0..15]), [])]
      && last.g.rev == [2, 1] && last.g.unlogged.None? && last.g.log == [Change(0, 2)]
      && last.g.snd == Sender(1, [2, -1], [1, 0], 2, 0, 1, [], 1)
  {
    states, steps := Replaced(1);
    hide EncodeRange;
    states, steps := Extend(states, steps, SendRequest(0, 15));
  }

  /** The sender reads the wide range. */
  lemma WideRequest() returns (states: seq<System>, steps: seq<Step>)
    ensures Run(states, steps)
    ensures var last := states[|steps|]; var r := InitReceiver(2).(next := 2, out := Some(SECOND));
      && last.sessions == map[0 := Session(InitClient.(union := WIDE), r, [], 15, Some([]), [])]
      && last.g.rev == [2, 1] && last.g.unlogged.None? && last.g.log == [Change(0, 2)]
      && last.g.snd == Sender(1, [2, -1], [1, 0], 2, 0, 1, [], 1)
  {
    states, steps := FrameFilled();
    OneByte();
    hide EncodeRange, FrameOf;
    var raw := EncodeRange(FIRST)[..1] + EncodeRange(SECOND)[0..15];
    assert raw[..FRAME] == raw && raw[FRAME..] == [];
    states, steps := Extend(states, steps, ReadRequest(0));
  }

  /** The record changes twice: one revision is sent, the other one staged. */
  lemma TwoMoreChanges() returns (states: seq<System>, steps: seq<Step>)
    ensures Run(states, steps)
    ensures var last := states[|steps|]; var r := InitReceiver(2).(next := 2, out := Some(SECOND));
      && last.sessions == map[0 := Session(InitClient.(union := WIDE), r, [], 15, Some([]), [])]
      && last.g.rev == [4, 1] && Packet(2, [Staged(0, 3)]) in last.g.net
      && last.g.snd.seqs == [3, 0] && last.g.snd.minSeq == 0
  {
    states, steps := WideRequest();
    assert 0 in states[|steps|].sessions;
    states, steps := OneChange(states, steps, 1);
    states, steps := Extend(states, steps, Flush);
    states, steps := OneChange(states, steps, 2);
  }

  /** A change of record 0 is committed, logged and staged in the empty buffer. */
  lemma OneChange(states: seq<System>, steps: seq<Step>, q: nat) returns (states': seq<System>, steps': seq<Step>)
    requires Run(states, steps)
    requires var g := states[|steps|].g;
      && 0 in states[|steps|].sessions && |g.rev| == |g.snd.revs| == |g.snd.seqs| == 2
      && g.unlogged.None? && |g.log| == g.snd.lastQ == q && g.snd.pkt == [] && g.snd.perPkt == 1
      && g.snd.revs[0] <= g.rev[0]
    ensures Run(states', steps') && states'[|steps'|].sessions == states[|steps|].sessions
    ensures var g, g' := states[|steps|].g, states'[|steps'|].g; var rev := g.rev[0] + 1;
      && g'.rev == g.rev[0 := rev] && g'.unlogged.None? && |g'.log| == q + 1 && g'.net == g.net
      && g'.snd == g.snd.(revs := g.snd.revs[0 := rev], seqs := g.snd.seqs[0 := g.snd.nextSeq],
                          hdr := g.snd.nextSeq, pkt := [Staged(0, rev)], lastQ := q + 1)
  {
    states', steps' := Extend(states, steps, Commit(0));
    states', steps' := Extend(states', steps', LogChange);
    states', steps' := Extend(states', steps', Queue(true));
  }

  /** The answer brings the newest revision under a sequence the receiver has not reached. */
  lemma AnsweredAhead() returns (states: seq<System>, steps: seq<Step>)
    ensures Run(states, steps)
    ensures var last := states[|steps|];
      && 0 in last.sessions && SlotOk(last.sessions[0]) && last.sessions[0].recv.next == 2
      && last.sessions[0].recv.seqs == [3, -1] && last.sessions[0].recv.vals == [4, 0]
      && Packet(2, [Staged(0, 3)]) in last.g.net
  {
    states, steps := TwoMoreChanges();
    states, steps := Extend(states, steps, ReadBlocked(0));
    states, steps := Extend(states, steps, Scan(0));
    states, steps := Extend(states, steps, WriteOut(0));
    states, steps := Extend(states, steps, ReadResponse(0));
  }

  /** And then an older packet arrives, which the receiver applies without looking at record_seqs. */
  lemma TimeTravelIsReachable() returns (states: seq<System>, steps: seq<Step>)
    ensures Run(states, steps) && |steps| > 0
    ensures var last, before := states[|steps|], states[|steps| - 1];
      && 0 in before.sessions && 0 in last.sessions
      && before.sessions[0].recv.vals == [4, 0] && last.sessions[0].recv.vals == [3, 0]
  {
    states, steps := AnsweredAhead();
    hide EncodeRange;
    var p := Packet(2, [Staged(0, 3)]);
    assert p.recs[..0] == [];
    var r := states[|steps|].sessions[0].recv;
    assert ApplyRecs(r, 2, p.recs) == UpdateRecord(ApplyRecs(r, 2, []), 2, 0, 3);
    states, steps := Extend(states, steps, Deliver(0, p));
  }
}
