/** The TCP channel as bytes: the sender writes its one-message buffer piecemeal (src/sender.c:333-364,
    src/sender.c:582-610), the receiver collects messages with a two-stage reader
    (src/receiver.c:258-271, src/receiver.c:328-386). */
module TcpFraming {
  import opened Wire
  import opened Sequences

  datatype Message = Response(seqNo: int, id: int, value: seq<Byte>) | Heartbeat | WillQuit

  /** Sequences of responses are never negative, so they cannot be taken for a reserved one. */
  predicate MessageOk(m: Message, valSize: nat) {
    m.Response? ==> IsLong(m.seqNo) && m.seqNo >= 0 && IsLong(m.id) && |m.value| == valSize
  }

  /** WILL_QUIT, if it is sent at all, is the last message. */
  predicate StreamOk(ms: seq<Message>, valSize: nat) {
    && (forall j :: 0 <= j < |ms| ==> MessageOk(ms[j], valSize))
    && (forall j :: 0 <= j < |ms| - 1 ==> !ms[j].WillQuit?)
  }

  function Encode(m: Message, valSize: nat): (b: seq<Byte>)
    requires MessageOk(m, valSize)
    ensures |b| == if m.Response? then 16 + valSize else 8
  {
    match m
    case Response(seqNo, id, value) => Put64(seqNo) + Put64(id) + value
    case Heartbeat => Put64(HEARTBEAT_SEQ)
    case WillQuit => Put64(WILL_QUIT_SEQ)
  }

  /** The reserved sequences on the wire: eight bytes 0xFF for a heartbeat, the last one 0xFE for a farewell. */
  lemma ReservedBytes(valSize: nat)
    ensures forall j :: 0 <= j < 8 ==> Encode(Heartbeat, valSize)[j] == 0xFF
    ensures forall j :: 0 <= j < 8 ==> Encode(WillQuit, valSize)[j] == if j < 7 then 0xFF else 0xFE
  {
    Pow256At8();
    assert Pow256(8) == 256 * Pow256(7);
    AllOnes(8, LIMIT64 - 1);
    AllOnes(7, (LIMIT64 - 2) / 256);
    assert Digits(8, LIMIT64 - 2) == Digits(7, (LIMIT64 - 2) / 256) + [(LIMIT64 - 2) % 256];
  }

  lemma {:induction false} AllOnes(k: nat, x: nat)
    requires x + 1 == Pow256(k)
    ensures forall j :: 0 <= j < k ==> Digits(k, x)[j] == 0xFF
  {
    if k > 0 {
      assert x + 1 == 256 * Pow256(k - 1);
      AllOnes(k - 1, x / 256);
    }
  }

  function EncodeAll(ms: seq<Message>, valSize: nat): seq<Byte>
    requires StreamOk(ms, valSize)
  {
    if ms == [] then [] else Encode(ms[0], valSize) + EncodeAll(ms[1..], valSize)
  }

  /** The reader between calls: the bytes of in_buf before in_next, and in_remain. */
  datatype Reader = Reading(got: seq<Byte>, remain: nat) | Stopped

  const InitReader := Reading([], 8)

  /** tcp_on_read after tcp_read_buf has taken `chunk` from the socket. */
  function OnRead(r: Reader, chunk: seq<Byte>, valSize: nat): (Reader, Option<Message>)
    requires r.Reading? && |chunk| <= r.remain
  {
    var got := r.got + chunk;
    if |chunk| < r.remain then (Reading(got, r.remain - |chunk|), None)
    else if |got| == 8 then
      var seqNo := Get64(got);
      if seqNo == WILL_QUIT_SEQ then (Stopped, Some(WillQuit))
      else if seqNo == HEARTBEAT_SEQ then (InitReader, Some(Heartbeat))
      else (Reading(got, 8 + valSize), None)
    else if |got| < 16 then (Reading(got, 0), None)
    else (InitReader, Some(Response(Get64(got[..8]), Get64(got[8..16]), got[16..])))
  }

  /** The reader stands inside message todo[0], at the stage its byte count says. */
  predicate InStep(r: Reader, todo: seq<Message>) {
    && r.Reading? && r.remain > 0
    && (|r.got| < 8 ==> |r.got| + r.remain == 8)
    && (|r.got| >= 8 ==> todo != [] && todo[0].Response?)
  }

  /** What is collected and what is still unread are the bytes of the messages still to come. */
  predicate Synced(r: Reader, todo: seq<Message>, unread: seq<Byte>, valSize: nat) {
    && StreamOk(todo, valSize)
    && (r.Stopped? ==> todo == [] && unread == [])
    && (r.Reading? ==>
          && r.got + unread == EncodeAll(todo, valSize)
          && InStep(r, todo)
          && (|r.got| >= 8 ==> |r.got| + r.remain == 16 + valSize))
  }

  /** One call, whatever number of bytes the socket yields: nothing is delivered and the reader stays
      in step, or exactly the next message is delivered. */
  lemma CallStaysInStep(r: Reader, todo: seq<Message>, unread: seq<Byte>, k: nat, valSize: nat)
    requires Synced(r, todo, unread, valSize) && r.Reading? && k <= r.remain && k <= |unread|
    ensures var (r', m) := OnRead(r, unread[..k], valSize);
      if m.None? then Synced(r', todo, unread[k..], valSize)
      else todo != [] && m.value == todo[0] && Synced(r', todo[1..], unread[k..], valSize)
  {
    var chunk, got := unread[..k], r.got + unread[..k];
    assert got + unread[k..] == EncodeAll(todo, valSize);
    if |got| >= 8 {
      assert todo != [];
      HeadOf(todo, got, unread[k..], valSize);
      if |got| == 8 { assert got[..8] == got; }
    }
  }

  /** The first bytes of a stream determine its first message. */
  lemma HeadOf(todo: seq<Message>, got: seq<Byte>, rest: seq<Byte>, valSize: nat)
    requires StreamOk(todo, valSize) && todo != [] && got + rest == EncodeAll(todo, valSize) && |got| >= 8
    ensures var m := todo[0];
      && Get64(got[..8]) == (match m case Response(s, _, _) => s case Heartbeat => HEARTBEAT_SEQ case WillQuit => WILL_QUIT_SEQ)
      && (!m.Response? && |got| == 8 ==> rest == EncodeAll(todo[1..], valSize))
      && (m.WillQuit? && |got| == 8 ==> todo[1..] == [])
      && (m.Response? && |got| == 16 + valSize ==>
            && Get64(got[8..16]) == m.id && got[16..] == m.value && rest == EncodeAll(todo[1..], valSize))
  {
    var m, all := todo[0], EncodeAll(todo, valSize);
    var e := Encode(m, valSize);
    assert all == e + EncodeAll(todo[1..], valSize);
    assert got[..8] == all[..8] == e[..8];
    match m
    case Heartbeat =>
      assert e[..8] == e;
      Get64Put64(HEARTBEAT_SEQ);
      assert |got| == 8 ==> rest == all[8..];
    case WillQuit =>
      assert e[..8] == e;
      Get64Put64(WILL_QUIT_SEQ);
      assert |got| == 8 ==> rest == all[8..];
    case Response(s, id, value) =>
      assert e[..8] == Put64(s);
      Get64Put64(s);
      if |got| == 16 + valSize {
        assert got == all[..16 + valSize] == e;
        assert e[8..16] == Put64(id) && e[16..] == value;
        Get64Put64(id);
        assert rest == all[16 + valSize..];
      }
  }

  /** A sequence of calls; sizes[j] is how many bytes call j takes. */
  function Calls(r: Reader, stream: seq<Byte>, sizes: seq<nat>, valSize: nat): (Reader, seq<Byte>, seq<Message>)
    decreases |sizes|
  {
    if sizes == [] || r.Stopped? || sizes[0] > r.remain || sizes[0] > |stream| then (r, stream, [])
    else
      var (r1, m) := OnRead(r, stream[..sizes[0]], valSize);
      var (r2, rest, ms) := Calls(r1, stream[sizes[0]..], sizes[1..], valSize);
      (r2, rest, (if m.Some? then [m.value] else []) + ms)
  }

  lemma PrefixCons(todo: seq<Message>, ms: seq<Message>)
    requires todo != [] && ms <= todo[1..]
    ensures [todo[0]] + ms <= todo && todo[|[todo[0]] + ms|..] == todo[1..][|ms|..]
  {
  }

  lemma {:induction false} CallsStayInStep(r: Reader, todo: seq<Message>, unread: seq<Byte>, sizes: seq<nat>, valSize: nat)
    requires Synced(r, todo, unread, valSize)
    ensures var (r', rest, ms) := Calls(r, unread, sizes, valSize); ms <= todo && Synced(r', todo[|ms|..], rest, valSize)
    decreases |sizes|
  {
    hide Synced, OnRead;
    if sizes == [] || r.Stopped? || sizes[0] > r.remain || sizes[0] > |unread| {
      assert todo[0..] == todo;
    } else {
      var k := sizes[0];
      CallStaysInStep(r, todo, unread, k, valSize);
      var (r1, m) := OnRead(r, unread[..k], valSize);
      var ms1 := Calls(r1, unread[k..], sizes[1..], valSize).2;
      if m.Some? {
        CallsStayInStep(r1, todo[1..], unread[k..], sizes[1..], valSize);
        PrefixCons(todo, ms1);
      } else {
        CallsStayInStep(r1, todo, unread[k..], sizes[1..], valSize);
        assert [] + ms1 == ms1;
      }
    }
  }

  /** However the byte stream is cut into reads, the messages delivered so far are a prefix of those
      sent; once every byte has been read, they are exactly those sent. */
  lemma ChunkingIsInvisible(r: Reader, todo: seq<Message>, unread: seq<Byte>, sizes: seq<nat>, valSize: nat)
    requires Synced(r, todo, unread, valSize)
    ensures var (r', rest, ms) := Calls(r, unread, sizes, valSize);
      && ms <= todo
      && Synced(r', todo[|ms|..], rest, valSize)
      && (rest == [] ==> ms == todo)
  {
    CallsStayInStep(r, todo, unread, sizes, valSize);
    hide Synced, Calls;
    var (r', rest, ms) := Calls(r, unread, sizes, valSize);
    if rest == [] { FullyRead(r', todo[|ms|..], valSize); }
  }

  /** No message is ever complete without having been delivered. */
  lemma FullyRead(r: Reader, todo: seq<Message>, valSize: nat)
    requires Synced(r, todo, [], valSize)
    ensures todo == []
  {
    if r.Reading? { assert r.got + [] == r.got; }
  }

  /** The receiver's input buffer and its two-stage reader. */
  class MessageReader {
    const valSize: nat
    const inBuf: array<Byte>
    var inNext: nat
    var inRemain: nat
    var isStopping: bool

    ghost predicate Valid()
      reads this
    {
      && inBuf.Length == 16 + valSize && inNext + inRemain <= inBuf.Length
      && (!isStopping ==> 0 < inRemain && inNext + inRemain == if inNext < 8 then 8 else 16 + valSize)
    }

    ghost function State(): Reader
      requires Valid()
      reads this, inBuf
    {
      if isStopping then Stopped else Reading(inBuf[..inNext], inRemain)
    }

    constructor (valSize: nat)
      ensures Valid() && this.valSize == valSize && State() == InitReader && fresh(inBuf)
    {
      this.valSize := valSize;
      inBuf := new Byte[16 + valSize](_ => 0);
      inNext, inRemain, isStopping := 0, 8, false;
    }

    /** tcp_on_read, when the socket yields `chunk` in one or more reads before it blocks. */
    method TcpOnRead(chunk: seq<Byte>) returns (m: Option<Message>)
      requires Valid() && !isStopping && |chunk| <= inRemain
      modifies this, inBuf
      ensures Valid() && (State(), m) == OnRead(old(State()), chunk, valSize)
    {
      CopyInto(inBuf, inNext, chunk);
      ghost var got := old(inBuf[..inNext]) + chunk;
      inNext := inNext + |chunk|;
      inRemain := inRemain - |chunk|;
      assert inBuf[..inNext] == got;
      m := None;
      if inRemain == 0 {
        var seqNo := Get64(inBuf[..8]);
        if inNext == 8 {
          assert inBuf[..8] == got;
          if seqNo == WILL_QUIT_SEQ {
            isStopping := true;
            return Some(WillQuit);
          }
          if seqNo == HEARTBEAT_SEQ {
            inNext, inRemain := 0, 8;
            return Some(Heartbeat);
          }
          inRemain := 8 + valSize;
          return None;
        }
        assert inBuf[..8] == got[..8] && inBuf[8..16] == got[8..16] && inBuf[16..inNext] == got[16..];
        m := Some(Response(seqNo, Get64(inBuf[8..16]), inBuf[16..inNext]));
        inNext, inRemain := 0, 8;
      }
    }
  }

  /** A fresh connection is in step with everything that will be sent. */
  lemma FreshIsSynced(ms: seq<Message>, valSize: nat)
    requires StreamOk(ms, valSize)
    ensures Synced(InitReader, ms, EncodeAll(ms, valSize), valSize)
  {
  }

  // ---------------------------------------------------------------- the sender's side

  lemma {:induction false} EncodeAllAppend(ms: seq<Message>, m: Message, valSize: nat)
    requires StreamOk(ms, valSize) && MessageOk(m, valSize) && StreamOk(ms + [m], valSize)
    ensures EncodeAll(ms + [m], valSize) == EncodeAll(ms, valSize) + Encode(m, valSize)
  {
    if ms == [] {
      assert [m][1..] == [];
    } else {
      assert (ms + [m])[1..] == ms[1..] + [m];
      EncodeAllAppend(ms[1..], m, valSize);
      hide Encode, StreamOk, MessageOk;
      var head, rest := Encode(ms[0], valSize), EncodeAll(ms[1..], valSize);
      assert head + (rest + Encode(m, valSize)) == head + rest + Encode(m, valSize);
    }
  }

  /** The sender's output buffer for one client. */
  class MessageWriter {
    const valSize: nat
    const outBuf: array<Byte>
    var outNext: nat
    var outRemain: nat
    ghost var queued: seq<Message>   // every message put into the buffer
    ghost var sent: seq<Byte>        // every byte accepted by the socket

    ghost predicate Valid()
      reads this, outBuf
    {
      && outBuf.Length == 16 + valSize && outNext + outRemain <= outBuf.Length
      && StreamOk(queued, valSize)
      && EncodeAll(queued, valSize) == sent + outBuf[outNext..outNext + outRemain]
    }

    constructor (valSize: nat)
      ensures Valid() && queued == [] && sent == [] && outRemain == 0 && fresh(outBuf)
    {
      this.valSize := valSize;
      outBuf := new Byte[16 + valSize](_ => 0);
      outNext, outRemain, queued, sent := 0, 0, [], [];
    }

    /** A message is put into the buffer only when the previous one has been written completely. */
    method Put(m: Message)
      requires Valid() && outRemain == 0 && MessageOk(m, valSize) && StreamOk(queued + [m], valSize)
      modifies this, outBuf
      ensures Valid() && queued == old(queued) + [m] && sent == old(sent)
      ensures outRemain == |Encode(m, valSize)|
    {
      hide EncodeAll;
      var bytes := Encode(m, valSize);
      hide Encode;
      EncodeAllAppend(queued, m, valSize);
      assert outBuf[outNext..outNext] == [];
      CopyInto(outBuf, 0, bytes);
      outNext, outRemain := 0, |bytes|;
      queued := queued + [m];
    }

    /** The socket accepts k bytes. */
    method Accept(k: nat)
      requires Valid() && k <= outRemain
      modifies this`outNext, this`outRemain, this`sent
      ensures Valid() && outRemain == old(outRemain) - k && outNext == old(outNext) + k
      ensures sent == old(sent) + outBuf[old(outNext)..outNext]
    {
      hide EncodeAll, StreamOk;
      ghost var rest := outBuf[outNext..outNext + outRemain];
      assert rest[..k] == outBuf[outNext..outNext + k] && rest[k..] == outBuf[outNext + k..outNext + outRemain];
      assert sent + rest == sent + rest[..k] + rest[k..];
      sent := sent + outBuf[outNext..outNext + k];
      outNext := outNext + k;
      outRemain := outRemain - k;
    }

    /** tcp_write_buf: the socket accepts some bytes each time until it blocks or all are written. */
    method Write(accepts: seq<nat>)
      requires Valid()
      modifies this`outNext, this`outRemain, this`sent
      ensures Valid() && old(sent) <= sent && |sent| + outRemain == |old(sent)| + old(outRemain)
      ensures Accepting(accepts, old(outRemain)) ==> |sent| == |old(sent)| + Sum(accepts)
    {
      var j := 0;
      while outRemain > 0 && j < |accepts| && 0 < accepts[j] <= outRemain
        invariant Valid() && j <= |accepts|
        invariant old(sent) <= sent && |sent| + outRemain == |old(sent)| + old(outRemain)
        invariant |sent| == |old(sent)| + Sum(accepts[..j])
      {
        SumGrows(accepts, j);
        Accept(accepts[j]);
        j := j + 1;
      }
      SumGrows(accepts, j);
      assert accepts[..|accepts|] == accepts;
    }
  }
}
