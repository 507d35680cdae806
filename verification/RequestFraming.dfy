/** Gap requests as bytes: 16-byte frames from receiver to sender (src/receiver.c:139-148,
    src/receiver.c:289-314, src/sender.c:307-331, src/sender.c:669-685), and what becomes of the frames
    when a request is replaced in the receiver's buffer. */
module RequestFraming {
  import opened Wire
  import opened Sequences

  const FRAME := 16   // sizeof(struct sequence_range)

  predicate RangeOk(r: Range) { IsLong(r.low) && IsLong(r.high) }

  predicate RangesOk(rs: seq<Range>) { forall j :: 0 <= j < |rs| ==> RangeOk(rs[j]) }

  function EncodeRange(r: Range): (b: seq<Byte>)
    requires RangeOk(r)
    ensures |b| == FRAME
  {
    Put64(r.low) + Put64(r.high)
  }

  function EncodeRanges(rs: seq<Range>): (b: seq<Byte>)
    requires RangesOk(rs)
    ensures |b| == FRAME * |rs|
  {
    if rs == [] then [] else EncodeRange(rs[0]) + EncodeRanges(rs[1..])
  }

  /** What the sender takes sixteen bytes for. */
  function FrameOf(b: seq<Byte>): Range
    requires |b| == FRAME
  {
    Range(Get64(b[..8]), Get64(b[8..]))
  }

  lemma FrameOfRange(r: Range)
    requires RangeOk(r)
    ensures FrameOf(EncodeRange(r)) == r
  {
    var e := EncodeRange(r);
    assert e[..8] == Put64(r.low) && e[8..] == Put64(r.high);
    Get64Put64(r.low);
    Get64Put64(r.high);
  }

  /** The requests in any byte stream, aligned or not, and the bytes of an incomplete last one. */
  function Frames(stream: seq<Byte>): (f: (seq<Range>, seq<Byte>))
    ensures |f.1| < FRAME && |stream| == FRAME * |f.0| + |f.1|
  {
    if |stream| < FRAME then ([], stream)
    else
      var (rs, rest) := Frames(stream[FRAME..]);
      ([FrameOf(stream[..FRAME])] + rs, rest)
  }

  // ---------------------------------------------------------------- the sender's reader

  /** One call of the sender's tcp_on_read. */
  function OnReadRange(got: seq<Byte>, chunk: seq<Byte>): (seq<Byte>, Option<Range>) {
    var all := got + chunk;
    if |all| == FRAME then ([], Some(FrameOf(all))) else (all, None)
  }

  function RangeCalls(got: seq<Byte>, stream: seq<Byte>, sizes: seq<nat>): (seq<Byte>, seq<Byte>, seq<Range>)
    decreases |sizes|
  {
    if sizes == [] || |got| + sizes[0] > FRAME || sizes[0] > |stream| then (got, stream, [])
    else
      var (got1, r) := OnReadRange(got, stream[..sizes[0]]);
      var (got2, rest, rs) := RangeCalls(got1, stream[sizes[0]..], sizes[1..]);
      (got2, rest, (if r.Some? then [r.value] else []) + rs)
  }

  lemma FirstFrame(all: seq<Byte>, rest: seq<Byte>)
    requires |all| == FRAME
    ensures Frames(all + rest) == ([FrameOf(all)] + Frames(rest).0, Frames(rest).1)
  {
    assert (all + rest)[..FRAME] == all && (all + rest)[FRAME..] == rest;
  }

  /** The requests read so far are the first frames of the stream. */
  lemma {:induction false} CallsReadFrames(got: seq<Byte>, unread: seq<Byte>, sizes: seq<nat>)
    requires |got| < FRAME
    ensures var (got', rest, rs) := RangeCalls(got, unread, sizes);
      |got'| < FRAME && Frames(got + unread) == (rs + Frames(got' + rest).0, Frames(got' + rest).1)
    decreases |sizes|
  {
    hide FrameOf, Frames;
    var (got', rest, rs) := RangeCalls(got, unread, sizes);
    var more := Frames(got' + rest).0;
    if !(sizes == [] || |got| + sizes[0] > FRAME || sizes[0] > |unread|) {
      var k := sizes[0];
      var (got1, r) := OnReadRange(got, unread[..k]);
      var all := got + unread[..k];
      assert all + unread[k..] == got + unread;
      if |all| == FRAME {
        FirstFrame(all, unread[k..]);
        assert [] + unread[k..] == unread[k..];
      }
      CallsReadFrames(got1, unread[k..], sizes[1..]);
      var rs1 := RangeCalls(got1, unread[k..], sizes[1..]).2;
      assert r.Some? ==> [r.value] + (rs1 + more) == rs + more;
      assert r.None? ==> rs1 + more == rs + more;
    } else {
      assert rs + more == more;
    }
  }

  /** However the byte stream is cut into reads, and whatever it holds, the requests read so far are
      the first of its frames; once every byte has been read they are all of them, and the reader's
      buffer holds the incomplete rest. */
  lemma RequestChunkingIsInvisible(got: seq<Byte>, unread: seq<Byte>, sizes: seq<nat>)
    requires |got| < FRAME
    ensures var (got', rest, rs) := RangeCalls(got, unread, sizes);
      rs <= Frames(got + unread).0 && (rest == [] ==> Frames(got + unread) == (rs, got'))
  {
    CallsReadFrames(got, unread, sizes);
    hide RangeCalls, FrameOf;
    var (got', rest, rs) := RangeCalls(got, unread, sizes);
    if rest == [] {
      assert got' + rest == got' && Frames(got') == ([], got') && rs + [] == rs;
    }
  }

  /** Complete requests are read as they were written. */
  lemma {:induction false} FramesOfRequests(rs: seq<Range>, rest: seq<Byte>)
    requires RangesOk(rs)
    ensures Frames(EncodeRanges(rs) + rest) == (rs + Frames(rest).0, Frames(rest).1)
  {
    hide FrameOf, EncodeRange;
    if rs == [] {
      assert [] + rest == rest && rs + Frames(rest).0 == Frames(rest).0;
    } else {
      var e, more := EncodeRange(rs[0]), EncodeRanges(rs[1..]);
      assert e + more + rest == e + (more + rest);
      FirstFrame(e, more + rest);
      FrameOfRange(rs[0]);
      FramesOfRequests(rs[1..], rest);
      assert [rs[0]] + (rs[1..] + Frames(rest).0) == rs + Frames(rest).0;
    }
  }

  // ---------------------------------------------------------------- replacing a request

  /** A request and how many of its bytes had been written when it was replaced; all of them if it was not. */
  datatype Piece = Piece(range: Range, written: nat)

  predicate PiecesOk(ps: seq<Piece>) { forall j :: 0 <= j < |ps| ==> RangeOk(ps[j].range) && ps[j].written <= FRAME }

  /** How many bytes were written. */
  function Total(ps: seq<Piece>): nat { if ps == [] then 0 else ps[0].written + Total(ps[1..]) }

  /** And which. */
  function PiecesStream(ps: seq<Piece>): (b: seq<Byte>)
    requires PiecesOk(ps)
    ensures |b| == Total(ps)
  {
    if ps == [] then [] else EncodeRange(ps[0].range)[..ps[0].written] + PiecesStream(ps[1..])
  }

  lemma {:induction false} StreamSplits(ps: seq<Piece>, j: nat)
    requires PiecesOk(ps) && j <= |ps|
    ensures PiecesStream(ps) == PiecesStream(ps[..j]) + PiecesStream(ps[j..])
  {
    hide EncodeRange;
    if j == 0 {
      assert ps[..0] == [] && ps[0..] == ps;
    } else {
      StreamSplits(ps[1..], j - 1);
      assert ps[..j][1..] == ps[1..][..j - 1] && ps[1..][j - 1..] == ps[j..];
      var e, a, b := EncodeRange(ps[0].range)[..ps[0].written], PiecesStream(ps[..j][1..]), PiecesStream(ps[j..]);
      assert e + (a + b) == (e + a) + b;
    }
  }

  lemma {:induction false} FramesConcat(a: seq<Byte>, b: seq<Byte>)
    requires |a| % FRAME == 0
    ensures Frames(a + b) == (Frames(a).0 + Frames(b).0, Frames(b).1)
    decreases |a|
  {
    hide FrameOf;
    if a == [] {
      assert a + b == b && Frames(a).0 + Frames(b).0 == Frames(b).0;
    } else {
      assert a + b == a[..FRAME] + (a[FRAME..] + b) && a[..FRAME] + a[FRAME..] == a;
      FirstFrame(a[..FRAME], a[FRAME..] + b);
      FirstFrame(a[..FRAME], a[FRAME..]);
      FramesConcat(a[FRAME..], b);
      var f := FrameOf(a[..FRAME]);
      assert [f] + (Frames(a[FRAME..]).0 + Frames(b).0) == ([f] + Frames(a[FRAME..]).0) + Frames(b).0;
    }
  }

  /** Request number j was written as a whole and begins at a frame boundary. */
  predicate WholeFrame(ps: seq<Piece>, j: nat) {
    j < |ps| && ps[j].written == FRAME && Total(ps[..j]) % FRAME == 0
  }

  /** The sender reads it as it was written. */
  predicate ReadAsWritten(ps: seq<Piece>, j: nat)
    requires PiecesOk(ps) && j < |ps|
  {
    var rs, n := Frames(PiecesStream(ps)).0, Total(ps[..j]) / FRAME;
    n < |rs| && rs[n] == ps[j].range
  }

  lemma WholeAtBoundary(ps: seq<Piece>, j: nat)
    requires PiecesOk(ps) && WholeFrame(ps, j)
    ensures ReadAsWritten(ps, j)
  {
    hide FrameOf, EncodeRange;
    var a, e, b := PiecesStream(ps[..j]), EncodeRange(ps[j].range), PiecesStream(ps[j + 1..]);
    StreamSplits(ps, j);
    assert ps[j..][0] == ps[j] && ps[j..][1..] == ps[j + 1..] && e[..FRAME] == e;
    assert PiecesStream(ps) == a + (e + b);
    FramesConcat(a, e + b);
    FirstFrame(e, b);
    FrameOfRange(ps[j].range);
    assert |Frames(a).0| == Total(ps[..j]) / FRAME;
  }

  lemma RestIsRemainder(stream: seq<Byte>)
    ensures |Frames(stream).1| == |stream| % FRAME
  {
  }

  /** However many requests were replaced: once everything is read, the sender is between two frames
      exactly when the bytes written add up to whole frames, and every request that was written as a whole
      at a frame boundary is read as it was written. */
  lemma ReplacedFramesAligned(ps: seq<Piece>)
    requires PiecesOk(ps)
    ensures Frames(PiecesStream(ps)).1 == [] <==> Total(ps) % FRAME == 0
    ensures forall j :: 0 <= j < |ps| && WholeFrame(ps, j) ==> ReadAsWritten(ps, j)
  {
    RestIsRemainder(PiecesStream(ps));
    hide Frames, Total, PiecesStream, WholeFrame, ReadAsWritten;
    forall j | 0 <= j < |ps| && WholeFrame(ps, j) ensures ReadAsWritten(ps, j) { WholeAtBoundary(ps, j); }
  }

  /** So the frames can be lost and found: two requests replaced after eight bytes each. */
  lemma LostAndFound(a: Range, b: Range, c: Range)
    requires RangeOk(a) && RangeOk(b) && RangeOk(c)
    ensures var f := Frames(PiecesStream([Piece(a, 8), Piece(b, 8), Piece(c, FRAME)])); |f.0| == 2 && f.0[1] == c && f.1 == []
  {
    var ps := [Piece(a, 8), Piece(b, 8), Piece(c, FRAME)];
    var pb, pc := [Piece(b, 8)], [Piece(c, FRAME)];
    assert pb[1..] == [] && pc[1..] == [] && Total([]) == 0 && Total(pb) == 8 && Total(pc) == 16;
    assert ps[..2][1..] == pb && Total(ps[..2]) == 16;
    assert ps[1..][1..] == pc && Total(ps[1..]) == 24 && Total(ps) == 32;
    WholeAtBoundary(ps, 2);
    RestIsRemainder(PiecesStream(ps));
  }

  /** The stream when `written` was followed by k bytes of `half`, which was then replaced. */
  function Replaced(written: seq<Range>, half: Range, k: nat, later: seq<Range>): seq<Byte>
    requires RangesOk(written) && RangeOk(half) && RangesOk(later) && k <= FRAME
  {
    EncodeRanges(written) + (EncodeRange(half)[..k] + EncodeRanges(later))
  }

  /** After the first request that is replaced in part, the next frame read is made of the beginning of
      that request and the beginning of the next. */
  lemma ReplacedFrameIsMixed(written: seq<Range>, half: Range, k: nat, later: seq<Range>)
    requires RangesOk(written) && RangeOk(half) && RangesOk(later) && 0 < k < FRAME && later != []
    ensures var rs := Frames(Replaced(written, half, k, later)).0;
      |rs| == |written| + |later| && rs[|written|] == FrameOf(EncodeRange(half)[..k] + EncodeRange(later[0])[..FRAME - k])
  {
    hide FrameOf, EncodeRange;
    var e, l, m := EncodeRange(half), EncodeRange(later[0]), EncodeRanges(later[1..]);
    FramesOfRequests(written, e[..k] + EncodeRanges(later));
    assert e[..k] + EncodeRanges(later) == (e[..k] + l[..FRAME - k]) + (l[FRAME - k..] + m);
    FirstFrame(e[..k] + l[..FRAME - k], l[FRAME - k..] + m);
  }

  /** Replaced after its lower bound: the sender reads a range that joins two requests, and from then
      on the upper bound of each request with the lower bound of the next. */
  lemma ReplacedAfterLower(a: Range, b: Range, c: Range)
    requires RangeOk(a) && RangeOk(b) && RangeOk(c)
    ensures Frames(Replaced([], a, 8, [b, c])).0 == [Range(a.low, b.low), Range(b.high, c.low)]
  {
    var x, y, z := EncodeRange(a), EncodeRange(b), EncodeRange(c);
    Get64Put64(a.low);
    Get64Put64(b.low);
    Get64Put64(b.high);
    Get64Put64(c.low);
    assert [b, c][1..] == [c] && [c][1..] == [];
    assert EncodeRanges([c]) == z && EncodeRanges([b, c]) == y + z;
    var f1, f2 := Put64(a.low) + Put64(b.low), Put64(b.high) + Put64(c.low);
    assert x[..8] == Put64(a.low);
    var stream := Replaced([], a, 8, [b, c]);
    assert stream == [] + (x[..8] + EncodeRanges([b, c]));
    assert x[..8] + (y + z) == f1 + (f2 + Put64(c.high));
    assert f1[..8] == Put64(a.low) && f1[8..] == Put64(b.low) && f2[..8] == Put64(b.high) && f2[8..] == Put64(c.low);
    FirstFrame(f1, f2 + Put64(c.high));
    FirstFrame(f2, Put64(c.high));
    assert Frames(Put64(c.high)).0 == [];
    assert stream == f1 + (f2 + Put64(c.high));
    assert Frames(stream).0 == [FrameOf(f1)] + ([FrameOf(f2)] + []);
  }

  // ---------------------------------------------------------------- the receiver's writer

  /** The receiver's one-slot request buffer. */
  class RequestWriter {
    const outBuf: array<Byte>
    var outNext: nat
    var outRemain: nat
    ghost var wire: seq<Byte>   // every byte accepted by the socket

    ghost predicate Valid()
      reads this
    {
      outBuf.Length == FRAME && (outRemain > 0 ==> outNext + outRemain == FRAME) && outNext <= FRAME
    }

    /** What will have been written when the buffer is empty. */
    ghost function Stream(): seq<Byte>
      requires Valid()
      reads this, outBuf
    {
      if outRemain == 0 then wire else wire + outBuf[outNext..]
    }

    constructor ()
      ensures Valid() && wire == [] && Stream() == [] && fresh(outBuf)
    {
      outBuf := new Byte[FRAME](_ => 0);
      outNext, outRemain, wire := 0, 0, [];
    }

    /** request_gap: the buffer starts over whatever was in it, so the bytes already written of the
        request before are followed by the new one. The stream will be aligned exactly when the bytes
        written so far are whole frames; if it was going to be, exactly when none or all of the request
        in the buffer had been written. */
    method RequestGap(r: Range)
      requires Valid() && RangeOk(r)
      modifies this, outBuf
      ensures Valid() && wire == old(wire) && Stream() == wire + EncodeRange(r)
      ensures |Stream()| % FRAME == 0 <==> |wire| % FRAME == 0
      ensures old(|Stream()| % FRAME == 0) ==>
        (|Stream()| % FRAME == 0 <==> old(outRemain) == 0 || old(outRemain) == FRAME)
    {
      ghost var before := |wire|;
      assert |Stream()| == before + outRemain;
      Residue(before, outRemain);
      CopyInto(outBuf, 0, EncodeRange(r));
      outNext, outRemain := 0, FRAME;
      assert outBuf[0..] == EncodeRange(r);
    }

    /** The socket accepts k bytes. */
    method Accept(k: nat)
      requires Valid() && 0 < k <= outRemain
      modifies this
      ensures Valid() && Stream() == old(Stream()) && old(wire) <= wire
      ensures outRemain == old(outRemain) - k && |wire| == old(|wire|) + k
    {
      ghost var part, rest := outBuf[outNext..outNext + k], outBuf[outNext + k..];
      assert outBuf[outNext..] == part + rest;
      assert wire + (part + rest) == wire + part + rest;
      wire := wire + part;
      outNext := outNext + k;
      outRemain := outRemain - k;
      assert outRemain == 0 ==> rest == [];
    }

    /** tcp_write_buf: the socket accepts some bytes each time until it blocks or all are written. */
    method Write(accepts: seq<nat>)
      requires Valid()
      modifies this
      ensures Valid() && Stream() == old(Stream()) && old(wire) <= wire
      ensures |wire| + outRemain == old(|wire| + outRemain)
      ensures Accepting(accepts, old(outRemain)) ==> |wire| == old(|wire|) + Sum(accepts)
    {
      var j := 0;
      while outRemain > 0 && j < |accepts| && 0 < accepts[j] <= outRemain
        invariant Valid() && j <= |accepts| && Stream() == old(Stream()) && old(wire) <= wire
        invariant |wire| + outRemain == old(|wire| + outRemain) && |wire| == old(|wire|) + Sum(accepts[..j])
      {
        SumGrows(accepts, j);
        Accept(accepts[j]);
        j := j + 1;
      }
      SumGrows(accepts, j);
      assert accepts[..|accepts|] == accepts;
    }
  }

  lemma Residue(n: nat, r: nat)
    requires r <= FRAME
    ensures (n + r) % FRAME == 0 ==> (n % FRAME == 0 <==> r == 0 || r == FRAME)
  {
  }
}
