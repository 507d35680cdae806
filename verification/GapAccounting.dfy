/** What a receiver asks for, whatever packets and heartbeats reach it in whatever order. */
module GapAccounting {
  import opened Sequences
  import opened SenderModel
  import opened ReceiverModel

  /** The ranges requested and the sequences applied from multicast, oldest first. */
  datatype Audit = Audit(recv: Receiver, requested: seq<Range>, applied: seq<int>)

  function Position(p: Packet): int { if p.hdr < 0 then -p.hdr else p.hdr }

  function Hear(a: Audit, p: Packet): Audit {
    Audit(McastOnRead(a.recv, p),
          if RequestsGap(a.recv, p) then a.requested + [Range(a.recv.next, Position(p))] else a.requested,
          if p.hdr >= 0 && p.hdr >= a.recv.next then a.applied + [p.hdr] else a.applied)
  }

  function HearAll(n: nat, ps: seq<Packet>): Audit {
    if ps == [] then Audit(InitReceiver(n), [], []) else Hear(HearAll(n, ps[..|ps| - 1]), ps[|ps| - 1])
  }

  predicate InRequested(requested: seq<Range>, k: int) {
    exists j :: 0 <= j < |requested| && requested[j].Contains(k)
  }

  /** Requested ranges are non-empty, ascending and disjoint, applied sequences strictly ascend, and
      every sequence below `next` is in one of the two and not in both. */
  ghost predicate Partition(requested: seq<Range>, applied: seq<int>, next: int) {
    && 0 <= next
    && (forall j :: 0 <= j < |requested| ==> 0 <= requested[j].low < requested[j].high <= next)
    && (forall j, j' :: 0 <= j < j' < |requested| ==> requested[j].high <= requested[j'].low)
    && (forall j :: 0 <= j < |applied| ==> 0 <= applied[j] < next)
    && (forall j, j' :: 0 <= j < j' < |applied| ==> applied[j] < applied[j'])
    && (forall k :: 0 <= k < next ==> (InRequested(requested, k) <==> k !in applied))
  }

  ghost predicate Partitioned(a: Audit) { Partition(a.requested, a.applied, a.recv.next) }

  lemma ApplyRecsKeepsNext(r: Receiver, seqNo: int, recs: seq<Staged>)
    ensures ApplyRecs(r, seqNo, recs).next == r.next
  {
  }

  /** The request handed to the socket is the one recorded here. */
  lemma RequestIsRecorded(a: Audit, p: Packet)
    requires RequestsGap(a.recv, p)
    ensures McastOnRead(a.recv, p).out == Some(Range(a.recv.next, Position(p)))
  {
    ApplyRecsKeepsNext(a.recv, p.hdr, p.recs);
  }

  lemma RequestedGrows(requested: seq<Range>, r: Range, k: int)
    ensures InRequested(requested + [r], k) <==> InRequested(requested, k) || r.Contains(k)
  {
    assert (requested + [r])[|requested|] == r;
    if InRequested(requested, k) {
      var j :| 0 <= j < |requested| && requested[j].Contains(k);
      assert (requested + [r])[j].Contains(k);
    }
  }

  lemma GapKeepsPartition(requested: seq<Range>, applied: seq<int>, next: int, high: int)
    requires Partition(requested, applied, next) && next < high
    ensures Partition(requested + [Range(next, high)], applied, high)
  {
    forall k | 0 <= k < high ensures InRequested(requested + [Range(next, high)], k) <==> k !in applied {
      RequestedGrows(requested, Range(next, high), k);
    }
  }

  lemma DataKeepsPartition(requested: seq<Range>, applied: seq<int>, next: int)
    requires Partition(requested, applied, next)
    ensures Partition(requested, applied + [next], next + 1)
  {
    assert !InRequested(requested, next);
    forall k | 0 <= k <= next ensures InRequested(requested, k) <==> k !in applied + [next] {}
  }

  lemma HearKeepsPartition(a: Audit, p: Packet)
    requires Partitioned(a)
    ensures Partitioned(Hear(a, p))
  {
    ApplyRecsKeepsNext(a.recv, p.hdr, p.recs);
    var gap := RequestsGap(a.recv, p);
    if gap { GapKeepsPartition(a.requested, a.applied, a.recv.next, Position(p)); }
    if p.hdr >= 0 && p.hdr >= a.recv.next {
      DataKeepsPartition(if gap then a.requested + [Range(a.recv.next, p.hdr)] else a.requested, a.applied, p.hdr);
    }
  }

  /** The receiver's gap accounting is exact for every sequence of packets and heartbeats heard, and
      the first one, unless it is a data packet numbered 0, makes it ask for everything from 0. */
  lemma {:induction false} GapsPartition(n: nat, ps: seq<Packet>)
    ensures Partitioned(HearAll(n, ps))
    ensures ps != [] && ps[0].hdr != 0 ==> HearAll(n, ps[..1]).requested == [Range(0, Position(ps[0]))]
  {
    if ps != [] {
      GapsPartition(n, ps[..|ps| - 1]);
      HearKeepsPartition(HearAll(n, ps[..|ps| - 1]), ps[|ps| - 1]);
      assert ps[..1][..0] == [];
    }
  }
}
