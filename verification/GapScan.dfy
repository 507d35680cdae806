/** One gap scan of the sender, spread over any number of calls of tcp_on_write. */
module GapScan {
  import opened Sequences
  import opened SenderModel

  /** What one call sees: the sequences staged so far and the revisions in storage. */
  datatype Snapshot = Snapshot(seqs: seq<int>, revs: seq<nat>)

  predicate Shows(snap: Snapshot, n: nat) { |snap.seqs| == |snap.revs| == n }

  predicate AllShow(snaps: seq<Snapshot>, n: nat) { forall k :: 0 <= k < |snaps| ==> Shows(snaps[k], n) }

  /** The scan loop of one call: it ends with a response in the buffer or past the last record. */
  function ScanLoop(c: Client, snap: Snapshot, n: nat): Client
    requires Shows(snap, n)
    decreases n - c.replyId
  {
    if c.replyId >= n then c
    else
      var c1 := ScanOne(c, snap.seqs[c.replyId], snap.revs[c.replyId]);
      if c1.out.Some? then c1 else ScanLoop(c1, snap, n)
  }

  /** A call for each snapshot from number k on; a message is completely written before the next call scans on. */
  function ScanCalls(c: Client, snaps: seq<Snapshot>, n: nat, k: nat): (Client, seq<TcpMsg>)
    requires AllShow(snaps, n) && k <= |snaps|
    decreases |snaps| - k
  {
    if k == |snaps| then (c, [])
    else
      var c1 := ScanLoop(c.(out := None), snaps[k], n);
      var (c2, msgs) := ScanCalls(c1, snaps, n, k + 1);
      (c2, (if c1.out.Some? then [c1.out.value] else []) + msgs)
  }

  /** What a record showed when it was examined, and in which call. */
  datatype Look = Look(seqNo: int, rev: nat, call: nat)

  /** looks[j] is what record lo + j showed. */
  predicate Looked(looks: seq<Look>, snaps: seq<Snapshot>, n: nat, lo: nat)
    requires AllShow(snaps, n)
  {
    && lo + |looks| <= n
    && forall j :: 0 <= j < |looks| ==>
         && looks[j].call < |snaps|
         && looks[j].seqNo == snaps[looks[j].call].seqs[lo + j]
         && looks[j].rev == snaps[looks[j].call].revs[lo + j]
  }

  /** The looks were taken in calls first .. last, in this order. */
  predicate InOrder(looks: seq<Look>, first: nat, last: nat) {
    && (forall j :: 0 <= j < |looks| ==> first <= looks[j].call <= last)
    && (forall j, j' :: 0 <= j < j' < |looks| ==> looks[j].call <= looks[j'].call)
  }

  lemma InOrderConcat(a: seq<Look>, b: seq<Look>, first: nat, mid: nat, mid': nat, last: nat)
    requires InOrder(a, first, mid) && InOrder(b, mid', last) && first <= mid <= mid' <= last
    ensures InOrder(a + b, first, last)
  {
  }

  /** m is the least of `from` and what was looked at. */
  ghost predicate LeastOf(m: int, from: int, looks: seq<Look>) {
    && m <= from && (forall j :: 0 <= j < |looks| ==> m <= looks[j].seqNo)
    && (m == from || exists j :: 0 <= j < |looks| && m == looks[j].seqNo)
  }

  lemma LeastConcat(m: int, mid: int, from: int, a: seq<Look>, b: seq<Look>)
    requires LeastOf(mid, from, a) && LeastOf(m, mid, b)
    ensures LeastOf(m, from, a + b)
  {
    if m != mid {
      var j :| 0 <= j < |b| && m == b[j].seqNo;
      assert (a + b)[|a| + j].seqNo == m;
    } else if m != from {
      var j :| 0 <= j < |a| && m == a[j].seqNo;
      assert (a + b)[j].seqNo == m;
    }
  }

  /** The responses due for records lo, lo + 1, .. that showed `looks`. */
  function Due(range: Range, looks: seq<Look>, lo: nat): seq<TcpMsg> {
    if looks == [] then []
    else
      (if range.Contains(looks[0].seqNo) && looks[0].rev != 0
       then [Response(looks[0].seqNo, lo, looks[0].rev)] else []) + Due(range, looks[1..], lo + 1)
  }

  lemma {:induction false} DueConcat(range: Range, a: seq<Look>, b: seq<Look>, lo: nat)
    ensures Due(range, a + b, lo) == Due(range, a, lo) + Due(range, b, lo + |a|)
  {
    if a == [] {
      assert a + b == b;
    } else {
      assert (a + b)[1..] == a[1..] + b;
      DueConcat(range, a[1..], b, lo + 1);
    }
  }

  lemma DueOne(range: Range, look: Look, lo: nat)
    ensures Due(range, [look], lo) == if range.Contains(look.seqNo) && look.rev != 0 then [Response(look.seqNo, lo, look.rev)] else []
  {
  }

  lemma LookedConcat(a: seq<Look>, b: seq<Look>, snaps: seq<Snapshot>, n: nat, lo: nat)
    requires AllShow(snaps, n) && Looked(a, snaps, n, lo) && Looked(b, snaps, n, lo + |a|)
    ensures Looked(a + b, snaps, n, lo)
  {
    forall j | |a| <= j < |a + b| ensures (a + b)[j] == b[j - |a|] && lo + |a| + (j - |a|) == lo + j {}
  }

  /** From client state c to c', the records that showed `looks` were examined in calls first .. last, each
      once and in order, and msgs are exactly the responses due. */
  ghost predicate Examined(c: Client, c': Client, looks: seq<Look>, msgs: seq<TcpMsg>, snaps: seq<Snapshot>, n: nat, first: nat, last: nat)
    requires AllShow(snaps, n)
  {
    && c.replyId + |looks| == c'.replyId && c'.reply == c.reply
    && Looked(looks, snaps, n, c.replyId) && InOrder(looks, first, last)
    && LeastOf(c'.minFound, c.minFound, looks) && msgs == Due(c.reply, looks, c.replyId)
  }

  lemma ExaminedThen(c: Client, c1: Client, c2: Client, a: seq<Look>, b: seq<Look>, m1: seq<TcpMsg>, m2: seq<TcpMsg>,
                     snaps: seq<Snapshot>, n: nat, first: nat, mid: nat, mid': nat, last: nat)
    requires AllShow(snaps, n) && first <= mid <= mid' <= last
    requires Examined(c, c1, a, m1, snaps, n, first, mid) && Examined(c1, c2, b, m2, snaps, n, mid', last)
    ensures Examined(c, c2, a + b, m1 + m2, snaps, n, first, last)
  {
    hide Looked, InOrder, Due, LeastOf;
    LookedConcat(a, b, snaps, n, c.replyId);
    InOrderConcat(a, b, first, mid, mid', last);
    LeastConcat(c2.minFound, c1.minFound, c.minFound, a, b);
    DueConcat(c.reply, a, b, c.replyId);
  }

  lemma ExaminedNone(c: Client, snaps: seq<Snapshot>, n: nat, first: nat, last: nat)
    requires AllShow(snaps, n) && c.replyId <= n
    ensures Examined(c, c, [], [], snaps, n, first, last)
  {
  }

  lemma ExaminedOne(c: Client, snaps: seq<Snapshot>, n: nat, k: nat)
    requires AllShow(snaps, n) && k < |snaps| && c.replyId < n && c.out.None?
    ensures var seqNo, rev := snaps[k].seqs[c.replyId], snaps[k].revs[c.replyId];
      var c1 := ScanOne(c, seqNo, rev);
      Examined(c, c1, [Look(seqNo, rev, k)], if c1.out.Some? then [c1.out.value] else [], snaps, n, k, k)
  {
    var look := Look(snaps[k].seqs[c.replyId], snaps[k].revs[c.replyId], k);
    assert [look][0] == look;
    DueOne(c.reply, look, c.replyId);
  }

  function Queued(c: Client): seq<TcpMsg> { if c.out.Some? then [c.out.value] else [] }

  /** Within one call: every record from replyId up to the new replyId is examined once, in order. */
  lemma {:induction false} ScanLoopLooks(c: Client, snaps: seq<Snapshot>, n: nat, k: nat) returns (looks: seq<Look>)
    requires AllShow(snaps, n) && k < |snaps| && c.out.None? && c.replyId <= n
    ensures var c' := ScanLoop(c, snaps[k], n); Examined(c, c', looks, Queued(c'), snaps, n, k, k)
    decreases n - c.replyId
  {
    if c.replyId == n {
      ExaminedNone(c, snaps, n, k, k);
      return [];
    }
    var c1 := ScanOne(c, snaps[k].seqs[c.replyId], snaps[k].revs[c.replyId]);
    ExaminedOne(c, snaps, n, k);
    assert ScanLoop(c, snaps[k], n) == if c1.out.Some? then c1 else ScanLoop(c1, snaps[k], n);
    hide ScanLoop, Examined;
    looks := [Look(snaps[k].seqs[c.replyId], snaps[k].revs[c.replyId], k)];
    if c1.out.None? {
      var rest := ScanLoopLooks(c1, snaps, n, k);
      var c2 := ScanLoop(c1, snaps[k], n);
      ExaminedThen(c, c1, c2, looks, rest, [], Queued(c2), snaps, n, k, k, k, k);
      assert [] + Queued(c2) == Queued(c2);
      looks := looks + rest;
    }
  }

  /** Over any number of interrupted calls, with records re-staged and rewritten in between, the scan
      examines every record it passes exactly once, never out of order, queues exactly one response for
      each record that was in range and written when it was examined, and finds the least sequence. */
  lemma {:induction false} ScanExaminesOnce(c: Client, snaps: seq<Snapshot>, n: nat, k: nat) returns (looks: seq<Look>)
    requires AllShow(snaps, n) && k <= |snaps| && c.replyId <= n
    ensures var (c', msgs) := ScanCalls(c, snaps, n, k); Examined(c, c', looks, msgs, snaps, n, k, |snaps|)
    decreases |snaps| - k
  {
    if k == |snaps| {
      ExaminedNone(c, snaps, n, k, k);
      return [];
    }
    var c0 := c.(out := None);
    var c1 := ScanLoop(c0, snaps[k], n);
    var head := ScanLoopLooks(c0, snaps, n, k);
    OutDoesNotMatter(c, c1, head, Queued(c1), snaps, n, k, k);
    var tail := ScanExaminesOnce(c1, snaps, n, k + 1);
    var (c2, msgs) := ScanCalls(c1, snaps, n, k + 1);
    hide ScanLoop, Examined;
    ExaminedThen(c, c1, c2, head, tail, Queued(c1), msgs, snaps, n, k, k, k + 1, |snaps|);
    looks := head + tail;
  }

  lemma OutDoesNotMatter(c: Client, c': Client, looks: seq<Look>, msgs: seq<TcpMsg>, snaps: seq<Snapshot>, n: nat, first: nat, last: nat)
    requires AllShow(snaps, n) && Examined(c.(out := None), c', looks, msgs, snaps, n, first, last)
    ensures Examined(c, c', looks, msgs, snaps, n, first, last) && c'.replyId <= n
  {
  }

  /** A call that leaves no message behind has reached the last record. */
  lemma {:induction false} ScanLoopEnds(c: Client, snap: Snapshot, n: nat)
    requires Shows(snap, n) && c.out.None? && c.replyId <= n
    ensures ScanLoop(c, snap, n).out.None? ==> ScanLoop(c, snap, n).replyId == n
    decreases n - c.replyId
  {
    if c.replyId < n {
      var c1 := ScanOne(c, snap.seqs[c.replyId], snap.revs[c.replyId]);
      if c1.out.None? { ScanLoopEnds(c1, snap, n); }
    }
  }

  /** What tcp_on_read_blocked does with the merged requests: those below min_seq are dropped and no scan
      begins; otherwise a scan for them begins at the first record, unless one is running, which goes on. */
  lemma StartOrDrop(c: Client, minSeq: int)
    ensures var c' := StartScan(c, minSeq);
      && c'.out == c.out
      && (c.union.high <= minSeq ==> !c'.union.Valid() && c'.(union := c.union) == c)
      && (c.union.high > minSeq && c.reply.Valid() ==> c' == c)
      && (c.union.high > minSeq && !c.reply.Valid() ==> c'.reply == c.union && !c'.union.Valid() && c'.replyId == 0)
  {
  }

  /** A scan that was begun so and has reached the last record, over any number of interrupted calls: the
      min_seq it leaves is the least of the sequences it met, and one of them. */
  lemma FinishedScanMin(c0: Client, minSeq: int, snaps: seq<Snapshot>, n: nat) returns (looks: seq<Look>)
    requires AllShow(snaps, n) && 0 < n && c0.union.high > minSeq && !c0.reply.Valid()
    requires forall k, i :: 0 <= k < |snaps| && 0 <= i < n ==> snaps[k].seqs[i] < SEQUENCE_MAX
    requires ScanCalls(StartScan(c0, minSeq), snaps, n, 0).0.replyId == n
    ensures |looks| == n && Looked(looks, snaps, n, 0)
    ensures var m := ScanCalls(StartScan(c0, minSeq), snaps, n, 0).0.minFound;
      (forall j :: 0 <= j < n ==> m <= looks[j].seqNo) && exists j :: 0 <= j < n && m == looks[j].seqNo
  {
    var c := StartScan(c0, minSeq);
    looks := ScanExaminesOnce(c, snaps, n, 0);
    hide ScanCalls;
    assert looks[0].seqNo < SEQUENCE_MAX;
  }

  /** If nothing is staged meanwhile, that is the least sequence of all records. */
  lemma UndisturbedScanMin(c0: Client, minSeq: int, snaps: seq<Snapshot>, n: nat, seqs: seq<int>, i: nat)
    requires AllShow(snaps, n) && i < n == |seqs| && c0.union.high > minSeq && !c0.reply.Valid()
    requires (forall k :: 0 <= k < |snaps| ==> snaps[k].seqs == seqs) && forall j :: 0 <= j < n ==> seqs[j] < SEQUENCE_MAX
    requires ScanCalls(StartScan(c0, minSeq), snaps, n, 0).0.replyId == n
    ensures var m := ScanCalls(StartScan(c0, minSeq), snaps, n, 0).0.minFound; m <= seqs[i] && m in seqs
  {
    var looks := FinishedScanMin(c0, minSeq, snaps, n);
    assert forall j :: 0 <= j < n ==> looks[j].seqNo == seqs[j];
  }
}
