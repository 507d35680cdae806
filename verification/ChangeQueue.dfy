/** The change queue: a power-of-two ring of identifiers (src/storage.c) and the batch reader that
    follows it while the writer runs on (src/batch.c). */
module ChangeQueue {
  import opened Bits

  /** storage_create accepts a capacity when it is not 1 and q & (q - 1) is zero. */
  predicate CapacityOk(capacity: nat) {
    capacity != 1 && (capacity == 0 || And(capacity, capacity - 1) == 0)
  }

  lemma CapacityMeaning(capacity: nat)
    ensures CapacityOk(capacity) <==> capacity == 0 || (capacity >= 2 && IsPow2(capacity))
  {
    Pow2Test(capacity);
  }

  /** Which entry the slot of entry q holds once `written` entries have been stored. */
  function EntryInSlot(capacity: nat, written: nat, q: nat): (p: nat)
    requires capacity > 0 && q < written
    ensures q <= p < written && p % capacity == q % capacity && written <= p + capacity
    decreases written - q
  {
    if q + capacity < written then
      SameSlot(q, capacity);
      EntryInSlot(capacity, written, q + capacity)
    else q
  }

  lemma SameSlot(q: nat, capacity: nat)
    requires capacity > 0
    ensures (q + capacity) % capacity == q % capacity
  {
    var d, r := q / capacity, q % capacity;
    assert q == d * capacity + r;
    assert q + capacity == (d + 1) * capacity + r;
    ModUnique(q + capacity, capacity, d + 1, r);
  }

  class ChangeRing {
    const capacity: nat
    const slots: array<int>
    var head: nat
    ghost var log: seq<int>   // every id ever written

    /** The last `capacity` entries are in their slots. */
    ghost predicate Valid()
      reads this, slots
    {
      && CapacityOk(capacity) && slots.Length == (if capacity == 0 then 1 else capacity)
      && head == |log|
      && (capacity > 0 ==> forall q :: 0 <= q < head <= q + capacity ==> slots[q % capacity] == log[q])
    }

    constructor (capacity: nat)
      requires CapacityOk(capacity)
      ensures Valid() && log == [] && this.capacity == capacity && fresh(slots)
    {
      this.capacity := capacity;
      slots := new int[if capacity == 0 then 1 else capacity];
      head, log := 0, [];
    }

    /** storage_write_queue: NO_CHANGE_QUEUE when the storage has none. */
    method Write(id: int) returns (ok: bool)
      requires Valid()
      modifies this, slots
      ensures Valid() && ok == (capacity > 0)
      ensures log == if ok then old(log) + [id] else old(log)
    {
      ok := capacity > 0;
      if ok {
        MaskIsSlot(head, capacity);
        forall q | 0 <= q < head && head + 1 <= q + capacity ensures q % capacity != head % capacity {
          DistinctSlots(q, head, capacity);
        }
        slots[And(head, capacity - 1)] := id;
        log := log + [id];
        head := head + 1;
      }
    }

    /** storage_read_queue: any index can be read; the slot holds the last entry stored there. */
    method Read(q: nat) returns (ok: bool, id: int)
      requires Valid()
      ensures ok == (capacity > 0)
      ensures ok && q < head ==> id == log[EntryInSlot(capacity, head, q)]
      ensures ok && q < head <= q + capacity ==> id == log[q]
    {
      ok, id := capacity > 0, 0;
      if ok {
        MaskIsSlot(q, capacity);
        id := slots[And(q, capacity - 1)];
      }
    }
  }

  lemma MaskIsSlot(q: nat, capacity: nat)
    requires CapacityOk(capacity) && capacity > 0
    ensures And(q, capacity - 1) == q % capacity
  {
    CapacityMeaning(capacity);
    var k: nat :| Pow2(k) == capacity;
    MaskIsMod(q, k);
  }

  lemma DistinctSlots(p: nat, q: nat, capacity: nat)
    requires capacity > 0 && p < q < p + capacity
    ensures p % capacity != q % capacity
  {
    var d, r := p / capacity, p % capacity;
    assert p == d * capacity + r;
    if r + (q - p) < capacity {
      ModUnique(q, capacity, d, r + (q - p));
    } else {
      assert q == (d + 1) * capacity + (r + (q - p) - capacity);
      ModUnique(q, capacity, d + 1, r + (q - p) - capacity);
    }
  }

  // ---------------------------------------------------------------- readers beside a running writer

  /** Where the writer is: it stores an entry in its slot first and then increments the head. */
  datatype Moment = Moment(head: nat, storing: bool)

  function Written(m: Moment): nat { if m.storing then m.head + 1 else m.head }

  /** What a read yields depends on where the writer is at the moment of the read, not at the moment of
      the overrun check: it is the entry asked for exactly when the writer, counting the entry it is
      storing, has not gone more than the capacity beyond it. */
  lemma ReadIsExact(capacity: nat, m: Moment, q: nat)
    requires capacity > 0 && q < Written(m)
    ensures EntryInSlot(capacity, Written(m), q) == q <==> Written(m) <= q + capacity
  {
  }

  /** The check of the batch reader (head - q <= capacity) is therefore not enough even if the writer
      does not move between check and read: it may be storing. And if it moves, any entry can be lost. */
  lemma CheckIsNotEnough(capacity: nat, q: nat, m: Moment, m': Moment)
    requires capacity > 0 && q < m.head <= q + capacity && m.head <= m'.head
    ensures EntryInSlot(capacity, Written(m'), q) != q <==> m'.head > q + capacity || (m'.head == q + capacity && m'.storing)
  {
    ReadIsExact(capacity, m', q);
  }

  datatype BatchResult = InvalidArgument | Overrun | Read(n: nat)

  /** The writer only moves forward. */
  ghost predicate Monotone(at: nat -> Moment) {
    forall s: nat, t: nat :: s <= t ==> Written(at(s)) <= Written(at(t)) && at(s).head <= at(t).head
  }

  /** Reading index q at moment t yields the entry that its slot holds then. */
  ghost predicate ReadsSlots(log: nat -> int, capacity: nat, at: nat -> Moment, slot: (nat, nat) -> int)
    requires capacity > 0
  {
    forall t: nat, q: nat :: q < Written(at(t)) ==> slot(t, q) == log(EntryInSlot(capacity, Written(at(t)), q))
  }

  /** The reader's first look at the head that counts; a negative position costs one more. */
  function FirstLook(start: int): nat { if start < 0 then 1 else 0 }

  /** Where reading starts: a negative position stands for the queue's head. */
  function Origin(start: int, at: nat -> Moment): nat { if start < 0 then at(0).head else start }

  lemma Later(at: nat -> Moment, s: nat, t: nat)
    requires Monotone(at) && s <= t
    ensures at(s).head <= at(t).head && Written(at(s)) <= Written(at(t))
  {
  }

  /** ids are what the slots of positions first, first + 1, .. held at the moments `when`. */
  ghost predicate ReadAt(ids: seq<int>, when: seq<nat>, first: nat, last: nat, capacity: nat, log: nat -> int, at: nat -> Moment) {
    && |when| == |ids| && (ids != [] ==> capacity > 0)
    && (forall i, j :: 0 <= i < j < |when| ==> when[i] < when[j])
    && forall j :: 0 <= j < |ids| ==>
         when[j] <= last && first + j < Written(at(when[j])) && ids[j] == log(EntryInSlot(capacity, Written(at(when[j])), first + j))
  }

  lemma OneMore(ids: seq<int>, when: seq<nat>, first: nat, t: nat, capacity: nat, log: nat -> int, at: nat -> Moment, slot: (nat, nat) -> int)
    requires ReadAt(ids, when, first, t, capacity, log, at)
    requires capacity > 0 && ReadsSlots(log, capacity, at, slot) && first + |ids| < at(t + 1).head
    ensures ReadAt(ids + [slot(t + 1, first + |ids|)], when + [t + 1], first, t + 1, capacity, log, at)
  {
  }

  lemma NothingRead(first: nat, capacity: nat, log: nat -> int, at: nat -> Moment)
    ensures ReadAt([], [], first, 0, capacity, log, at)
  {
  }

  lemma Postponed(ids: seq<int>, when: seq<nat>, first: nat, t: nat, capacity: nat, log: nat -> int, at: nat -> Moment)
    requires ReadAt(ids, when, first, t, capacity, log, at) && Monotone(at)
    ensures ReadAt(ids, when, first, t + 1, capacity, log, at) && at(t).head <= at(t + 1).head
  {
  }

  /** As long as the writer stayed within the capacity, the ids are the slice of the log. */
  lemma SliceOfLog(ids: seq<int>, when: seq<nat>, first: nat, last: nat, capacity: nat, log: nat -> int, at: nat -> Moment)
    requires ReadAt(ids, when, first, last, capacity, log, at) && Monotone(at)
    ensures at(last).head <= Written(at(last))
    ensures Written(at(last)) <= first + capacity ==> forall j :: 0 <= j < |ids| ==> ids[j] == log(first + j)
  {
    if Written(at(last)) <= first + capacity {
      forall j | 0 <= j < |ids| ensures ids[j] == log(first + j) {
        Later(at, when[j], last);
        ReadIsExact(capacity, at(when[j]), first + j);
      }
    }
  }

  /** The overrun check: something new, and not more than the capacity. */
  predicate Passes(head: nat, position: int, capacity: nat) { position < head <= position + capacity }

  /** The checks made so far, each at a moment and for a position, all passed: each round took as many
      entries as were wanted and there, and the next one began where it ended. */
  ghost predicate Rounds(moments: seq<nat>, positions: seq<int>, first: int, head: int, count: nat, capacity: nat, at: nat -> Moment) {
    && |moments| == |positions| && (if positions == [] then head == first else positions[0] == first)
    && forall j :: 0 <= j < |positions| ==> RoundOk(moments, positions, j, first, head, count, capacity, at)
  }

  ghost predicate RoundOk(moments: seq<nat>, positions: seq<int>, j: nat, first: int, head: int, count: nat, capacity: nat, at: nat -> Moment)
    requires j < |positions| == |moments|
  {
    && Passes(at(moments[j]).head, positions[j], capacity)
    && (if j + 1 < |positions| then positions[j + 1] else head) ==
       positions[j] + Taken(first + count - positions[j], at(moments[j]).head - positions[j])
  }

  function Taken(want: int, avail: int): int { if avail > want then want else avail }

  /** From the first look at the head on, nothing was new until moment t. */
  ghost predicate NothingNew(at: nat -> Moment, first: int, from: nat, t: nat) {
    from <= t && forall u: nat :: from <= u < t ==> at(u).head == first
  }

  lemma OneMoreRound(moments: seq<nat>, positions: seq<int>, first: int, head: int, count: nat, capacity: nat, at: nat -> Moment, t: nat)
    requires Rounds(moments, positions, first, head, count, capacity, at) && Passes(at(t).head, head, capacity)
    ensures Rounds(moments + [t], positions + [head], first, head + Taken(first + count - head, at(t).head - head), count, capacity, at)
  {
    var ms, ps, end := moments + [t], positions + [head], head + Taken(first + count - head, at(t).head - head);
    forall j | 0 <= j < |ps| ensures RoundOk(ms, ps, j, first, end, count, capacity, at) {
      if j < |positions| { assert RoundOk(moments, positions, j, first, head, count, capacity, at); }
    }
  }

  /** How a call ended: an overrun is reported exactly when the last look at the head did not pass. */
  ghost predicate Outcome(r: BatchResult, moments: seq<nat>, positions: seq<int>, first: int, head: int, count: nat, capacity: nat,
                          at: nat -> Moment, done: nat -> bool, from: nat, last: nat) {
    && Rounds(moments, positions, first, head, count, capacity, at)
    && NothingNew(at, first, from, if moments != [] then moments[0] else last)
    && !r.InvalidArgument?
    && (r.Overrun? ==> at(last).head != head && !Passes(at(last).head, head, capacity))
    && (r.Read? && head < first + count ==> done(last))
    && (r.Read? && moments == [] ==> at(last).head == first)
  }

  /** In particular, what the first look at the head finds decides. */
  lemma FirstLookDecides(r: BatchResult, moments: seq<nat>, positions: seq<int>, first: int, head: int, count: nat, capacity: nat,
                         at: nat -> Moment, done: nat -> bool, from: nat, last: nat)
    requires count > 0 && Outcome(r, moments, positions, first, head, count, capacity, at, done, from, last)
    ensures at(from).head < first || at(from).head > first + capacity ==> r.Overrun? && head == first
    ensures Passes(at(from).head, first, capacity) ==> head >= first + Taken(count, at(from).head - first)
  {
    if at(from).head != first && moments != [] {
      assert moments[0] == from && RoundOk(moments, positions, 0, first, head, count, capacity, at);
      RoundsAscend(moments, positions, first, head, count, capacity, at, 0);
    }
  }

  lemma {:induction false} RoundsAscend(moments: seq<nat>, positions: seq<int>, first: int, head: int, count: nat, capacity: nat, at: nat -> Moment, j: nat)
    requires Rounds(moments, positions, first, head, count, capacity, at) && j < |positions| && positions[j] <= first + count
    ensures positions[j] + Taken(first + count - positions[j], at(moments[j]).head - positions[j]) <= head <= first + count
    decreases |positions| - j
  {
    assert RoundOk(moments, positions, j, first, head, count, capacity, at);
    if j + 1 < |positions| {
      assert RoundOk(moments, positions, j + 1, first, head, count, capacity, at);
      RoundsAscend(moments, positions, first, head, count, capacity, at, j + 1);
    }
  }

  /** batch_read_changed_records. at(t) is where the writer is when the reader makes its t-th access to
      the queue, slot(t, q) what reading index q then yields, and done(t) whether check_done ends the
      wait. The reader reports an overrun or returns n <= count ids and has moved on by n. Whatever the
      writer does, `when` tells which entries were read; and if it did not store beyond the start plus
      the capacity before the last access, the ids are that slice of the log. */
  method BatchReadChanged(capacity: nat, count: nat, start: int, log: nat -> int, at: nat -> Moment,
                          slot: (nat, nat) -> int, done: nat -> bool, ghost patience: nat)
    returns (r: BatchResult, head: int, ids: seq<int>, ghost when: seq<nat>, ghost last: nat, ghost moments: seq<nat>, ghost positions: seq<int>)
    requires Monotone(at) && (capacity > 0 ==> ReadsSlots(log, capacity, at, slot))
    requires forall t: nat :: t >= patience ==> done(t)
    ensures r.InvalidArgument? <==> count == 0
    ensures count == 0 ==> head == start && ids == []
    ensures r.Read? ==> r.n <= count && r.n == |ids|
    ensures count > 0 ==> head == Origin(start, at) + |ids|
    ensures count > 0 ==>
      Outcome(r, moments, positions, Origin(start, at), head, count, capacity, at, done, FirstLook(start), last)
    ensures count > 0 && (at(FirstLook(start)).head < Origin(start, at) || at(FirstLook(start)).head > Origin(start, at) + capacity) ==>
      r.Overrun? && ids == []
    ensures count > 0 && Passes(at(FirstLook(start)).head, Origin(start, at), capacity) ==>
      |ids| >= Taken(count, at(FirstLook(start)).head - Origin(start, at))
    ensures ReadAt(ids, when, Origin(start, at), last, capacity, log, at)
    ensures Written(at(last)) <= Origin(start, at) + capacity ==>
      && (count > 0 && Origin(start, at) <= at(0).head ==> r.Read?)
      && forall j :: 0 <= j < |ids| ==> ids[j] == log(Origin(start, at) + j)
  {
    hide Monotone, ReadsSlots, Written, ReadAt, Underway, Outcome, Passes;
    ghost var first, from := Origin(start, at), FirstLook(start);
    head, ids, when, last, moments, positions := start, [], [], 0, [], [];
    NothingRead(first, capacity, log, at);
    if count == 0 {
      r := InvalidArgument;
      return;
    }
    var t := 0;
    if head < 0 {
      head := at(t).head;
      Postponed(ids, when, first, t, capacity, log, at);
      t := t + 1;
    }
    Begins(first, from, count, capacity, log, at);
    while |ids| < count
      invariant head == first + |ids| && |ids| <= count
      invariant first <= at(0).head ==> head <= at(t).head
      invariant Underway(ids, when, moments, positions, first, from, t, count, capacity, log, at)
      decreases count - |ids|
    {
      var newHead: int := at(t).head;
      while newHead == head
        invariant newHead == at(t).head
        invariant first <= at(0).head ==> head <= newHead
        invariant Underway(ids, when, moments, positions, first, from, t, count, capacity, log, at)
        decreases patience - t
      {
        if done(t) {
          last, r := t, Read(|ids|);
          Ends(r, ids, when, moments, positions, first, from, t, count, capacity, log, at, done);
          return;
        }
        Waits(ids, when, moments, positions, first, from, t, count, capacity, log, at);
        t := t + 1;
        newHead := at(t).head;
      }
      PassesMeans(at(t).head, head, capacity);
      if newHead < head || newHead - head > capacity {
        last, r := t, Overrun;
        Ends(r, ids, when, moments, positions, first, from, t, count, capacity, log, at, done);
        return;
      }
      var want := count - |ids|;
      if newHead - head > want {
        newHead := head + want;
      }
      Unfolds(ids, when, moments, positions, first, from, t, count, capacity, log, at);
      var ids1, when1, t1 := ReadEntries(head, newHead, ids, when, first, t, capacity, log, at, slot);
      RoundEnds(ids, ids1, when, when1, moments, positions, first, from, t, t1, count, capacity, log, at);
      moments, positions := moments + [t], positions + [head];
      ids, when, t, head := ids1, when1, t1, newHead;
      if done(t) {
        break;
      }
    }
    last, r := t, Read(|ids|);
    Ends(r, ids, when, moments, positions, first, from, t, count, capacity, log, at, done);
  }

  /** What holds while the reader works: the entries read, the rounds made, and where it stands. */
  ghost predicate Underway(ids: seq<int>, when: seq<nat>, moments: seq<nat>, positions: seq<int>, first: nat, from: nat, t: nat,
                           count: nat, capacity: nat, log: nat -> int, at: nat -> Moment) {
    && ReadAt(ids, when, first, t, capacity, log, at) && |ids| <= count
    && Rounds(moments, positions, first, first + |ids|, count, capacity, at)
    && NothingNew(at, first, from, if moments != [] then moments[0] else t)
    && (moments == [] <==> ids == [])
  }

  lemma Begins(first: nat, from: nat, count: nat, capacity: nat, log: nat -> int, at: nat -> Moment)
    requires ReadAt([], [], first, from, capacity, log, at)
    ensures Underway([], [], [], [], first, from, from, count, capacity, log, at)
  {
  }

  lemma Waits(ids: seq<int>, when: seq<nat>, moments: seq<nat>, positions: seq<int>, first: nat, from: nat, t: nat,
              count: nat, capacity: nat, log: nat -> int, at: nat -> Moment)
    requires Underway(ids, when, moments, positions, first, from, t, count, capacity, log, at)
    requires at(t).head == first + |ids| && Monotone(at)
    ensures Underway(ids, when, moments, positions, first, from, t + 1, count, capacity, log, at) && at(t).head <= at(t + 1).head
  {
    Postponed(ids, when, first, t, capacity, log, at);
    hide ReadAt, Rounds;
  }

  lemma Unfolds(ids: seq<int>, when: seq<nat>, moments: seq<nat>, positions: seq<int>, first: nat, from: nat, t: nat,
                count: nat, capacity: nat, log: nat -> int, at: nat -> Moment)
    requires Underway(ids, when, moments, positions, first, from, t, count, capacity, log, at)
    ensures ReadAt(ids, when, first, t, capacity, log, at)
  {
  }

  lemma RoundEnds(ids: seq<int>, ids': seq<int>, when: seq<nat>, when': seq<nat>, moments: seq<nat>, positions: seq<int>, first: nat, from: nat,
                  t: nat, t': nat, count: nat, capacity: nat, log: nat -> int, at: nat -> Moment)
    requires Underway(ids, when, moments, positions, first, from, t, count, capacity, log, at) && |ids| < count
    requires Passes(at(t).head, first + |ids|, capacity) && ReadAt(ids', when', first, t', capacity, log, at)
    requires |ids'| == |ids| + Taken(count - |ids|, at(t).head - (first + |ids|))
    ensures Underway(ids', when', moments + [t], positions + [first + |ids|], first, from, t', count, capacity, log, at)
  {
    OneMoreRound(moments, positions, first, first + |ids|, count, capacity, at, t);
    hide ReadAt, Rounds;
  }

  lemma Ends(r: BatchResult, ids: seq<int>, when: seq<nat>, moments: seq<nat>, positions: seq<int>, first: nat, from: nat, t: nat,
             count: nat, capacity: nat, log: nat -> int, at: nat -> Moment, done: nat -> bool)
    requires Underway(ids, when, moments, positions, first, from, t, count, capacity, log, at) && Monotone(at) && count > 0
    requires !r.InvalidArgument? && (r.Overrun? ==> at(t).head != first + |ids| && !Passes(at(t).head, first + |ids|, capacity))
    requires r.Read? ==> |ids| == count || (done(t) && (ids != [] || at(t).head == first))
    ensures ReadAt(ids, when, first, t, capacity, log, at) && at(t).head <= Written(at(t))
    ensures Outcome(r, moments, positions, first, first + |ids|, count, capacity, at, done, from, t)
    ensures at(from).head < first || at(from).head > first + capacity ==> r.Overrun? && ids == []
    ensures Passes(at(from).head, first, capacity) ==> |ids| >= Taken(count, at(from).head - first)
    ensures Written(at(t)) <= first + capacity ==> forall j :: 0 <= j < |ids| ==> ids[j] == log(first + j)
  {
    SliceOfLog(ids, when, first, t, capacity, log, at);
    hide ReadAt, Rounds, Monotone;
    FirstLookDecides(r, moments, positions, first, first + |ids|, count, capacity, at, done, from, t);
  }

  /** The loop over the entries of one round. */
  method ReadEntries(head: int, newHead: int, ids0: seq<int>, ghost when0: seq<nat>, ghost first: nat, t0: nat,
                     capacity: nat, log: nat -> int, at: nat -> Moment, slot: (nat, nat) -> int)
    returns (ids: seq<int>, ghost when: seq<nat>, t: nat)
    requires Monotone(at) && capacity > 0 && ReadsSlots(log, capacity, at, slot)
    requires 0 <= head == first + |ids0| && head <= newHead <= at(t0).head && ReadAt(ids0, when0, first, t0, capacity, log, at)
    ensures |ids| == |ids0| + (newHead - head) && t0 <= t && newHead <= at(t).head && ids0 <= ids
    ensures ReadAt(ids, when, first, t, capacity, log, at)
  {
    hide Monotone, ReadsSlots, Written, ReadAt;
    ids, when, t := ids0, when0, t0;
    var q := head;
    while q < newHead
      invariant head <= q <= newHead && t0 <= t && q == first + |ids| && ids0 <= ids
      invariant ReadAt(ids, when, first, t, capacity, log, at)
    {
      Later(at, t0, t + 1);
      OneMore(ids, when, first, t, capacity, log, at, slot);
      t := t + 1;
      ids := ids + [slot(t, q)];
      when := when + [t];
      q := q + 1;
    }
    Later(at, t0, t);
  }

  lemma PassesMeans(head: nat, position: int, capacity: nat)
    ensures head != position ==> (Passes(head, position, capacity) <==> !(head < position || head - position > capacity))
  {
  }
}
