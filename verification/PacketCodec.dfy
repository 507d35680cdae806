/** Multicast packets as bytes: how the sender fills its buffer within the MTU (src/sender.c:184-217,
    src/sender.c:820-824) and how the receiver walks over a packet (src/receiver.c:191-240). */
module PacketCodec {
  import opened Wire

  const HEADER := 16   // sizeof(sequence) + sizeof(microsec)

  datatype Item = Item(id: int, value: seq<Byte>)

  predicate ItemOk(it: Item, valSize: nat) { IsLong(it.id) && |it.value| == valSize }

  predicate ItemsOk(items: seq<Item>, valSize: nat) {
    forall j :: 0 <= j < |items| ==> ItemOk(items[j], valSize)
  }

  function Body(items: seq<Item>, valSize: nat): (b: seq<Byte>)
    requires ItemsOk(items, valSize)
    ensures |b| == |items| * (8 + valSize)
  {
    if items == [] then []
    else Put64(items[0].id) + items[0].value + Body(items[1..], valSize)
  }

  lemma {:induction false} BodyAppend(items: seq<Item>, it: Item, valSize: nat)
    requires ItemsOk(items, valSize) && ItemOk(it, valSize)
    ensures Body(items + [it], valSize) == Body(items, valSize) + (Put64(it.id) + it.value)
  {
    if items == [] {
      assert [it][1..] == [];
    } else {
      BodyAppend(items[1..], it, valSize);
      assert (items + [it])[1..] == items[1..] + [it];
    }
  }

  /** A packet: sequence, time of sending, records. */
  function Encode(seqNo: int, stamp: int, items: seq<Item>, valSize: nat): seq<Byte>
    requires IsLong(seqNo) && IsLong(stamp) && ItemsOk(items, valSize)
  {
    Put64(seqNo) + Put64(stamp) + Body(items, valSize)
  }

  /** init: an MTU, less the IP and UDP overhead, that cannot hold one record is refused. */
  predicate MtuOk(mtu: nat, valSize: nat) { mtu >= HEADER + 8 + valSize }

  /** n records fit. */
  predicate Fit(n: nat, mtu: nat, valSize: nat) { HEADER + n * (8 + valSize) <= mtu }

  /** So exactly the MTUs are accepted in which at least one record fits. */
  lemma MtuMeaning(mtu: nat, valSize: nat)
    ensures MtuOk(mtu, valSize) <==> exists n: nat :: n >= 1 && Fit(n, mtu, valSize)
  {
    if MtuOk(mtu, valSize) {
      assert Fit(1, mtu, valSize);
    } else if n: nat :| n >= 1 && Fit(n, mtu, valSize) {
      Times(1, n, 8 + valSize);
    }
  }

  /** How many records fit. */
  function PerPacket(mtu: nat, valSize: nat): (n: nat)
    requires MtuOk(mtu, valSize)
    ensures n >= 1 && HEADER + n * (8 + valSize) <= mtu < HEADER + (n + 1) * (8 + valSize)
  {
    var n := (mtu - HEADER) / (8 + valSize);
    Division(mtu - HEADER, 8 + valSize);
    n
  }

  lemma Division(x: nat, m: nat)
    requires m > 0
    ensures (x / m) * m <= x < (x / m + 1) * m
    ensures x >= m ==> x / m >= 1
  {
    assert x == (x / m) * m + x % m;
  }

  lemma Times(a: nat, b: nat, m: nat)
    requires a <= b
    ensures a * m <= b * m
  {
  }

  /** The sender's packet buffer, byte by byte. */
  class PacketBuffer {
    const mtu: nat
    const valSize: nat
    var buf: seq<Byte>          // pkt_buf up to pkt_next
    ghost var seqNo: int        // the sequence in the header
    ghost var items: seq<Item>  // the records staged

    ghost predicate Valid()
      reads this
    {
      && MtuOk(mtu, valSize) && ItemsOk(items, valSize) && |buf| <= mtu
      && |items| <= PerPacket(mtu, valSize)
      && if items == [] then buf == [] else IsLong(seqNo) && buf == Encode(seqNo, 0, items, valSize)
    }

    constructor (mtu: nat, valSize: nat)
      requires MtuOk(mtu, valSize)
      ensures Valid() && items == [] && this.mtu == mtu && this.valSize == valSize
    {
      this.mtu, this.valSize := mtu, valSize;
      buf, seqNo, items := [], 0, [];
    }

    /** mcast_send_pkt puts the time into the header and leaves the buffer empty. */
    method Send(now: int) returns (packet: seq<Byte>)
      requires Valid() && items != [] && IsLong(now)
      modifies this
      ensures Valid() && items == []
      ensures packet == Encode(old(seqNo), now, old(items), valSize)
      ensures HEADER < |packet| <= mtu && Get64(packet[8..HEADER]) == now
    {
      hide Body, Put64, PerPacket, Get64;
      packet := buf[..8] + Put64(now) + buf[16..];
      assert packet[8..16] == Put64(now);
      Get64Put64(now);
      buf, items := [], [];
    }

    /** The buffer arithmetic of mcast_accum_record: the packet is sent first exactly when it already
        holds as many records as fit; then the record is appended under the next sequence. If the
        socket would block, the buffer keeps its records and nothing is appended. */
    method Accumulate(it: Item, nextSeq: int, now: int, canSend: bool) returns (sent: bool, blocked: bool, packet: seq<Byte>)
      requires Valid() && ItemOk(it, valSize) && IsLong(nextSeq) && IsLong(now) && IsLong(nextSeq + 1)
      requires items != [] ==> seqNo == nextSeq
      modifies this
      ensures Valid()
      ensures sent || blocked <==> |old(items)| == PerPacket(mtu, valSize)
      ensures sent ==> canSend && packet == Encode(old(seqNo), now, old(items), valSize) && |packet| <= mtu
      ensures blocked ==> !canSend && items == old(items) && seqNo == old(seqNo)
      ensures !blocked ==> items == (if sent then [] else old(items)) + [it] && seqNo == if sent then nextSeq + 1 else nextSeq
    {
      var avail := mtu - |buf|;
      sent, blocked, packet := false, false, [];
      if items != [] {
        Room(|items|);
      }
      if avail < 8 + valSize {
        if !canSend {
          blocked := true;
          return;
        }
        packet := Send(now);
        sent := true;
      }
      Append(it, if sent then nextSeq + 1 else nextSeq);
    }

    /** The header, if the buffer is empty, and then the record. */
    method Append(it: Item, next: int)
      requires Valid() && ItemOk(it, valSize) && IsLong(next) && |items| < PerPacket(mtu, valSize)
      requires items != [] ==> seqNo == next
      modifies this
      ensures Valid() && items == old(items) + [it] && seqNo == next
    {
      if |buf| == 0 {
        buf := Put64(next) + Put64(0);
        seqNo := next;
      }
      BodyAppend(items, it, valSize);
      Times(|items| + 1, PerPacket(mtu, valSize), 8 + valSize);
      ghost var body := Body(items, valSize);
      assert buf == Put64(seqNo) + Put64(0) + body;
      buf := buf + (Put64(it.id) + it.value);
      items := items + [it];
      assert buf == Put64(seqNo) + Put64(0) + (body + (Put64(it.id) + it.value));
    }

    /** A buffer with n records is full by the byte count exactly when n records are all that fit. */
    lemma Room(n: nat)
      requires MtuOk(mtu, valSize) && n <= PerPacket(mtu, valSize)
      ensures mtu - (HEADER + n * (8 + valSize)) < 8 + valSize <==> n == PerPacket(mtu, valSize)
    {
      var per := PerPacket(mtu, valSize);
      if n < per { Times(n + 1, per, 8 + valSize); }
    }
  }

  /** The records in a packet body, read from the front. */
  function Items(body: seq<Byte>, valSize: nat): seq<Item> {
    if |body| < 8 + valSize then []
    else [Item(Get64(body[..8]), body[8..8 + valSize])] + Items(body[8 + valSize..], valSize)
  }

  lemma {:induction false} ItemsOfBody(items: seq<Item>, valSize: nat)
    requires ItemsOk(items, valSize)
    ensures Items(Body(items, valSize), valSize) == items
  {
    if items != [] {
      var b, rest := Body(items, valSize), Body(items[1..], valSize);
      ItemsOfBody(items[1..], valSize);
      Get64Put64(items[0].id);
      assert |b| == 8 + valSize + |rest|;
      assert b[..8] == Put64(items[0].id) && b[8..8 + valSize] == items[0].value && b[8 + valSize..] == rest;
    }
  }

  /** x bytes are whole records of m bytes. */
  predicate Whole(x: nat, m: nat)
    requires m > 0
  {
    x % m == 0
  }

  lemma NextMultiple(x: nat, m: nat)
    requires m > 0 && x > 0 && Whole(x, m)
    ensures x >= m && Whole(x - m, m)
  {
    var d := x / m;
    assert x == d * m;
    assert x - m == (d - 1) * m;
    MultipleMod(d - 1, m);
  }

  lemma MultipleMod(n: nat, m: nat)
    requires m > 0
    ensures Whole(n * m, m)
  {
    var q, r := (n * m) / m, (n * m) % m;
    assert n * m == q * m + r;
    if q < n { Times(q + 1, n, m); } else if n < q { Times(n + 1, q, m); }
  }

  /** The records read are those of the bytes up to e, the end of the record in which n lies. */
  predicate EndsAt(buf: seq<Byte>, n: nat, e: nat, items: seq<Item>, valSize: nat) {
    && HEADER <= n <= e <= |buf| && e < n + 8 + valSize
    && Whole(e - HEADER, 8 + valSize) && items == Items(buf[HEADER..e], valSize)
  }

  datatype WalkResult = Truncated | Walked | PastBuffer

  /** The walk of mcast_on_read over a buffer of which the first n bytes were received: refused if the
      header is truncated, otherwise record by record while one begins before the end. A last record
      that is incomplete is filled up from what the buffer held before; the walk has no meaning if
      that goes past the buffer. */
  method Walk(buf: seq<Byte>, n: nat, valSize: nat) returns (r: WalkResult, seqNo: int, items: seq<Item>)
    requires n <= |buf|
    ensures r.Truncated? <==> n < HEADER
    ensures r.Walked? ==> seqNo == Get64(buf[..8])
    ensures r.Walked? ==> exists e :: EndsAt(buf, n, e, items, valSize)
    ensures n >= HEADER && Whole(n - HEADER, 8 + valSize) ==> r.Walked? && items == Items(buf[HEADER..n], valSize)
    ensures r.PastBuffer? ==> !Whole(n - HEADER, 8 + valSize)
  {
    hide Whole, Get64, Items;
    seqNo, items := 0, [];
    if n < HEADER {
      r := Truncated;
      return;
    }
    seqNo := Get64(buf[..8]);
    var p := HEADER;
    WholeStart(8 + valSize);
    NoItems(buf, valSize);
    while p < n
      invariant HEADER <= p <= |buf| && p < n + 8 + valSize
      invariant Whole(p - HEADER, 8 + valSize) && items == Items(buf[HEADER..p], valSize)
      decreases n - p
    {
      NextWhole(n - HEADER, p - HEADER, 8 + valSize);
      if p + 8 + valSize > |buf| {
        r := PastBuffer;
        return;
      }
      ItemsNext(buf, p, valSize);
      items := items + [Item(Get64(buf[p..p + 8]), buf[p + 8..p + 8 + valSize])];
      p := p + 8 + valSize;
    }
    SameWhole(n - HEADER, p - HEADER, 8 + valSize);
    assert EndsAt(buf, n, p, items, valSize);
    r := Walked;
  }

  lemma WholeStart(m: nat)
    requires m > 0
    ensures Whole(0, m)
  {
  }

  lemma NoItems(buf: seq<Byte>, valSize: nat)
    requires |buf| >= HEADER
    ensures Items(buf[HEADER..HEADER], valSize) == []
  {
  }

  /** If p whole records end before n and n is whole too, there is room for one more. */
  lemma NextWhole(n: nat, p: nat, m: nat)
    requires m > 0 && Whole(p, m) && p < n
    ensures Whole(p + m, m) && (Whole(n, m) ==> p + m <= n)
  {
    var d, e := p / m, n / m;
    assert p == d * m;
    assert p + m == (d + 1) * m;
    MultipleMod(d + 1, m);
    if Whole(n, m) {
      assert n == e * m;
      if e <= d { Times(e, d, m); } else { Times(d + 1, e, m); }
    }
  }

  lemma SameWhole(n: nat, p: nat, m: nat)
    requires m > 0 && Whole(p, m) && n <= p < n + m
    ensures Whole(n, m) ==> n == p
  {
    if n < p && Whole(n, m) { NextWhole(p, n, m); }
  }

  lemma ItemsNext(buf: seq<Byte>, p: nat, valSize: nat)
    requires HEADER <= p && p + 8 + valSize <= |buf| && Whole(p - HEADER, 8 + valSize)
    ensures Items(buf[HEADER..p + 8 + valSize], valSize) ==
      Items(buf[HEADER..p], valSize) + [Item(Get64(buf[p..p + 8]), buf[p + 8..p + 8 + valSize])]
  {
    var body, last := buf[HEADER..p], buf[p..p + 8 + valSize];
    assert buf[HEADER..p + 8 + valSize] == body + last;
    assert last[..8] == buf[p..p + 8] && last[8..8 + valSize] == buf[p + 8..p + 8 + valSize];
    ItemsAppend(body, last, valSize);
  }

  lemma {:induction false} ItemsAppend(body: seq<Byte>, last: seq<Byte>, valSize: nat)
    requires |last| == 8 + valSize && Whole(|body|, 8 + valSize)
    ensures Items(body + last, valSize) == Items(body, valSize) + [Item(Get64(last[..8]), last[8..8 + valSize])]
    decreases |body|
  {
    var m := 8 + valSize;
    if body == [] {
      assert body + last == last && last[m..] == [];
    } else {
      NextMultiple(|body|, m);
      var all := body + last;
      assert all[..8] == body[..8] && all[8..m] == body[8..m] && all[m..] == body[m..] + last;
      ItemsAppend(body[m..], last, valSize);
    }
  }

  /** Round trip: what was staged comes out of the walk, in order, under the sequence in the header. */
  lemma WalkRecovers(seqNo: int, stamp: int, items: seq<Item>, valSize: nat)
    requires IsLong(seqNo) && IsLong(stamp) && ItemsOk(items, valSize)
    ensures var packet := Encode(seqNo, stamp, items, valSize);
      && |packet| >= HEADER && Whole(|packet| - HEADER, 8 + valSize)
      && Get64(packet[..8]) == seqNo && Get64(packet[8..HEADER]) == stamp && Items(packet[HEADER..], valSize) == items
  {
    var packet := Encode(seqNo, stamp, items, valSize);
    MultipleMod(|items|, 8 + valSize);
    Get64Put64(seqNo);
    Get64Put64(stamp);
    ItemsOfBody(items, valSize);
    assert packet[..8] == Put64(seqNo) && packet[8..HEADER] == Put64(stamp) && packet[HEADER..] == Body(items, valSize);
  }
}
