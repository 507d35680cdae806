/** The chained hash table (src/table.c), for any equality that is an equivalence and any hash that
    respects it: what the three updates of a chain do to the bindings, and the linked cells that
    implement them. */
module HashTable {
  import opened Bits
  import opened Sequences

  datatype Entry<K, V> = Entry(key: K, val: V)

  ghost predicate Equivalence<K(!new)>(eq: (K, K) -> bool) {
    && (forall a :: eq(a, a))
    && (forall a, b :: eq(a, b) ==> eq(b, a))
    && (forall a, b, c :: eq(a, b) && eq(b, c) ==> eq(a, c))
  }

  ghost predicate Respects<K(!new)>(hash: K -> int, eq: (K, K) -> bool) {
    forall a, b :: eq(a, b) ==> hash(a) == hash(b)
  }

  const SIZE_LIMIT: int := 0x1_0000_0000_0000_0000

  /** Hash value, as size_t, masked. */
  function Slot(hash: int, capacity: nat): nat
    requires capacity > 0
  {
    And(hash % SIZE_LIMIT, capacity - 1)
  }

  lemma SlotInRange(hash: int, capacity: nat)
    requires capacity > 0 && IsPow2(capacity)
    ensures Slot(hash, capacity) < capacity && Slot(hash, capacity) == (hash % SIZE_LIMIT) % capacity
  {
    var k: nat :| Pow2(k) == capacity;
    MaskIsMod(hash % SIZE_LIMIT, k);
  }

  /** Some entry anywhere in the table binds a key equal to k to v. */
  ghost predicate Binds<K(!new), V>(buckets: seq<seq<Entry<K, V>>>, eq: (K, K) -> bool, k: K, v: V) {
    exists b, i :: 0 <= b < |buckets| && 0 <= i < |buckets[b]| && eq(buckets[b][i].key, k) && buckets[b][i].val == v
  }

  /** Every key is in its own bucket and no two keys of a bucket are equal. */
  ghost predicate WellFormed<K(!new), V>(buckets: seq<seq<Entry<K, V>>>, eq: (K, K) -> bool, hash: K -> int) {
    && |buckets| > 0 && IsPow2(|buckets|)
    && (forall b, i :: 0 <= b < |buckets| && 0 <= i < |buckets[b]| ==> Slot(hash(buckets[b][i].key), |buckets|) == b)
    && (forall b, i, j :: 0 <= b < |buckets| && 0 <= i < j < |buckets[b]| ==> !eq(buckets[b][i].key, buckets[b][j].key))
  }

  ghost predicate Lawful<K(!new)>(eq: (K, K) -> bool, hash: K -> int) {
    Equivalence(eq) && Respects(hash, eq)
  }

  /** Anything bound to a key is found in that key's bucket. */
  lemma BoundInItsBucket<K(!new), V>(buckets: seq<seq<Entry<K, V>>>, eq: (K, K) -> bool, hash: K -> int, k: K, v: V) returns (i: nat)
    requires Lawful(eq, hash) && WellFormed(buckets, eq, hash) && Binds(buckets, eq, k, v)
    ensures Slot(hash(k), |buckets|) < |buckets| && i < |buckets[Slot(hash(k), |buckets|)]|
    ensures var e := buckets[Slot(hash(k), |buckets|)][i]; eq(e.key, k) && e.val == v
  {
    var b, j :| 0 <= b < |buckets| && 0 <= j < |buckets[b]| && eq(buckets[b][j].key, k) && buckets[b][j].val == v;
    assert hash(buckets[b][j].key) == hash(k);
    SlotInRange(hash(k), |buckets|);
    i := j;
  }

  /** The table is a partial function on keys up to equality. */
  lemma BindsOnce<K(!new), V>(buckets: seq<seq<Entry<K, V>>>, eq: (K, K) -> bool, hash: K -> int, k: K, v: V, w: V)
    requires Lawful(eq, hash) && WellFormed(buckets, eq, hash) && Binds(buckets, eq, k, v) && Binds(buckets, eq, k, w)
    ensures v == w
  {
    var i := BoundInItsBucket(buckets, eq, hash, k, v);
    var j := BoundInItsBucket(buckets, eq, hash, k, w);
    var chain := buckets[Slot(hash(k), |buckets|)];
    assert eq(k, chain[j].key) && eq(chain[i].key, chain[j].key) && eq(chain[j].key, chain[i].key);
  }

  /** A key that is absent from its bucket is bound to nothing. */
  lemma AbsentIsUnbound<K(!new), V>(buckets: seq<seq<Entry<K, V>>>, eq: (K, K) -> bool, hash: K -> int, key: K, k: K, v: V)
    requires Lawful(eq, hash) && WellFormed(buckets, eq, hash) && eq(key, k)
    requires var b := Slot(hash(key), |buckets|); b < |buckets| && Absent(buckets[b], eq, key)
    ensures !Binds(buckets, eq, k, v)
  {
    assert hash(k) == hash(key) && eq(k, key);
    if Binds(buckets, eq, k, v) {
      var i := BoundInItsBucket(buckets, eq, hash, k, v);
      assert false;
    }
  }

  function Without<T>(s: seq<T>, i: nat): (t: seq<T>)
    requires i < |s|
    ensures |t| == |s| - 1 && forall j :: 0 <= j < |t| ==> t[j] == s[if j < i then j else j + 1]
  {
    s[..i] + s[i + 1..]
  }

  // ---------------------------------------------------------------- effects of the three updates

  lemma OverwriteEffect<K(!new), V>(bs: seq<seq<Entry<K, V>>>, eq: (K, K) -> bool, hash: K -> int, b: nat, i: nat, val: V, k: K, v: V)
    requires Lawful(eq, hash) && WellFormed(bs, eq, hash) && b < |bs| && i < |bs[b]|
    ensures var bs' := bs[b := bs[b][i := bs[b][i].(val := val)]];
      WellFormed(bs', eq, hash) && (Binds(bs', eq, k, v) <==> if eq(bs[b][i].key, k) then v == val else Binds(bs, eq, k, v))
  {
    var e, bs' := bs[b][i], bs[b := bs[b][i := bs[b][i].(val := val)]];
    assert WellFormed(bs', eq, hash);
    assert bs'[b][i] == e.(val := val);
    if eq(e.key, k) {
      assert Binds(bs', eq, k, val);
      if Binds(bs', eq, k, v) { BindsOnce(bs', eq, hash, k, v, val); }
    } else {
      if Binds(bs, eq, k, v) {
        var c, j :| 0 <= c < |bs| && 0 <= j < |bs[c]| && eq(bs[c][j].key, k) && bs[c][j].val == v;
        assert bs'[c][j] == bs[c][j];
      }
      if Binds(bs', eq, k, v) {
        var c, j :| 0 <= c < |bs'| && 0 <= j < |bs'[c]| && eq(bs'[c][j].key, k) && bs'[c][j].val == v;
        assert bs'[c][j] == bs[c][j];
      }
    }
  }

  ghost predicate Absent<K(!new), V>(chain: seq<Entry<K, V>>, eq: (K, K) -> bool, key: K) {
    forall i :: 0 <= i < |chain| ==> !eq(chain[i].key, key)
  }

  lemma PrependKeepsForm<K(!new), V>(bs: seq<seq<Entry<K, V>>>, eq: (K, K) -> bool, hash: K -> int, key: K, val: V)
    requires Lawful(eq, hash) && WellFormed(bs, eq, hash)
    requires var b := Slot(hash(key), |bs|); b < |bs| && Absent(bs[b], eq, key)
    ensures var b := Slot(hash(key), |bs|); WellFormed(bs[b := [Entry(key, val)] + bs[b]], eq, hash)
  {
    var b := Slot(hash(key), |bs|);
    var bs': seq<seq<Entry<K, V>>> := bs[b := [Entry(key, val)] + bs[b]];
    forall c, i, j | 0 <= c < |bs'| && 0 <= i < j < |bs'[c]| ensures !eq(bs'[c][i].key, bs'[c][j].key) {
      if c == b {
        assert bs'[b][j] == bs[b][j - 1];
        if i > 0 { assert bs'[b][i] == bs[b][i - 1]; }
      }
    }
    forall c, i | 0 <= c < |bs'| && 0 <= i < |bs'[c]| ensures Slot(hash(bs'[c][i].key), |bs'|) == c {
      if c == b && i > 0 { assert bs'[b][i] == bs[b][i - 1]; }
    }
  }

  lemma PrependEffect<K(!new), V>(bs: seq<seq<Entry<K, V>>>, eq: (K, K) -> bool, hash: K -> int, key: K, val: V, k: K, v: V)
    requires Lawful(eq, hash) && WellFormed(bs, eq, hash)
    requires var b := Slot(hash(key), |bs|); b < |bs| && Absent(bs[b], eq, key)
    ensures var b := Slot(hash(key), |bs|);
      Binds(bs[b := [Entry(key, val)] + bs[b]], eq, k, v) <==> if eq(key, k) then v == val else Binds(bs, eq, k, v)
  {
    var b := Slot(hash(key), |bs|);
    var bs': seq<seq<Entry<K, V>>> := bs[b := [Entry(key, val)] + bs[b]];
    PrependKeepsForm(bs, eq, hash, key, val);
    assert bs'[b][0] == Entry(key, val);
    if eq(key, k) {
      assert Binds(bs', eq, k, val);
      if Binds(bs', eq, k, v) { BindsOnce(bs', eq, hash, k, v, val); }
    } else {
      if Binds(bs, eq, k, v) {
        var c, j :| 0 <= c < |bs| && 0 <= j < |bs[c]| && eq(bs[c][j].key, k) && bs[c][j].val == v;
        assert bs'[c][if c == b then j + 1 else j] == bs[c][j];
      }
      if Binds(bs', eq, k, v) {
        var c, j :| 0 <= c < |bs'| && 0 <= j < |bs'[c]| && eq(bs'[c][j].key, k) && bs'[c][j].val == v;
        assert bs[c][if c == b then j - 1 else j] == bs'[c][j];
      }
    }
  }

  lemma UnlinkKeepsForm<K(!new), V>(bs: seq<seq<Entry<K, V>>>, eq: (K, K) -> bool, hash: K -> int, b: nat, i: nat)
    requires WellFormed(bs, eq, hash) && b < |bs| && i < |bs[b]|
    ensures WellFormed(bs[b := Without(bs[b], i)], eq, hash)
  {
    var bs': seq<seq<Entry<K, V>>> := bs[b := Without(bs[b], i)];
    assert forall j :: 0 <= j < |bs'[b]| ==> bs'[b][j] == bs[b][if j < i then j else j + 1];
  }

  lemma UnlinkLoses<K(!new), V>(bs: seq<seq<Entry<K, V>>>, eq: (K, K) -> bool, hash: K -> int, b: nat, i: nat, k: K, v: V)
    requires Lawful(eq, hash) && WellFormed(bs, eq, hash) && b < |bs| && i < |bs[b]|
    requires Binds(bs[b := Without(bs[b], i)], eq, k, v)
    ensures !eq(bs[b][i].key, k) && Binds(bs, eq, k, v)
  {
    var bs': seq<seq<Entry<K, V>>> := bs[b := Without(bs[b], i)];
    var c, j :| 0 <= c < |bs'| && 0 <= j < |bs'[c]| && eq(bs'[c][j].key, k) && bs'[c][j].val == v;
    var j' := if c == b && j >= i then j + 1 else j;
    assert bs'[c][j] == bs[c][j'];
    OtherPlaceOtherKey(bs, eq, hash, b, i, c, j', k);
  }

  /** Entries at different places have different keys. */
  lemma OtherPlaceOtherKey<K(!new), V>(bs: seq<seq<Entry<K, V>>>, eq: (K, K) -> bool, hash: K -> int, b: nat, i: nat, c: nat, j: nat, k: K)
    requires Lawful(eq, hash) && WellFormed(bs, eq, hash) && b < |bs| && i < |bs[b]| && c < |bs| && j < |bs[c]|
    requires (b, i) != (c, j) && eq(bs[c][j].key, k)
    ensures !eq(bs[b][i].key, k)
  {
    var x, y := bs[b][i].key, bs[c][j].key;
    assert eq(k, y);
    assert eq(x, k) ==> eq(x, y) && eq(y, x) && hash(x) == hash(y);
  }

  lemma UnlinkKeeps<K(!new), V>(bs: seq<seq<Entry<K, V>>>, eq: (K, K) -> bool, b: nat, i: nat, k: K, v: V)
    requires b < |bs| && i < |bs[b]| && !eq(bs[b][i].key, k) && Binds(bs, eq, k, v)
    ensures Binds(bs[b := Without(bs[b], i)], eq, k, v)
  {
    var bs': seq<seq<Entry<K, V>>> := bs[b := Without(bs[b], i)];
    var c, j :| 0 <= c < |bs| && 0 <= j < |bs[c]| && eq(bs[c][j].key, k) && bs[c][j].val == v;
    assert bs'[c][if c == b && j > i then j - 1 else j] == bs[c][j];
  }

  lemma UnlinkEffect<K(!new), V>(bs: seq<seq<Entry<K, V>>>, eq: (K, K) -> bool, hash: K -> int, b: nat, i: nat, k: K, v: V)
    requires Lawful(eq, hash) && WellFormed(bs, eq, hash) && b < |bs| && i < |bs[b]|
    ensures Binds(bs[b := Without(bs[b], i)], eq, k, v) <==> !eq(bs[b][i].key, k) && Binds(bs, eq, k, v)
  {
    if Binds(bs[b := Without(bs[b], i)], eq, k, v) { UnlinkLoses(bs, eq, hash, b, i, k, v); }
    if !eq(bs[b][i].key, k) && Binds(bs, eq, k, v) { UnlinkKeeps(bs, eq, b, i, k, v); }
  }

  // ---------------------------------------------------------------- the table

  /** table_create refuses a capacity that is not a power of two. */
  predicate CapacityOk(capacity: nat) { capacity != 0 && And(capacity, capacity - 1) == 0 }

  lemma CapacityMeaning(capacity: nat)
    ensures CapacityOk(capacity) <==> capacity > 0 && IsPow2(capacity)
  {
    Pow2Test(capacity);
  }

  /** The bindings after the class of `key` is bound to a value, or to none, and nothing else changes. */
  ghost predicate Updated<K(!new), V(!new)>(bs: seq<seq<Entry<K, V>>>, bs': seq<seq<Entry<K, V>>>, eq: (K, K) -> bool, key: K, val: Option<V>) {
    forall k, v :: Binds(bs', eq, k, v) <==> if eq(key, k) then Some(v) == val else Binds(bs, eq, k, v)
  }

  lemma FoundInBucket<K(!new), V(!new)>(bs: seq<seq<Entry<K, V>>>, eq: (K, K) -> bool, hash: K -> int, b: nat, i: nat, key: K)
    requires Lawful(eq, hash) && WellFormed(bs, eq, hash) && b < |bs| && i < |bs[b]| && eq(bs[b][i].key, key)
    ensures forall v :: Binds(bs, eq, key, v) <==> v == bs[b][i].val
  {
    var w := bs[b][i].val;
    assert Binds(bs, eq, key, w);
    forall v | Binds(bs, eq, key, v) ensures v == w { BindsOnce(bs, eq, hash, key, v, w); }
  }

  lemma Overwritten<K(!new), V(!new)>(bs: seq<seq<Entry<K, V>>>, eq: (K, K) -> bool, hash: K -> int, b: nat, i: nat, key: K, val: V)
    requires Lawful(eq, hash) && WellFormed(bs, eq, hash) && b < |bs| && i < |bs[b]| && eq(bs[b][i].key, key)
    ensures var bs' := bs[b := bs[b][i := bs[b][i].(val := val)]]; WellFormed(bs', eq, hash) && Updated(bs, bs', eq, key, Some(val))
  {
    OverwriteEffect(bs, eq, hash, b, i, val, key, val);
    var bs' := bs[b := bs[b][i := bs[b][i].(val := val)]];
    forall k, v ensures Binds(bs', eq, k, v) <==> if eq(key, k) then v == val else Binds(bs, eq, k, v) {
      OverwriteEffect(bs, eq, hash, b, i, val, k, v);
      SameClass(eq, bs[b][i].key, key, k);
    }
  }

  lemma Prepended<K(!new), V(!new)>(bs: seq<seq<Entry<K, V>>>, eq: (K, K) -> bool, hash: K -> int, key: K, val: V)
    requires Lawful(eq, hash) && WellFormed(bs, eq, hash)
    requires var b := Slot(hash(key), |bs|); b < |bs| && Absent(bs[b], eq, key)
    ensures var b := Slot(hash(key), |bs|); var bs' := bs[b := [Entry(key, val)] + bs[b]];
      WellFormed(bs', eq, hash) && Updated(bs, bs', eq, key, Some(val))
  {
    PrependKeepsForm(bs, eq, hash, key, val);
    var b := Slot(hash(key), |bs|);
    var bs' := bs[b := [Entry(key, val)] + bs[b]];
    forall k, v ensures Binds(bs', eq, k, v) <==> if eq(key, k) then v == val else Binds(bs, eq, k, v) {
      PrependEffect(bs, eq, hash, key, val, k, v);
    }
  }

  lemma Unlinked<K(!new), V(!new)>(bs: seq<seq<Entry<K, V>>>, eq: (K, K) -> bool, hash: K -> int, b: nat, i: nat, key: K)
    requires Lawful(eq, hash) && WellFormed(bs, eq, hash) && b < |bs| && i < |bs[b]| && eq(bs[b][i].key, key)
    ensures var bs' := bs[b := Without(bs[b], i)]; WellFormed(bs', eq, hash) && Updated(bs, bs', eq, key, None)
  {
    UnlinkKeepsForm(bs, eq, hash, b, i);
    var bs' := bs[b := Without(bs[b], i)];
    forall k, v ensures Binds(bs', eq, k, v) <==> !eq(key, k) && Binds(bs, eq, k, v) {
      UnlinkEffect(bs, eq, hash, b, i, k, v);
      SameClass(eq, bs[b][i].key, key, k);
    }
  }

  lemma Untouched<K(!new), V(!new)>(bs: seq<seq<Entry<K, V>>>, eq: (K, K) -> bool, hash: K -> int, b: nat, key: K)
    requires Lawful(eq, hash) && WellFormed(bs, eq, hash) && b == Slot(hash(key), |bs|) < |bs| && Absent(bs[b], eq, key)
    ensures Updated(bs, bs, eq, key, None) && forall v :: !Binds(bs, eq, key, v)
  {
    forall k, v | eq(key, k) ensures !Binds(bs, eq, k, v) { AbsentIsUnbound(bs, eq, hash, key, k, v); }
    assert eq(key, key);
  }

  /** struct chain. */
  class Cell<K(!new), V(!new)> {
    var key: K
    var val: V
    var next: Cell?<K, V>
    ghost const home: nat   // the bucket it was made for

    constructor (key: K, val: V, next: Cell?<K, V>, ghost home: nat)
      ensures this.key == key && this.val == val && this.next == next && this.home == home
    {
      this.key, this.val, this.next, this.home := key, val, next, home;
    }
  }

  ghost function At<K(!new), V(!new)>(spine: seq<Cell<K, V>>, i: nat): Cell?<K, V> {
    if i < |spine| then spine[i] else null
  }

  /** The cells of a spine are those of bucket b, linked in this order from `head`. */
  ghost predicate Chained<K(!new), V(!new)>(head: Cell?<K, V>, spine: seq<Cell<K, V>>, b: nat)
    reads spine
  {
    && head == At(spine, 0) && (spine != [] ==> spine[|spine| - 1].next == null)
    && (forall i :: 0 <= i < |spine| ==> spine[i].home == b)
    && (forall i, j :: 0 <= i < j < |spine| ==> spine[i] != spine[j] && (j == i + 1 ==> spine[i].next == spine[j]))
  }

  ghost function Entries<K(!new), V(!new)>(spine: seq<Cell<K, V>>): (e: seq<Entry<K, V>>)
    reads spine
    ensures |e| == |spine| && forall i :: 0 <= i < |spine| ==> e[i] == Entry(spine[i].key, spine[i].val)
  {
    seq(|spine|, i requires 0 <= i < |spine| reads spine => Entry(spine[i].key, spine[i].val))
  }

  class Table<K(!new), V(!new)> {
    const heads: array<Cell?<K, V>>
    const eq: (K, K) -> bool
    const hash: K -> int
    ghost var spines: seq<seq<Cell<K, V>>>   // the cells of every bucket, in order
    ghost var cells: set<Cell<K, V>>

    ghost predicate Linked()
      reads this, heads, cells
    {
      && |spines| == heads.Length
      && (forall b :: 0 <= b < |spines| ==> (forall i :: 0 <= i < |spines[b]| ==> spines[b][i] in cells))
      && (forall b :: 0 <= b < |spines| ==> Chained(heads[b], spines[b], b))
    }

    ghost function Buckets(): (bs: seq<seq<Entry<K, V>>>)
      requires Linked()
      reads this, heads, cells
      ensures |bs| == |spines| && forall b :: 0 <= b < |spines| ==> bs[b] == Entries(spines[b])
    {
      seq(|spines|, b requires 0 <= b < |spines| && Linked() reads this, heads, cells => Entries(spines[b]))
    }

    ghost predicate Valid()
      reads this, heads, cells
    {
      Lawful(eq, hash) && Linked() && WellFormed(Buckets(), eq, hash)
    }

    constructor (capacity: nat, eq: (K, K) -> bool, hash: K -> int)
      requires CapacityOk(capacity) && Lawful(eq, hash)
      ensures Valid() && fresh(heads) && cells == {} && this.eq == eq && this.hash == hash
      ensures forall k, v :: !Binds(Buckets(), eq, k, v)
    {
      Pow2Test(capacity);
      this.eq, this.hash := eq, hash;
      heads := new Cell?<K, V>[capacity](_ => null);
      spines := seq(capacity, _ => []);
      cells := {};
    }

    /** The search loop shared by lookup, insert and remove: the cell with an equal key, if there is one,
        and the one before it. */
    method Search(key: K) returns (b: nat, c: Cell?<K, V>, prev: Cell?<K, V>, ghost i: nat)
      requires Valid()
      ensures b == Slot(hash(key), heads.Length) < heads.Length == |spines| && i <= |spines[b]|
      ensures c == At(spines[b], i) && prev == if i == 0 then null else spines[b][i - 1]
      ensures c != null ==> i < |spines[b]| && eq(c.key, key)
      ensures c == null ==> i == |spines[b]| && Absent(Buckets()[b], eq, key)
    {
      SlotInRange(hash(key), heads.Length);
      b, i, prev := Slot(hash(key), heads.Length), 0, null;
      c := heads[b];
      while c != null
        invariant i <= |spines[b]| && c == At(spines[b], i) && prev == if i == 0 then null else spines[b][i - 1]
        invariant forall k :: 0 <= k < i ==> !eq(spines[b][k].key, key)
        decreases |spines[b]| - i
      {
        if eq(c.key, key) {
          return;
        }
        prev, c, i := c, c.next, i + 1;
      }
    }

    /** c->val = val. */
    method SetVal(ghost b: nat, ghost i: nat, c: Cell<K, V>, val: V)
      requires Linked() && b < |spines| && i < |spines[b]| && c == spines[b][i]
      modifies c
      ensures Linked()
      ensures Buckets() == old(Buckets())[b := old(Buckets()[b])[i := old(Buckets()[b][i]).(val := val)]]
    {
      ghost var bs: seq<seq<Entry<K, V>>> := Buckets();
      c.val := val;
      forall d | 0 <= d < |spines| ensures Chained(heads[d], spines[d], d) && (d != b ==> Entries(spines[d]) == bs[d]) {
        assert old(Chained(heads[d], spines[d], d));
      }
      assert Entries(spines[b]) == bs[b][i := bs[b][i].(val := val)];
      assert Buckets() == bs[b := bs[b][i := bs[b][i].(val := val)]];
    }

    /** Bucket b has a new chain; the others are as they were. */
    twostate lemma Rechained(b: nat)
      requires old(Linked()) && b < |spines| == old(|spines|) && spines == old(spines)[b := spines[b]]
      requires forall d :: 0 <= d < |spines| && d != b ==> heads[d] == old(heads[d])
      requires forall c :: c in old(cells) && c.home != b ==> unchanged(c)
      requires old(cells) <= cells && (forall i :: 0 <= i < |spines[b]| ==> spines[b][i] in cells)
      requires Chained(heads[b], spines[b], b)
      ensures Linked() && Buckets() == old(Buckets())[b := Entries(spines[b])]
    {
      forall d | 0 <= d < |spines| && d != b ensures Chained(heads[d], spines[d], d) && Entries(spines[d]) == old(Entries(spines[d])) {
        assert old(Chained(heads[d], spines[d], d)) && spines[d] == old(spines[d]);
        assert forall i :: 0 <= i < |spines[d]| ==> spines[d][i] in old(cells) && unchanged(spines[d][i]);
      }
    }

    /** A new cell at the head of bucket b. */
    method Link(b: nat, key: K, val: V)
      requires Linked() && b < heads.Length
      modifies this, heads
      ensures Linked() && fresh(cells - old(cells))
      ensures Buckets() == old(Buckets())[b := [Entry(key, val)] + old(Buckets()[b])]
    {
      ghost var was := spines[b];
      assert Chained(heads[b], was, b);
      var c := PutIn(heads[b], was, b, key, val);
      heads[b] := c;
      cells := cells + {c};
      spines := spines[b := [c] + was];
      Rechained(b);
    }

    /** Cell number i of bucket b is taken out of its chain. */
    method Unlink(b: nat, ghost i: nat, c: Cell<K, V>, prev: Cell?<K, V>)
      requires Linked() && b < |spines| && i < |spines[b]| && c == spines[b][i]
      requires prev == if i == 0 then null else spines[b][i - 1]
      modifies this`spines, heads, if prev == null then {} else {prev}
      ensures Linked()
      ensures Buckets() == old(Buckets())[b := Without(old(Buckets()[b]), i)]
    {
      hide Without, Chained, Linked;
      BucketFacts(b, i);
      ghost var was := spines[b];
      var head := TakeOut(heads[b], was, b, i, c, prev);
      heads[b] := head;
      spines := spines[b := Without(was, i)];
      Rechained(b);
    }

    /** table_lookup: finds exactly what the table binds the key to. */
    method Lookup(key: K) returns (r: Option<V>)
      requires Valid()
      ensures r.Some? ==> forall v :: Binds(Buckets(), eq, key, v) <==> v == r.value
      ensures r.None? ==> forall v :: !Binds(Buckets(), eq, key, v)
    {
      ghost var bs: seq<seq<Entry<K, V>>> := Buckets();
      var b, c, prev, i := Search(key);
      if c != null {
        r := Some(c.val);
        assert bs[b][i] == Entry(c.key, c.val);
        FoundInBucket(bs, eq, hash, b, i, key);
      } else {
        r := None;
        forall v ensures !Binds(bs, eq, key, v) { AbsentIsUnbound(bs, eq, hash, key, key, v); }
      }
    }

    /** table_insert: binds the key, and every key equal to it, to val and changes nothing else. A new
        cell may be refused for lack of memory; then nothing changes. */
    method Insert(key: K, val: V, canAllocate: bool) returns (ok: bool)
      requires Valid()
      modifies this, heads, cells
      ensures Valid() && fresh(cells - old(cells))
      ensures ok <==> canAllocate || exists v :: old(Binds(Buckets(), eq, key, v))
      ensures ok ==> Updated(old(Buckets()), Buckets(), eq, key, Some(val))
      ensures !ok ==> Buckets() == old(Buckets())
    {
      hide Linked, WellFormed;
      ghost var bs: seq<seq<Entry<K, V>>> := Buckets();
      var b, c, prev, i := Search(key);
      if c != null {
        Inside(b, i);
        assert bs[b][i] == Entry(c.key, c.val);
        FoundInBucket(bs, eq, hash, b, i, key);
        ghost var was := c.val;
        assert Binds(bs, eq, key, was);
        Overwritten(bs, eq, hash, b, i, key, val);
        SetVal(b, i, c, val);
        assert old(Binds(Buckets(), eq, key, was));
        return true;
      }
      forall v ensures !Binds(bs, eq, key, v) { AbsentIsUnbound(bs, eq, hash, key, key, v); }
      if !canAllocate {
        return false;
      }
      Prepended(bs, eq, hash, key, val);
      Link(b, key, val);
      return true;
    }

    /** table_remove: NOT_FOUND when nothing was bound, otherwise the binding is gone; `gone` is the
        entry handed to the destructor. */
    method Remove(key: K) returns (gone: Option<Entry<K, V>>)
      requires Valid()
      modifies this, heads, cells
      ensures Valid() && cells == old(cells)
      ensures gone.None? ==> (forall v :: !old(Binds(Buckets(), eq, key, v))) && Buckets() == old(Buckets())
      ensures gone.Some? ==> eq(gone.value.key, key) && old(Binds(Buckets(), eq, key, gone.value.val))
      ensures Updated(old(Buckets()), Buckets(), eq, key, None)
    {
      hide Linked, WellFormed;
      ghost var bs: seq<seq<Entry<K, V>>> := Buckets();
      var b, c, prev, i := Search(key);
      if c == null {
        Untouched(bs, eq, hash, b, key);
        return None;
      }
      Inside(b, i);
      gone := Some(Entry(c.key, c.val));
      assert bs[b][i] == gone.value;
      FoundInBucket(bs, eq, hash, b, i, key);
      Unlinked(bs, eq, hash, b, i, key);
      Unlink(b, i, c, prev);
    }

    lemma Inside(b: nat, i: nat)
      requires Linked() && b < |spines| && i < |spines[b]|
      ensures spines[b][i] in cells && (i > 0 ==> spines[b][i - 1] in cells)
    {
    }

    lemma BucketFacts(b: nat, i: nat)
      requires Linked() && b < |spines| && i < |spines[b]|
      ensures |spines| == heads.Length && Chained(heads[b], spines[b], b)
      ensures forall j :: 0 <= j < |spines[b]| ==> spines[b][j].home == b
      ensures forall j :: 0 <= j < |Without(spines[b], i)| ==> Without(spines[b], i)[j] in cells
    {
    }
  }

  /** A new cell in front of a chain. */
  method PutIn<K(!new), V(!new)>(head: Cell?<K, V>, ghost spine: seq<Cell<K, V>>, ghost b: nat, key: K, val: V) returns (c: Cell<K, V>)
    requires Chained(head, spine, b)
    ensures fresh(c) && Chained(c, [c] + spine, b) && Entries([c] + spine) == [Entry(key, val)] + old(Entries(spine))
  {
    c := new Cell(key, val, head, b);
    assert old(Chained(head, spine, b));
  }

  /** Taking cell number i out of a chain; the head changes if it was the first. */
  method TakeOut<K(!new), V(!new)>(head: Cell?<K, V>, ghost spine: seq<Cell<K, V>>, ghost b: nat, ghost i: nat, c: Cell<K, V>, prev: Cell?<K, V>)
    returns (head': Cell?<K, V>)
    requires Chained(head, spine, b) && i < |spine| && c == spine[i] && prev == if i == 0 then null else spine[i - 1]
    modifies if prev == null then {} else {prev}
    ensures Chained(head', Without(spine, i), b)
    ensures Entries(Without(spine, i)) == Without(old(Entries(spine)), i)
  {
    ghost var now := Without(spine, i);
    hide Without;
    assert c.next == At(spine, i + 1);
    head' := head;
    if prev != null {
      prev.next := c.next;
    } else {
      head' := c.next;
    }
  }

  lemma SameClass<K(!new)>(eq: (K, K) -> bool, a: K, b: K, k: K)
    requires Equivalence(eq) && eq(a, b)
    ensures eq(a, k) <==> eq(b, k)
  {
    assert eq(b, a);
  }
}
