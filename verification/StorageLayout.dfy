/** Where things lie in a storage segment (src/storage.c:99-114, src/storage.c:603-629). */
module StorageLayout {
  import opened Bits

  const ALIGNMENT := 8
  const RECORD_FIXED := 16   // offsetof(struct record, val): revision and timestamp

  /** ALIGNED_SIZE: the least multiple of 8 that is not smaller. */
  function Aligned(size: nat): (r: nat)
    requires size > 0
    ensures r % ALIGNMENT == 0 && size <= r < size + ALIGNMENT
  {
    size + 7 - (size + 7) % 8
  }

  /** Masking away the low three bits, as the macro does, is subtracting them. */
  lemma AlignedIsMasked(size: nat)
    requires size > 0
    ensures Aligned(size) == size + 7 - And(size + 7, 7)
  {
    MaskIsMod(size + 7, 3);
    assert Pow2(3) == 8;
  }

  /** Up to whole pages: the least multiple of the page size that is not smaller. */
  function RoundUp(x: nat, page: nat): (r: nat)
    requires page > 0
    ensures r % page == 0 && x <= r < x + page
  {
    var y := x + page - 1;
    Pages(y, page);
    y / page * page
  }

  lemma Pages(y: nat, page: nat)
    requires page > 0
    ensures (y / page * page) % page == 0 && y / page * page <= y < y / page * page + page
  {
    assert y == y / page * page + y % page;
    ModUnique(y / page * page, page, y / page, 0);
  }

  /** For a page size that is a power of two, masking away the low bits, as the code does. */
  lemma RoundUpIsMasked(x: nat, k: nat)
    ensures Pow2(k) > 0 && RoundUp(x, Pow2(k)) == x + Pow2(k) - 1 - And(x + Pow2(k) - 1, Pow2(k) - 1)
  {
    Pow2Positive(k);
    var y, page := x + Pow2(k) - 1, Pow2(k);
    MaskIsMod(y, k);
    hide And, Pow2;
    Whole(y, page);
  }

  lemma Whole(y: nat, page: nat)
    requires page > 0
    ensures y / page * page == y - y % page
  {
    assert y == y / page * page + y % page;
  }

  /** The sizes a storage is created with; changeQ is offsetof(struct segment, change_q). */
  datatype Shape = Shape(baseId: int, maxId: int, valSize: nat, propSize: nat, capacity: nat, changeQ: nat, pageSize: nat) {
    predicate Ok() {
      baseId < maxId && 0 < valSize && changeQ % ALIGNMENT == 0 && 0 < pageSize
    }

    function PropOffset(): nat
      requires Ok()
    {
      RECORD_FIXED + Aligned(valSize)
    }

    function RecSize(): nat
      requires Ok()
    {
      if propSize > 0 then PropOffset() + Aligned(propSize) else PropOffset()
    }

    function HdrSize(): nat
      requires Ok()
    {
      changeQ + Aligned(8 * (if capacity > 0 then capacity else 1))
    }

    function Count(): nat
      requires Ok()
    {
      maxId - baseId
    }

    function SegSize(): nat
      requires Ok()
    {
      RoundUp(HdrSize() + Count() * RecSize(), pageSize)
    }

    /** storage_get_record: the byte offset of a record, for an identifier of the storage. */
    function GetRecord(id: int): (offset: nat)
      requires Ok() && baseId <= id < maxId
      ensures HdrSize() <= offset
    {
      Scaled(0, id - baseId, RecSize());
      HdrSize() + (id - baseId) * RecSize()
    }

    /** storage_get_id. */
    function GetId(offset: nat): int
      requires Ok() && HdrSize() <= offset
    {
      (offset - HdrSize()) / RecSize()
    }
  }

  lemma Scaled(a: nat, b: nat, m: nat)
    requires a <= b
    ensures a * m <= b * m
  {
  }

  lemma MultipleOf8(a: nat, m: nat)
    requires m % 8 == 0
    ensures (a * m) % 8 == 0
  {
    assert a * m == 8 * (a * (m / 8));
  }

  lemma SizesAligned(s: Shape)
    requires s.Ok()
    ensures s.RecSize() % ALIGNMENT == 0 && s.HdrSize() % ALIGNMENT == 0
    ensures RECORD_FIXED + s.valSize <= s.PropOffset() <= s.RecSize()
    ensures s.propSize > 0 ==> s.PropOffset() + s.propSize <= s.RecSize()
    ensures s.changeQ + 8 * s.capacity <= s.HdrSize()
    ensures s.PropOffset() < RECORD_FIXED + s.valSize + ALIGNMENT
    ensures s.RecSize() < s.PropOffset() + s.propSize + ALIGNMENT && (s.propSize == 0 ==> s.RecSize() == s.PropOffset())
    ensures s.HdrSize() < s.changeQ + 8 * (if s.capacity > 0 then s.capacity else 1) + ALIGNMENT
  {
    hide Aligned;
    Aligned8Sum(RECORD_FIXED, Aligned(s.valSize));
    if s.propSize > 0 { Aligned8Sum(s.PropOffset(), Aligned(s.propSize)); }
    Aligned8Sum(s.changeQ, Aligned(8 * (if s.capacity > 0 then s.capacity else 1)));
  }

  lemma Aligned8Sum(a: nat, b: nat)
    requires a % 8 == 0 && b % 8 == 0
    ensures (a + b) % 8 == 0
  {
  }

  /** Slot a of an array of records of size m that starts at hdr ends before slot b begins. */
  lemma SlotEnds(hdr: nat, m: nat, a: nat, b: nat)
    requires a < b
    ensures hdr + a * m + m <= hdr + b * m
  {
    Scaled(a + 1, b, m);
  }

  lemma Aligned8(hdr: nat, m: nat, a: nat)
    requires hdr % 8 == 0 && m % 8 == 0
    ensures (hdr + a * m) % 8 == 0
  {
    MultipleOf8(a, m);
    var p := a * m;
    assert (hdr + p) % 8 == 0;
  }

  /** Every record lies, aligned, between the change queue and the end of the segment, and its value and
      property do not overlap. */
  lemma RecordInside(s: Shape, i: int)
    requires s.Ok() && s.baseId <= i < s.maxId
    ensures s.changeQ + 8 * s.capacity <= s.HdrSize() <= s.GetRecord(i)
    ensures s.GetRecord(i) % ALIGNMENT == 0 && s.GetRecord(i) + s.RecSize() <= s.SegSize()
    ensures RECORD_FIXED + s.valSize <= s.PropOffset()
    ensures s.propSize > 0 ==> s.PropOffset() + s.propSize <= s.RecSize()
  {
    SizesAligned(s);
    hide Aligned;
    Aligned8(s.HdrSize(), s.RecSize(), i - s.baseId);
    SlotEnds(s.HdrSize(), s.RecSize(), i - s.baseId, s.Count());
  }

  /** The segment is the least number of whole pages that holds the header and the records. */
  lemma SegmentIsLeast(s: Shape)
    requires s.Ok()
    ensures s.SegSize() % s.pageSize == 0
    ensures s.HdrSize() + s.Count() * s.RecSize() <= s.SegSize() < s.HdrSize() + s.Count() * s.RecSize() + s.pageSize
  {
    hide Aligned;
    var used := s.HdrSize() + s.Count() * s.RecSize();
    assert s.SegSize() == RoundUp(used, s.pageSize);
    hide RoundUp;
  }

  /** Different records do not overlap. */
  lemma RegionsAreDisjoint(s: Shape, i: int, j: int)
    requires s.Ok() && s.baseId <= i < s.maxId && s.baseId <= j < s.maxId && i != j
    ensures s.GetRecord(i) + s.RecSize() <= s.GetRecord(j) || s.GetRecord(j) + s.RecSize() <= s.GetRecord(i)
  {
    hide Aligned;
    if i < j {
      SlotEnds(s.HdrSize(), s.RecSize(), i - s.baseId, j - s.baseId);
    } else {
      SlotEnds(s.HdrSize(), s.RecSize(), j - s.baseId, i - s.baseId);
    }
  }

  /** storage_get_id undoes storage_get_record only up to the base: it yields the index, so it returns
      the identifier exactly for storages whose identifiers start at 0. */
  lemma GetIdOfGetRecord(s: Shape, id: int)
    requires s.Ok() && s.baseId <= id < s.maxId
    ensures s.GetId(s.GetRecord(id)) == id - s.baseId
    ensures s.GetId(s.GetRecord(id)) == id <==> s.baseId == 0
  {
    IndexOf(s.HdrSize(), s.RecSize(), id - s.baseId);
    hide Aligned;
  }

  lemma IndexOf(hdr: nat, m: nat, a: nat)
    requires m > 0
    ensures (hdr + a * m - hdr) / m == a
  {
    ModUnique(a * m, m, a, 0);
  }
}
