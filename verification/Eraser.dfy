/** Erasing records and compacting the storage (src/eraser.c:79-133 over src/storage.c). */
module Eraser {
  import opened SpinLock

  /** A record: lock word, timestamp, value and property. */
  datatype Rec = Rec(rev: int, ts: int, val: seq<int>, prop: seq<int>)

  function Zeros(n: nat): seq<int> { seq(n, _ => 0) }

  datatype Layout = Layout(valSize: nat, propSize: nat) {
    /** What storage_clear_record leaves behind. */
    function Cleared(): Rec { Rec(0, 0, Zeros(valSize), Zeros(propSize)) }

    predicate Fits(r: Rec) { IsWord(r.rev) && |r.val| == valSize && |r.prop| == propSize }
  }

  predicate Used(r: Rec) { r.rev != 0 }

  // ---------------------------------------------------------------- what the loops compute

  predicate InRange(recs: seq<Rec>, ids: seq<nat>) {
    forall j :: 0 <= j < |ids| ==> ids[j] < |recs|
  }

  function EraseAll(recs: seq<Rec>, ids: seq<nat>, lay: Layout): (r: seq<Rec>)
    requires InRange(recs, ids)
    ensures |r| == |recs|
    decreases |ids|
  {
    if ids == [] then recs else EraseAll(recs[ids[0] := lay.Cleared()], ids[1..], lay)
  }

  /** The topmost used record below `top`, or -1. */
  function PrevUsed(recs: seq<Rec>, top: nat): (k: int)
    requires top <= |recs|
    ensures -1 <= k < top
    ensures k >= 0 ==> Used(recs[k])
    ensures forall j :: k < j < top ==> !Used(recs[j])
  {
    if top == 0 then -1 else if Used(recs[top - 1]) then top - 1 else PrevUsed(recs, top - 1)
  }

  function Move(recs: seq<Rec>, from: nat, to: nat, lay: Layout): seq<Rec>
    requires from < |recs| && to < |recs|
  {
    recs[to := recs[from]][from := lay.Cleared()]
  }

  /** The compaction loop for the identifiers still to be handled, `top` being the last record visited. */
  function Compact(recs: seq<Rec>, ids: seq<nat>, top: nat, lay: Layout): (r: seq<Rec>)
    requires InRange(recs, ids) && top <= |recs|
    ensures |r| == |recs|
    decreases |ids|
  {
    if ids == [] || PrevUsed(recs, top) < 0 then recs
    else
      var k := PrevUsed(recs, top);
      if ids[0] >= k then Compact(recs, ids[1..], k, lay)
      else Compact(Move(recs, k, ids[0], lay), ids[1..], k, lay)
  }

  // ---------------------------------------------------------------- conservation

  predicate Distinct(ids: seq<nat>) {
    forall i, j :: 0 <= i < j < |ids| ==> ids[i] != ids[j]
  }

  ghost predicate AllCleared(recs: seq<Rec>, ids: seq<nat>, lay: Layout)
    requires InRange(recs, ids)
  {
    forall j :: 0 <= j < |ids| ==> recs[ids[j]] == lay.Cleared()
  }

  lemma {:induction false} EraseClears(recs: seq<Rec>, ids: seq<nat>, lay: Layout)
    requires InRange(recs, ids)
    ensures AllCleared(EraseAll(recs, ids, lay), ids, lay)
    ensures forall k :: 0 <= k < |recs| && k !in ids ==> EraseAll(recs, ids, lay)[k] == recs[k]
    decreases |ids|
  {
    if ids != [] {
      var recs1 := recs[ids[0] := lay.Cleared()];
      EraseClears(recs1, ids[1..], lay);
      if ids[0] in ids[1..] {
        var j :| 0 <= j < |ids[1..]| && ids[1..][j] == ids[0];
      }
    }
  }

  /** Moving a record conserves the contents of the storage exactly when the target slot is cleared. */
  lemma MoveConserves(recs: seq<Rec>, from: nat, to: nat, lay: Layout)
    requires from < |recs| && to < |recs| && from != to
    ensures multiset(Move(recs, from, to, lay)) == multiset(recs) <==> recs[to] == lay.Cleared()
  {
    var moved := Move(recs, from, to, lay);
    assert multiset(recs[to := recs[from]]) == multiset(recs) - multiset{recs[to]} + multiset{recs[from]};
    assert recs[to := recs[from]][from] == recs[from];
    assert multiset(moved) == multiset(recs) - multiset{recs[to]} + multiset{recs[from]} - multiset{recs[from]} + multiset{lay.Cleared()};
    if recs[to] != lay.Cleared() {
      assert multiset(moved)[recs[to]] == multiset(recs)[recs[to]] - 1;
    }
  }

  ghost predicate CanCompact(recs: seq<Rec>, ids: seq<nat>, lay: Layout) {
    InRange(recs, ids) && Distinct(ids) && AllCleared(recs, ids, lay)
  }

  lemma MoveKeepsCanCompact(recs: seq<Rec>, ids: seq<nat>, k: nat, lay: Layout)
    requires CanCompact(recs, ids, lay) && ids != [] && k < |recs| && Used(recs[k])
    ensures CanCompact(Move(recs, k, ids[0], lay), ids[1..], lay)
  {
    var ids1 := ids[1..];
    forall j | 0 <= j < |ids1| ensures Move(recs, k, ids[0], lay)[ids1[j]] == lay.Cleared() {
      assert ids1[j] == ids[j + 1] && ids[0] != ids[j + 1];
    }
  }

  /** For distinct identifiers in any order, compaction only permutes the records of the part of the
      storage below `bound`, so no live record is overwritten and none is lost or duplicated. */
  lemma {:induction false} CompactConserves(recs: seq<Rec>, ids: seq<nat>, top: nat, bound: nat, lay: Layout)
    requires CanCompact(recs, ids, lay) && top <= bound <= |recs|
    ensures var r := Compact(recs, ids, top, lay);
      multiset(r[..bound]) == multiset(recs[..bound]) && r[bound..] == recs[bound..]
    decreases |ids|
  {
    if ids != [] && PrevUsed(recs, top) >= 0 {
      var k := PrevUsed(recs, top);
      if ids[0] >= k {
        assert CanCompact(recs, ids[1..], lay);
        CompactConserves(recs, ids[1..], k, bound, lay);
      } else {
        var moved := Move(recs, k, ids[0], lay);
        MoveKeepsCanCompact(recs, ids, k, lay);
        CompactConserves(moved, ids[1..], k, bound, lay);
        MoveConserves(recs[..bound], k, ids[0], lay);
        assert moved[..bound] == Move(recs[..bound], k, ids[0], lay);
        assert moved[bound..] == recs[bound..];
      }
    }
  }

  /** The whole of eraser -c: what survives the erasing survives the compaction. */
  lemma EraserConserves(recs: seq<Rec>, ids: seq<nat>, lay: Layout)
    requires InRange(recs, ids) && Distinct(ids)
    ensures var erased := EraseAll(recs, ids, lay);
      multiset(Compact(erased, ids, |recs|, lay)) == multiset(erased)
  {
    var erased := EraseAll(recs, ids, lay);
    EraseClears(recs, ids, lay);
    CompactConserves(erased, ids, |recs|, |recs|, lay);
    var r := Compact(erased, ids, |recs|, lay);
    assert r[..|recs|] == r && erased[..|recs|] == erased;
  }

  // ---------------------------------------------------------------- identifiers given more than once

  /** The topmost position below `top` that is used or in `filled`, or -1. */
  function TopBelow(recs: seq<Rec>, filled: seq<nat>, top: int): (k: int)
    requires top <= |recs|
    ensures -1 <= k && (k < top || k == -1)
    ensures k >= 0 ==> Used(recs[k]) || k in filled
    ensures forall x :: 0 <= x && k < x < top ==> !Used(recs[x]) && x !in filled
    decreases top
  {
    if top <= 0 then -1 else if Used(recs[top - 1]) || top - 1 in filled then top - 1 else TopBelow(recs, filled, top - 1)
  }

  /** The topmost live record when identifier number j has its turn, read off the positions alone: the
      one below the last such record that survived the erasing or is an earlier identifier. */
  function Met(recs: seq<Rec>, ids: seq<nat>, j: nat): (k: int)
    requires j < |ids|
    ensures -1 <= k < |recs|
  {
    TopBelow(recs, ids[..j], Limit(recs, ids, j))
  }

  function Limit(recs: seq<Rec>, ids: seq<nat>, j: nat): (top: int)
    requires j <= |ids|
    ensures -1 <= top <= |recs|
  {
    if j == 0 then |recs| else TopBelow(recs, ids[..j - 1], Limit(recs, ids, j - 1))
  }

  /** No identifier that already occurred has its turn while a live record lies above it. */
  predicate RepeatsHarmless(recs: seq<Rec>, ids: seq<nat>, from: nat) {
    forall m :: from <= m < |ids| && ids[m] in ids[..m] ==> ids[m] >= Met(recs, ids, m)
  }

  lemma {:induction false} NoneLeft(recs: seq<Rec>, ids: seq<nat>, j: nat, m: nat)
    requires j <= m < |ids| && Met(recs, ids, j) == -1
    ensures Met(recs, ids, m) == -1
    decreases m - j
  {
    if j < m {
      assert Limit(recs, ids, j + 1) == -1;
      NoneLeft(recs, ids, j + 1, m);
    }
  }

  /** Below the limit, exactly the survivors and the identifiers handled so far are used, and those
      still to come for the first time are cleared. */
  ghost predicate Midway(orig: seq<Rec>, cur: seq<Rec>, ids: seq<nat>, j: nat, lay: Layout)
    requires j <= |ids|
  {
    && |cur| == |orig| && InRange(orig, ids)
    && (forall x :: 0 <= x < Limit(orig, ids, j) ==> (Used(cur[x]) <==> Used(orig[x]) || x in ids[..j]))
    && (forall m :: 0 <= m < |ids| && ids[m] < Limit(orig, ids, j) && ids[m] !in ids[..j] ==> cur[ids[m]] == lay.Cleared())
  }

  lemma MidwayMeets(orig: seq<Rec>, cur: seq<Rec>, ids: seq<nat>, j: nat, lay: Layout)
    requires j < |ids| && Midway(orig, cur, ids, j, lay) && Limit(orig, ids, j) >= 0
    ensures PrevUsed(cur, Limit(orig, ids, j)) == Met(orig, ids, j) == Limit(orig, ids, j + 1)
  {
    assert ids[..j + 1 - 1] == ids[..j];
  }

  lemma MidwayReleases(orig: seq<Rec>, cur: seq<Rec>, ids: seq<nat>, j: nat, lay: Layout)
    requires j < |ids| && Midway(orig, cur, ids, j, lay) && 0 <= Met(orig, ids, j) <= ids[j]
    ensures Midway(orig, cur, ids, j + 1, lay)
  {
    MidwayMeets(orig, cur, ids, j, lay);
    assert ids[..j + 1] == ids[..j] + [ids[j]];
  }

  lemma MidwayMoves(orig: seq<Rec>, cur: seq<Rec>, ids: seq<nat>, j: nat, lay: Layout)
    requires j < |ids| && Midway(orig, cur, ids, j, lay) && ids[j] < Met(orig, ids, j)
    ensures Midway(orig, Move(cur, Met(orig, ids, j), ids[j], lay), ids, j + 1, lay)
  {
    MidwayMeets(orig, cur, ids, j, lay);
    assert ids[..j + 1] == ids[..j] + [ids[j]];
  }

  function ClearedCount(recs: seq<Rec>, lay: Layout): nat { multiset(recs)[lay.Cleared()] }

  /** Moving a used record adds a cleared one exactly when its target was not cleared. */
  lemma MoveClears(recs: seq<Rec>, from: nat, to: nat, lay: Layout)
    requires from < |recs| && to < |recs| && from != to && Used(recs[from])
    ensures ClearedCount(Move(recs, from, to, lay), lay) == ClearedCount(recs, lay) + if recs[to] == lay.Cleared() then 0 else 1
  {
    assert multiset(recs[to := recs[from]]) == multiset(recs) - multiset{recs[to]} + multiset{recs[from]};
    assert recs[to := recs[from]][from] == recs[from];
  }

  /** The compaction never has fewer cleared records afterwards. */
  lemma {:induction false} CompactClears(recs: seq<Rec>, ids: seq<nat>, top: nat, lay: Layout)
    requires InRange(recs, ids) && top <= |recs|
    ensures ClearedCount(Compact(recs, ids, top, lay), lay) >= ClearedCount(recs, lay)
    decreases |ids|
  {
    if ids != [] && PrevUsed(recs, top) >= 0 {
      var k := PrevUsed(recs, top);
      if ids[0] >= k {
        CompactClears(recs, ids[1..], k, lay);
      } else {
        MoveClears(recs, k, ids[0], lay);
        CompactClears(Move(recs, k, ids[0], lay), ids[1..], k, lay);
      }
    }
  }

  /** The same records, in any order. */
  ghost predicate Same(a: seq<Rec>, b: seq<Rec>) { multiset(a) == multiset(b) }

  lemma MoveKeepsSame(cur: seq<Rec>, k: nat, to: nat, r: seq<Rec>, lay: Layout)
    requires to < k < |cur| && cur[to] == lay.Cleared()
    ensures Same(r, Move(cur, k, to, lay)) <==> Same(r, cur)
  {
    MoveConserves(cur, k, to, lay);
  }

  /** A move into a slot that an earlier move has filled loses a record for good. */
  lemma MoveOverLoses(cur: seq<Rec>, k: nat, to: nat, rest: seq<nat>, lay: Layout)
    requires to < k < |cur| && Used(cur[k]) && Used(cur[to]) && InRange(cur, rest)
    ensures !Same(Compact(Move(cur, k, to, lay), rest, k, lay), cur)
  {
    MoveClears(cur, k, to, lay);
    CompactClears(Move(cur, k, to, lay), rest, k, lay);
  }

  lemma HarmlessSplit(orig: seq<Rec>, ids: seq<nat>, j: nat)
    requires j < |ids|
    ensures RepeatsHarmless(orig, ids, j) <==>
      (ids[j] in ids[..j] ==> ids[j] >= Met(orig, ids, j)) && RepeatsHarmless(orig, ids, j + 1)
  {
  }

  /** What the turn of identifier number j does. */
  lemma TurnOf(orig: seq<Rec>, cur: seq<Rec>, ids: seq<nat>, j: nat, lay: Layout)
    requires j < |ids| && Midway(orig, cur, ids, j, lay) && Limit(orig, ids, j) >= 0
    ensures InRange(cur, ids[j..]) && InRange(cur, ids[j + 1..]) && ids[j] < |cur|
    ensures var k, top := Met(orig, ids, j), Limit(orig, ids, j);
      && k == Limit(orig, ids, j + 1) && (k >= 0 ==> Used(cur[k]))
      && Compact(cur, ids[j..], top, lay) ==
         (if k < 0 then cur
          else if ids[j] >= k then Compact(cur, ids[j + 1..], k, lay)
          else Compact(Move(cur, k, ids[j], lay), ids[j + 1..], k, lay))
  {
    MidwayMeets(orig, cur, ids, j, lay);
    assert ids[j..][0] == ids[j] && ids[j..][1..] == ids[j + 1..];
  }

  lemma NoneLeftHarmless(orig: seq<Rec>, ids: seq<nat>, j: nat)
    requires j < |ids| && Met(orig, ids, j) == -1
    ensures RepeatsHarmless(orig, ids, j)
  {
    forall m | j <= m < |ids| ensures Met(orig, ids, m) == -1 { NoneLeft(orig, ids, j, m); }
  }

  lemma SlotOfTurn(orig: seq<Rec>, cur: seq<Rec>, ids: seq<nat>, j: nat, lay: Layout)
    requires j < |ids| && Midway(orig, cur, ids, j, lay) && ids[j] < Limit(orig, ids, j)
    requires !Used(orig[ids[j]])
    ensures if ids[j] in ids[..j] then Used(cur[ids[j]]) else cur[ids[j]] == lay.Cleared()
  {
  }

  lemma MidwaySized(orig: seq<Rec>, cur: seq<Rec>, ids: seq<nat>, j: nat, lay: Layout)
    requires j <= |ids| && Midway(orig, cur, ids, j, lay)
    ensures |cur| == |orig| && InRange(cur, ids[j..])
  {
  }

  ghost predicate NoneUsed(recs: seq<Rec>, ids: seq<nat>) {
    forall m :: 0 <= m < |ids| ==> ids[m] < |recs| && !Used(recs[ids[m]])
  }

  lemma {:induction false} ConservesFrom(orig: seq<Rec>, cur: seq<Rec>, ids: seq<nat>, j: nat, lay: Layout)
    requires j <= |ids| && Midway(orig, cur, ids, j, lay) && Limit(orig, ids, j) >= 0 && NoneUsed(orig, ids)
    ensures InRange(cur, ids[j..]) && |cur| == |orig|
    ensures Same(Compact(cur, ids[j..], Limit(orig, ids, j), lay), cur) <==> RepeatsHarmless(orig, ids, j)
    decreases |ids| - j
  {
    MidwaySized(orig, cur, ids, j, lay);
    if j == |ids| { return; }
    var k := Met(orig, ids, j);
    TurnOf(orig, cur, ids, j, lay);
    HarmlessSplit(orig, ids, j);
    hide RepeatsHarmless, Met, Limit, Compact, Move, InRange, Same;
    if k < 0 {
      NoneLeftHarmless(orig, ids, j);
    } else if ids[j] >= k {
      MidwayReleases(orig, cur, ids, j, lay);
      hide Midway, NoneUsed;
      ConservesFrom(orig, cur, ids, j + 1, lay);
    } else {
      MidwayMoves(orig, cur, ids, j, lay);
      assert !Used(orig[ids[j]]);
      SlotOfTurn(orig, cur, ids, j, lay);
      hide Midway, NoneUsed;
      var moved := Move(cur, k, ids[j], lay);
      ConservesFrom(orig, moved, ids, j + 1, lay);
      if ids[j] in ids[..j] {
        MoveOverLoses(cur, k, ids[j], ids[j + 1..], lay);
      } else {
        MoveKeepsSame(cur, k, ids[j], Compact(moved, ids[j + 1..], k, lay), lay);
      }
    }
  }

  /** For any identifiers in any order, repeated or not: eraser -c conserves the records that survive
      the erasing if and only if no repeated identifier has its turn below a live record. */
  lemma EraserConservesExactly(recs: seq<Rec>, ids: seq<nat>, lay: Layout)
    requires InRange(recs, ids)
    ensures var erased := EraseAll(recs, ids, lay);
      multiset(Compact(erased, ids, |recs|, lay)) == multiset(erased) <==> RepeatsHarmless(erased, ids, 0)
  {
    var erased := EraseAll(recs, ids, lay);
    EraseClears(recs, ids, lay);
    assert ids[0..] == ids;
    ConservesFrom(erased, erased, ids, 0, lay);
  }

  /** Three records, the first one erased twice: the second move overwrites what the first one saved. */
  lemma RepeatedIdLosesARecord(lay: Layout)
    ensures var z := lay.Cleared(); var a, b, c := z.(rev := 1), z.(rev := 2), z.(rev := 3);
      var erased := EraseAll([a, b, c], [0, 0], lay);
      erased == [z, b, c] && Compact(erased, [0, 0], 3, lay) == [b, z, z]
  {
    var z := lay.Cleared();
    var a, b, c := z.(rev := 1), z.(rev := 2), z.(rev := 3);
    assert [0, 0][1..] == [0] && [0][1..] == [];
    assert [a, b, c][0 := z] == [z, b, c] && [z, b, c][0 := z] == [z, b, c];
    assert EraseAll([z, b, c], [0], lay) == EraseAll([z, b, c], [], lay);
    assert EraseAll([a, b, c], [0, 0], lay) == [z, b, c];
    assert PrevUsed([z, b, c], 3) == 2;
    assert Move([z, b, c], 2, 0, lay) == [c, b, z];
    assert PrevUsed([c, b, z], 2) == 1;
    assert Move([c, b, z], 1, 0, lay) == [b, z, z];
    assert Compact([c, b, z], [0], 2, lay) == Compact([b, z, z], [], 1, lay);
  }

  // ---------------------------------------------------------------- no holes

  /** The used records are the first ones. */
  ghost predicate Contiguous(recs: seq<Rec>) {
    forall i, j :: 0 <= i < j < |recs| && Used(recs[j]) ==> Used(recs[i])
  }

  /** The first identifier found above the topmost live record is followed only by identifiers above
      that record too. Below this is reduced to a condition on the identifiers alone. */
  predicate ReleasesLast(recs: seq<Rec>, ids: seq<nat>, top: nat, lay: Layout)
    requires InRange(recs, ids) && top <= |recs|
    decreases |ids|
  {
    ids == [] || PrevUsed(recs, top) < 0 ||
    (var k := PrevUsed(recs, top);
     if ids[0] >= k then forall j :: 1 <= j < |ids| ==> ids[j] > k
     else ReleasesLast(Move(recs, k, ids[0], lay), ids[1..], k, lay))
  }

  /** While every step has been a move: nothing used from `top` on, and the only holes below a used
      record are the identifiers still to come. */
  ghost predicate Compacting(recs: seq<Rec>, ids: seq<nat>, top: nat) {
    && top <= |recs|
    && (forall j :: top <= j < |recs| ==> !Used(recs[j]))
    && (forall i, j :: 0 <= i < j < |recs| && !Used(recs[i]) && Used(recs[j]) ==> i in ids)
  }

  lemma {:induction false} ReleasedChangesNothing(recs: seq<Rec>, ids: seq<nat>, top: nat, lay: Layout)
    requires InRange(recs, ids) && top <= |recs| && forall j :: 0 <= j < |ids| ==> ids[j] >= top
    ensures Compact(recs, ids, top, lay) == recs
    decreases |ids|
  {
    if ids != [] && PrevUsed(recs, top) >= 0 {
      ReleasedChangesNothing(recs, ids[1..], PrevUsed(recs, top), lay);
    }
  }

  lemma MoveKeepsCompacting(recs: seq<Rec>, ids: seq<nat>, top: nat, lay: Layout)
    requires CanCompact(recs, ids, lay) && Compacting(recs, ids, top) && ids != []
    requires var k := PrevUsed(recs, top); ids[0] < k
    ensures var k := PrevUsed(recs, top); Compacting(Move(recs, k, ids[0], lay), ids[1..], k)
  {
    var k := PrevUsed(recs, top);
    var moved := Move(recs, k, ids[0], lay);
    forall i, j | 0 <= i < j < |moved| && !Used(moved[i]) && Used(moved[j]) ensures i in ids[1..] {
      assert j < k && i != ids[0];
      assert !Used(recs[i]) && Used(recs[k]);
      assert i in ids;
    }
  }

  /** Releasing the topmost record while a hole is left below it leaves that many holes for good. */
  lemma ReleaseLeavesHole(recs: seq<Rec>, ids: seq<nat>, k: nat, x: nat, lay: Layout)
    requires CanCompact(recs, ids, lay) && k < |recs| && Used(recs[k]) && x < k && recs[x] == lay.Cleared()
    ensures !Contiguous(Compact(recs, ids, k, lay))
  {
    var r := Compact(recs, ids, k, lay);
    CompactConserves(recs, ids, k, k, lay);
    assert recs[..k][x] == lay.Cleared();
    assert lay.Cleared() in multiset(r[..k]);
    var y :| 0 <= y < k && r[..k][y] == lay.Cleared();
    assert r[k..][0] == recs[k..][0];
    assert !Used(r[y]) && Used(r[k]);
  }

  lemma NoHoleBelow(recs: seq<Rec>, ids: seq<nat>, top: nat)
    requires InRange(recs, ids) && Compacting(recs, ids, top) && ids != [] && 0 <= PrevUsed(recs, top) <= ids[0]
    requires forall j :: 1 <= j < |ids| ==> ids[j] > PrevUsed(recs, top)
    ensures Contiguous(recs)
  {
  }

  /** The first release: no hole is left exactly when every identifier to come is above it. */
  lemma ReleaseExactly(recs: seq<Rec>, ids: seq<nat>, top: nat, lay: Layout)
    requires CanCompact(recs, ids, lay) && Compacting(recs, ids, top) && ids != []
    requires 0 <= PrevUsed(recs, top) <= ids[0]
    ensures var k := PrevUsed(recs, top);
      Contiguous(Compact(recs, ids[1..], k, lay)) <==> forall j :: 1 <= j < |ids| ==> ids[j] > k
  {
    hide Compact;
    var k := PrevUsed(recs, top);
    if forall j :: 1 <= j < |ids| ==> ids[j] > k {
      NoHoleBelow(recs, ids, top);
      ReleasedChangesNothing(recs, ids[1..], k, lay);
    } else {
      hide Compacting, Contiguous;
      var j :| 1 <= j < |ids| && ids[j] <= k;
      assert CanCompact(recs, ids[1..], lay);
      assert recs[ids[j]] == lay.Cleared();
      ReleaseLeavesHole(recs, ids[1..], k, ids[j], lay);
    }
  }

  lemma {:induction false} CompactExactly(recs: seq<Rec>, ids: seq<nat>, top: nat, lay: Layout)
    requires CanCompact(recs, ids, lay) && Compacting(recs, ids, top)
    ensures Contiguous(Compact(recs, ids, top, lay)) <==> ReleasesLast(recs, ids, top, lay)
    decreases |ids|
  {
    if ids == [] || PrevUsed(recs, top) < 0 { return; }
    hide Contiguous, Compacting;
    var k := PrevUsed(recs, top);
    if ids[0] < k {
      MoveKeepsCanCompact(recs, ids, k, lay);
      MoveKeepsCompacting(recs, ids, top, lay);
      CompactExactly(Move(recs, k, ids[0], lay), ids[1..], k, lay);
    } else {
      ReleaseExactly(recs, ids, top, lay);
    }
  }

  // ---------------------------------------------------------------- the condition without a run

  /** How many records below x are used. */
  function UsedBelow(recs: seq<Rec>, x: nat): (n: nat)
    requires x <= |recs|
    ensures n <= x
  {
    if x == 0 then 0 else UsedBelow(recs, x - 1) + if Used(recs[x - 1]) then 1 else 0
  }

  /** How many of the identifiers are smaller than x. */
  function Smaller(ids: seq<nat>, x: nat): nat {
    if ids == [] then 0 else Smaller(ids[1..], x) + if ids[0] < x then 1 else 0
  }

  lemma {:induction false} SmallerNext(ids: seq<nat>, x: nat)
    requires Distinct(ids)
    ensures Smaller(ids, x + 1) == Smaller(ids, x) + if x in ids then 1 else 0
  {
    if ids != [] {
      SmallerNext(ids[1..], x);
      assert x in ids <==> x == ids[0] || x in ids[1..];
      assert x == ids[0] ==> x !in ids[1..];
    }
  }

  /** Cleared identifiers and used records share the positions below x; together they are all of them
      if every unused position is an identifier. */
  lemma {:induction false} PositionsShared(recs: seq<Rec>, ids: seq<nat>, x: nat, lay: Layout)
    requires CanCompact(recs, ids, lay) && x <= |recs|
    ensures UsedBelow(recs, x) + Smaller(ids, x) <= x
    ensures (forall y :: 0 <= y < x && !Used(recs[y]) ==> y in ids) ==> UsedBelow(recs, x) + Smaller(ids, x) == x
  {
    if x == 0 {
      NoneSmaller(ids);
    } else {
      PositionsShared(recs, ids, x - 1, lay);
      SmallerNext(ids, x - 1);
      if x - 1 in ids {
        var j :| 0 <= j < |ids| && ids[j] == x - 1;
        assert recs[ids[j]] == lay.Cleared();
      }
    }
  }

  lemma {:induction false} NoneSmaller(ids: seq<nat>)
    ensures Smaller(ids, 0) == 0
  {
    if ids != [] { NoneSmaller(ids[1..]); }
  }

  lemma {:induction false} AllUsedBelow(recs: seq<Rec>, x: nat, y: nat)
    requires x <= y <= |recs| && forall j :: x <= j < y ==> !Used(recs[j])
    ensures UsedBelow(recs, y) == UsedBelow(recs, x)
    decreases y
  {
    if x < y { AllUsedBelow(recs, x, y - 1); }
  }

  /** When the first identifier has its turn: if one to come lies among the first n positions, it must
      itself lie below n plus the number of smaller identifiers to come. */
  predicate HeadFits(n: nat, ids: seq<nat>)
    requires ids != []
  {
    (exists i :: 1 <= i < |ids| && ids[i] < n) ==> ids[0] < n + Smaller(ids[1..], ids[0])
  }

  /** The order in which n survivors fill the holes: checked on the arguments alone. */
  predicate FillsInOrder(n: nat, ids: seq<nat>) {
    forall j :: 0 <= j < |ids| ==> HeadFits(n, ids[j..])
  }

  lemma FillsSplit(n: nat, ids: seq<nat>)
    requires ids != []
    ensures FillsInOrder(n, ids) <==> HeadFits(n, ids) && FillsInOrder(n, ids[1..])
  {
    assert ids[0..] == ids;
    forall j | 0 <= j < |ids[1..]| ensures ids[1..][j..] == ids[j + 1..] {}
    if HeadFits(n, ids) && FillsInOrder(n, ids[1..]) {
      forall j | 0 <= j < |ids| ensures HeadFits(n, ids[j..]) {
        if j > 0 { assert ids[1..][j - 1..] == ids[j..]; }
      }
    }
  }

  /** Whether the first identifier is below the topmost live record, by counting. */
  lemma HeadBelowTop(recs: seq<Rec>, ids: seq<nat>, top: nat, lay: Layout)
    requires CanCompact(recs, ids, lay) && Compacting(recs, ids, top) && ids != [] && PrevUsed(recs, top) >= 0
    ensures ids[0] < PrevUsed(recs, top) <==> ids[0] < UsedBelow(recs, |recs|) + Smaller(ids[1..], ids[0])
  {
    var k, y, n := PrevUsed(recs, top), ids[0], UsedBelow(recs, |recs|);
    assert recs[y] == lay.Cleared();
    assert Smaller(ids, y) == Smaller(ids[1..], y);
    PositionsShared(recs, ids, y, lay);
    AllUsedBelow(recs, k + 1, |recs|);
    if y < k {
      assert forall x :: 0 <= x < y && !Used(recs[x]) ==> x in ids by { assert Used(recs[k]); }
      UsedBelowLess(recs, y, k + 1);
    } else {
      AllUsedBelow(recs, k + 1, y);
    }
  }

  lemma {:induction false} UsedBelowLess(recs: seq<Rec>, x: nat, y: nat)
    requires x < y <= |recs| && Used(recs[y - 1])
    ensures UsedBelow(recs, x) < UsedBelow(recs, y)
    decreases y
  {
    UsedBelowMonotone(recs, x, y - 1);
  }

  lemma {:induction false} UsedBelowMonotone(recs: seq<Rec>, x: nat, y: nat)
    requires x <= y <= |recs|
    ensures UsedBelow(recs, x) <= UsedBelow(recs, y)
    decreases y
  {
    if x < y { UsedBelowMonotone(recs, x, y - 1); }
  }

  /** Once a live record is released, the identifiers to come are above it exactly if none of them lies
      among the first n positions. */
  lemma ReleasedAbove(recs: seq<Rec>, ids: seq<nat>, top: nat, lay: Layout)
    requires CanCompact(recs, ids, lay) && Compacting(recs, ids, top) && ids != [] && 0 <= PrevUsed(recs, top) <= ids[0]
    ensures var k, n := PrevUsed(recs, top), UsedBelow(recs, |recs|);
      (forall j :: 1 <= j < |ids| ==> ids[j] > k) <==> (forall j :: 1 <= j < |ids| ==> ids[j] >= n)
  {
    var k, n := PrevUsed(recs, top), UsedBelow(recs, |recs|);
    AllUsedBelow(recs, k + 1, |recs|);
    assert n <= k + 1;
    if exists j :: 1 <= j < |ids| && ids[j] <= k {
      var j :| 1 <= j < |ids| && ids[j] <= k;
      if n <= ids[j] { HoleAmongFirst(recs, ids, top, lay, ids[j]); }
    }
  }

  /** If a live record lies above the first n positions, one of these is an identifier to come. */
  lemma HoleAmongFirst(recs: seq<Rec>, ids: seq<nat>, top: nat, lay: Layout, hole: nat)
    requires CanCompact(recs, ids, lay) && Compacting(recs, ids, top) && ids != [] && 0 <= PrevUsed(recs, top) <= ids[0]
    requires UsedBelow(recs, |recs|) <= hole <= PrevUsed(recs, top)
    ensures exists j :: 1 <= j < |ids| && ids[j] < UsedBelow(recs, |recs|)
  {
    var k, n := PrevUsed(recs, top), UsedBelow(recs, |recs|);
    assert Used(recs[k]);
    UsedBelowLess(recs, n, k + 1);
    AllUsedBelow(recs, k + 1, |recs|);
    if forall x :: 0 <= x < n ==> Used(recs[x]) {
      AllUsed(recs, n);
    } else {
      var x :| 0 <= x < n && !Used(recs[x]);
      assert x in ids;
    }
  }

  lemma {:induction false} AllUsed(recs: seq<Rec>, x: nat)
    requires x <= |recs| && forall j :: 0 <= j < x ==> Used(recs[j])
    ensures UsedBelow(recs, x) == x
  {
    if x > 0 { AllUsed(recs, x - 1); }
  }

  lemma {:induction false} MoveKeepsCount(recs: seq<Rec>, from: nat, to: nat, x: nat, lay: Layout)
    requires to < from < |recs| && Used(recs[from]) && !Used(recs[to]) && x <= |recs|
    ensures UsedBelow(Move(recs, from, to, lay), x) == UsedBelow(recs, x) + (if to < x <= from then 1 else 0)
  {
    if x > 0 { MoveKeepsCount(recs, from, to, x - 1, lay); }
  }

  lemma {:induction false} ReleasesLastByCount(recs: seq<Rec>, ids: seq<nat>, top: nat, lay: Layout)
    requires CanCompact(recs, ids, lay) && Compacting(recs, ids, top)
    ensures ReleasesLast(recs, ids, top, lay) <==> FillsInOrder(UsedBelow(recs, |recs|), ids)
    decreases |ids|
  {
    var n := UsedBelow(recs, |recs|);
    if ids == [] {
    } else if PrevUsed(recs, top) < 0 {
      AllUsedBelow(recs, 0, |recs|);
    } else {
      var k := PrevUsed(recs, top);
      HeadBelowTop(recs, ids, top, lay);
      FillsSplit(n, ids);
      if ids[0] < k {
        assert recs[ids[0]] == lay.Cleared();
        MoveKeepsCanCompact(recs, ids, k, lay);
        MoveKeepsCompacting(recs, ids, top, lay);
        MoveKeepsCount(recs, k, ids[0], |recs|, lay);
        ReleasesLastByCount(Move(recs, k, ids[0], lay), ids[1..], k, lay);
      } else {
        ReleasedAbove(recs, ids, top, lay);
        if forall j :: 1 <= j < |ids| ==> ids[j] >= n { NoneToCome(n, ids[1..]); }
      }
    }
  }

  lemma NoneToCome(n: nat, ids: seq<nat>)
    requires forall j :: 0 <= j < |ids| ==> ids[j] >= n
    ensures FillsInOrder(n, ids)
  {
  }

  /** How many records survive the erasing of distinct identifiers from a storage of u records. */
  lemma Survivors(recs: seq<Rec>, ids: seq<nat>, u: nat, lay: Layout)
    requires InRange(recs, ids) && Distinct(ids) && u <= |recs| && forall x :: 0 <= x < |recs| ==> (Used(recs[x]) <==> x < u)
    ensures var erased := EraseAll(recs, ids, lay); UsedBelow(erased, |recs|) + Smaller(ids, u) == u
  {
    var erased := EraseAll(recs, ids, lay);
    EraseClears(recs, ids, lay);
    PositionsShared(erased, ids, u, lay);
    forall x | u <= x < |recs| ensures !Used(erased[x]) {
      if x in ids { var j :| 0 <= j < |ids| && ids[j] == x; }
    }
    AllUsedBelow(erased, u, |recs|);
  }

  lemma ErasedIsCompacting(recs: seq<Rec>, ids: seq<nat>, u: nat, lay: Layout)
    requires InRange(recs, ids) && u <= |recs| && forall x :: 0 <= x < |recs| ==> (Used(recs[x]) <==> x < u)
    ensures var erased := EraseAll(recs, ids, lay); Compacting(erased, ids, |recs|)
  {
    EraseClears(recs, ids, lay);
    var erased := EraseAll(recs, ids, lay);
    forall x | x in ids ensures !Used(erased[x]) {
      var m :| 0 <= m < |ids| && ids[m] == x;
    }
  }

  /** On a storage whose first u records are used, eraser -c with distinct identifiers leaves no hole if
      and only if the identifiers come in an order that can be told from u and the identifiers. */
  lemma EraserCompactsExactly(recs: seq<Rec>, ids: seq<nat>, u: nat, lay: Layout)
    requires InRange(recs, ids) && Distinct(ids)
    requires u <= |recs| && forall x :: 0 <= x < |recs| ==> (Used(recs[x]) <==> x < u)
    ensures Smaller(ids, u) <= u
    ensures var erased := EraseAll(recs, ids, lay);
      Contiguous(Compact(erased, ids, |recs|, lay)) <==> FillsInOrder(u - Smaller(ids, u), ids)
  {
    var erased := EraseAll(recs, ids, lay);
    EraseClears(recs, ids, lay);
    Survivors(recs, ids, u, lay);
    ErasedIsCompacting(recs, ids, u, lay);
    hide Compacting, Contiguous, Compact, EraseAll, ReleasesLast, FillsInOrder, UsedBelow;
    CompactExactly(erased, ids, |recs|, lay);
    ReleasesLastByCount(erased, ids, |recs|, lay);
  }

  /** Identifiers in ascending order always meet the condition. */
  lemma AscendingFillsInOrder(n: nat, ids: seq<nat>)
    requires forall i, j :: 0 <= i < j < |ids| ==> ids[i] < ids[j]
    ensures FillsInOrder(n, ids)
  {
    forall j | 0 <= j < |ids| ensures HeadFits(n, ids[j..]) {
      var tail := ids[j..];
      if exists i :: 1 <= i < |tail| && tail[i] < n {
        var i :| 1 <= i < |tail| && tail[i] < n;
        assert tail[0] < tail[i];
      }
    }
  }

  /** Four records, the last and the first erased in that order: a hole is left. */
  lemma DescendingLeavesAHole(lay: Layout)
    ensures var z := lay.Cleared(); var a, b, c, d := z.(rev := 1), z.(rev := 2), z.(rev := 3), z.(rev := 4);
      var erased := EraseAll([a, b, c, d], [3, 0], lay);
      !FillsInOrder(2, [3, 0]) && Compact(erased, [3, 0], 4, lay) == [b, z, c, z]
  {
    var z := lay.Cleared();
    var a, b, c, d := z.(rev := 1), z.(rev := 2), z.(rev := 3), z.(rev := 4);
    assert [3, 0][1..] == [0] && [0][1..] == [];
    assert [a, b, c, d][3 := z] == [a, b, c, z] && [a, b, c, z][0 := z] == [z, b, c, z];
    assert EraseAll([a, b, c, z], [0], lay) == EraseAll([z, b, c, z], [], lay);
    assert EraseAll([a, b, c, d], [3, 0], lay) == [z, b, c, z];
    var e := [z, b, c, z];
    assert PrevUsed(e, 3) == 2 && PrevUsed(e, 4) == 2 && PrevUsed(e, 2) == 1;
    assert Smaller([0], 3) == 1 && [3, 0][0..] == [3, 0] && [3, 0][1] == 0;
    assert !HeadFits(2, [3, 0]);
    assert Move(e, 1, 0, lay) == [b, z, c, z];
    assert Compact(e, [0], 2, lay) == Compact([b, z, c, z], [], 1, lay);
  }

  // ---------------------------------------------------------------- which slots are used in the end

  /** One of the first j turns released the record at x instead of moving it. */
  ghost predicate Released(recs: seq<Rec>, ids: seq<nat>, j: nat, x: nat)
    requires j <= |ids|
  {
    exists m :: 0 <= m < j && Met(recs, ids, m) == x && x <= ids[m]
  }

  /** For any identifiers and any storage: slot x is used after eraser -c, read off the positions alone. */
  ghost predicate UsedAfter(recs: seq<Rec>, ids: seq<nat>, x: nat)
    requires x < |recs|
  {
    Released(recs, ids, |ids|, x) || (x < Limit(recs, ids, |ids|) && (Used(recs[x]) || x in ids))
  }

  lemma {:induction false} LimitsFall(recs: seq<Rec>, ids: seq<nat>, m: nat, j: nat)
    requires m < j <= |ids|
    ensures Limit(recs, ids, j) <= Met(recs, ids, m)
    decreases j
  {
    if m < j - 1 { LimitsFall(recs, ids, m, j - 1); }
  }

  /** From the limit on, exactly the released records are used. */
  ghost predicate Settled(orig: seq<Rec>, cur: seq<Rec>, ids: seq<nat>, j: nat)
    requires j <= |ids| && |cur| == |orig|
  {
    forall x :: 0 <= x < |orig| && Limit(orig, ids, j) <= x ==> (Used(cur[x]) <==> Released(orig, ids, j, x))
  }

  /** The turn of identifier j releases the record at k or not. */
  lemma ReleasedNext(orig: seq<Rec>, ids: seq<nat>, j: nat, x: nat)
    requires j < |ids|
    ensures Released(orig, ids, j + 1, x) <==> Released(orig, ids, j, x) || (x == Met(orig, ids, j) && x <= ids[j])
    ensures x < Limit(orig, ids, j) ==> !Released(orig, ids, j, x)
  {
    if Released(orig, ids, j, x) {
      var m :| 0 <= m < j && Met(orig, ids, m) == x && x <= ids[m];
      LimitsFall(orig, ids, m, j);
    }
  }

  lemma TurnSettles(orig: seq<Rec>, cur: seq<Rec>, ids: seq<nat>, j: nat, lay: Layout)
    requires j < |ids| && Midway(orig, cur, ids, j, lay) && Settled(orig, cur, ids, j) && Met(orig, ids, j) >= 0
    ensures ids[j] < |cur|
    ensures var k := Met(orig, ids, j); Settled(orig, if ids[j] >= k then cur else Move(cur, k, ids[j], lay), ids, j + 1)
  {
    var k := Met(orig, ids, j);
    MidwayMeets(orig, cur, ids, j, lay);
    var next := if ids[j] >= k then cur else Move(cur, k, ids[j], lay);
    forall x | 0 <= x < |orig| && k <= x ensures Used(next[x]) <==> Released(orig, ids, j + 1, x) {
      ReleasedNext(orig, ids, j, x);
    }
  }

  lemma {:induction false} LeavesFrom(orig: seq<Rec>, cur: seq<Rec>, ids: seq<nat>, j: nat, lay: Layout, x: nat)
    requires j <= |ids| && x < |orig| && Midway(orig, cur, ids, j, lay) && Settled(orig, cur, ids, j) && Limit(orig, ids, j) >= 0
    ensures InRange(cur, ids[j..]) && |cur| == |orig|
    ensures Used(Compact(cur, ids[j..], Limit(orig, ids, j), lay)[x]) <==> UsedAfter(orig, ids, x)
    decreases |ids| - j
  {
    MidwaySized(orig, cur, ids, j, lay);
    if j == |ids| {
      assert ids[..j] == ids;
      LastTurn(orig, ids, x);
    } else {
      var k := Met(orig, ids, j);
      TurnOf(orig, cur, ids, j, lay);
      if k < 0 {
        NothingMore(orig, cur, ids, j, lay, x);
      } else {
        TurnSettles(orig, cur, ids, j, lay);
        if ids[j] >= k { MidwayReleases(orig, cur, ids, j, lay); } else { MidwayMoves(orig, cur, ids, j, lay); }
        hide Midway, Settled, Met, Limit, Compact, UsedAfter, Move, InRange;
        LeavesFrom(orig, if ids[j] >= k then cur else Move(cur, k, ids[j], lay), ids, j + 1, lay, x);
      }
    }
  }

  lemma LastTurn(orig: seq<Rec>, ids: seq<nat>, x: nat)
    ensures x < Limit(orig, ids, |ids|) ==> !Released(orig, ids, |ids|, x)
  {
    if Released(orig, ids, |ids|, x) {
      var m :| 0 <= m < |ids| && Met(orig, ids, m) == x && x <= ids[m];
      LimitsFall(orig, ids, m, |ids|);
    }
  }

  /** When no live record is left, the rest of the identifiers changes nothing. */
  lemma NothingMore(orig: seq<Rec>, cur: seq<Rec>, ids: seq<nat>, j: nat, lay: Layout, x: nat)
    requires j < |ids| && x < |orig| && Midway(orig, cur, ids, j, lay) && Settled(orig, cur, ids, j) && Met(orig, ids, j) == -1
    ensures Used(cur[x]) <==> UsedAfter(orig, ids, x)
  {
    NoneLeft(orig, ids, j, |ids| - 1);
    assert Limit(orig, ids, |ids|) == -1;
    NoneReleased(orig, ids, j, x);
    ReleasedNext(orig, ids, j, x);
    hide Released;
  }

  lemma NoneReleased(orig: seq<Rec>, ids: seq<nat>, j: nat, x: nat)
    requires j < |ids| && Met(orig, ids, j) == -1
    ensures Released(orig, ids, |ids|, x) <==> Released(orig, ids, j, x)
  {
    hide Met;
    if Released(orig, ids, |ids|, x) {
      var m :| 0 <= m < |ids| && Met(orig, ids, m) == x && x <= ids[m];
      if j <= m { NoneLeft(orig, ids, j, m); }
    }
  }

  /** For any identifiers, repeated or not, and any storage, with holes or without: exactly which slots are
      used after eraser -c, hence exactly when these are the first ones. */
  lemma EraserLeaves(recs: seq<Rec>, ids: seq<nat>, lay: Layout)
    requires InRange(recs, ids)
    ensures var erased := EraseAll(recs, ids, lay); var r := Compact(erased, ids, |recs|, lay);
      && (forall x :: 0 <= x < |recs| ==> (Used(r[x]) <==> UsedAfter(erased, ids, x)))
      && (Contiguous(r) <==> forall x, y :: 0 <= x < y < |recs| && UsedAfter(erased, ids, y) ==> UsedAfter(erased, ids, x))
  {
    var erased := EraseAll(recs, ids, lay);
    EraseClears(recs, ids, lay);
    assert ids[0..] == ids;
    var r := Compact(erased, ids, |recs|, lay);
    assert Midway(erased, erased, ids, 0, lay) && Settled(erased, erased, ids, 0);
    hide Midway, Settled, Compact, UsedAfter, EraseAll;
    forall x | 0 <= x < |recs| ensures Used(r[x]) <==> UsedAfter(erased, ids, x) {
      LeavesFrom(erased, erased, ids, 0, lay, x);
    }
  }

  // ---------------------------------------------------------------- the program

  class Store {
    const lay: Layout
    const recs: array<Rec>

    ghost predicate Valid()
      reads recs
    {
      forall k :: 0 <= k < recs.Length ==> lay.Fits(recs[k])
    }

    /** No record is locked. */
    ghost predicate Free()
      reads recs
    {
      forall k :: 0 <= k < recs.Length ==> recs[k].rev >= 0
    }

    constructor (lay: Layout, initial: seq<Rec>)
      requires forall k :: 0 <= k < |initial| ==> lay.Fits(initial[k])
      ensures fresh(recs) && recs[..] == initial && this.lay == lay && Valid()
    {
      this.lay := lay;
      recs := new Rec[|initial|](k requires 0 <= k < |initial| => initial[k]);
    }

    /** record_write_lock on a record nobody holds. */
    method Lock(k: nat) returns (rev: int)
      requires k < recs.Length && Valid() && recs[k].rev >= 0
      modifies recs
      ensures Valid() && rev == old(recs[k].rev)
      ensures recs[..] == old(recs[..])[k := old(recs[k]).(rev := FetchOr(rev))]
    {
      rev := recs[k].rev;
      recs[k] := recs[k].(rev := FetchOr(rev));
    }

    /** record_set_revision. */
    method Unlock(k: nat, rev: int)
      requires k < recs.Length && Valid() && IsWord(rev)
      modifies recs
      ensures Valid() && recs[..] == old(recs[..])[k := old(recs[k]).(rev := rev)]
    {
      recs[k] := recs[k].(rev := rev);
    }

    /** storage_clear_record. */
    method Clear(k: nat)
      requires k < recs.Length && Valid()
      modifies recs
      ensures Valid() && recs[..] == old(recs[..])[k := lay.Cleared()]
    {
      recs[k] := lay.Cleared();
    }

    /** storage_find_prev_used: every record looked at is locked; all but the one found are released. */
    method FindPrevUsed(top: nat) returns (found: bool, k: nat, rev: int)
      requires Valid() && Free() && top <= recs.Length
      modifies recs
      ensures Valid() && found == (old(PrevUsed(recs[..], top)) >= 0)
      ensures found ==> k == old(PrevUsed(recs[..], top)) && rev == old(recs[..])[k].rev
      ensures recs[..] == if found then old(recs[..])[k := old(recs[..])[k].(rev := FetchOr(rev))] else old(recs[..])
    {
      ghost var start := recs[..];
      var prior: nat := top;
      while prior > 0
        invariant prior <= top && Valid() && recs[..] == start
        invariant PrevUsed(start, prior) == PrevUsed(start, top)
      {
        prior := prior - 1;
        rev := Lock(prior);
        if rev != 0 {
          return true, prior, rev;
        }
        Unlock(prior, rev);
        assert recs[..] == start;
      }
      return false, 0, 0;
    }

    /** The erase loop. */
    method Erase(ids: seq<nat>)
      requires Valid() && Free() && InRange(recs[..], ids)
      modifies recs
      ensures Valid() && Free() && recs[..] == EraseAll(old(recs[..]), ids, lay)
    {
      ghost var start := recs[..];
      for j := 0 to |ids|
        invariant Valid() && Free()
        invariant EraseAll(recs[..], ids[j..], lay) == EraseAll(start, ids, lay)
      {
        ghost var before := recs[..];
        var rev := Lock(ids[j]);
        Clear(ids[j]);
        assert recs[..] == before[ids[j] := lay.Cleared()];
        assert ids[j..][1..] == ids[j + 1..] && ids[j..][0] == ids[j];
      }
    }

    /** The compaction loop. Every lock taken is released when it ends. */
    method CompactLoop(ids: seq<nat>)
      requires Valid() && Free() && InRange(recs[..], ids)
      modifies recs
      ensures Valid() && Free() && recs[..] == Compact(old(recs[..]), ids, recs.Length, lay)
    {
      ghost var start := recs[..];
      var last: nat := recs.Length;
      for j := 0 to |ids|
        invariant Valid() && Free() && last <= recs.Length
        invariant Compact(recs[..], ids[j..], last, lay) == Compact(start, ids, recs.Length, lay)
      {
        ghost var before := recs[..];
        assert ids[j..][1..] == ids[j + 1..] && ids[j..][0] == ids[j];
        var found, k, lastRev := FindPrevUsed(last);
        if !found {
          return;
        }
        last := k;
        if ids[j] >= k {
          Unlock(k, lastRev);
          assert recs[..] == before;
        } else {
          MoveRecord(k, ids[j], lastRev);
          assert recs[..] == Move(before, k, ids[j], lay);
        }
      }
    }

    /** Lock the hole, copy value, property and timestamp into it, clear the record moved and release
        the hole with the revision of that record. */
    method MoveRecord(from: nat, to: nat, fromRev: int)
      requires Valid() && to < from < recs.Length && recs[to].rev >= 0 && IsWord(fromRev)
      modifies recs
      ensures Valid() && recs[..] == old(recs[..])[to := old(recs[from]).(rev := fromRev)][from := lay.Cleared()]
    {
      var rev := Lock(to);
      recs[to] := recs[to].(val := recs[from].val, prop := recs[from].prop, ts := recs[from].ts);
      Clear(from);
      Unlock(to, fromRev);
    }
  }
}
