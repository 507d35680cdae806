/** A record shared by any number of writers and readers through its version lock (record_write_lock,
    record_set_revision and record_read_lock in src/storage.c; the copy loops of src/batch.c and
    src/sender.c). Every access to one cell of the record or to the lock word is a step of its own.

    Cells are the bytes of the value and the timestamp; a copy may visit them in any order. */
module Seqlock {
  import opened SpinLock
  import Bits

  datatype Writer =
    | Idle
    | Holding(rev: int, goal: seq<int>, todo: set<nat>)   // lock held, cells in todo still to be written

  datatype Reader =
    | Waiting
    | Copying(rev: int, got: map<nat, int>, start: nat)
    | Done(rev: int, got: map<nat, int>, start: nat, end: nat)

  datatype Record = Record(
    word: int,
    cells: seq<int>,
    writers: seq<Writer>,
    readers: seq<Reader>,
    base: int,                // bookkeeping: the first revision
    commits: seq<seq<int>>)   // bookkeeping: contents after each commit, the initial contents first

  datatype Step =
    | TryLock(w: nat, goal: seq<int>)   // spin_write_lock: one fetch-and-or
    | WriteCell(w: nat, cell: nat)
    | Commit(w: nat)                     // record_set_revision(rec, NEXT_REV(rev))
    | Release(w: nat)                    // spin_unlock(rev) with nothing written, as the storage scans do
    | TryRead(r: nat)                    // spin_read_lock: one load
    | CopyCell(r: nat, cell: nat)
    | Check(r: nat)                      // re-read the revision: done if unchanged, else start over

  function Below(n: nat): (r: set<nat>)
    ensures forall k: nat :: k in r <==> k < n
  {
    if n == 0 then {} else Below(n - 1) + {n - 1}
  }

  function AllCells(s: Record): set<nat> { Below(|s.cells|) }

  function Last(s: Record): nat requires s.commits != [] { |s.commits| - 1 }

  predicate Enabled(s: Record, step: Step) {
    match step
    case TryLock(w, goal) => w < |s.writers| && s.writers[w].Idle? && |goal| == |s.cells|
    case WriteCell(w, k) => w < |s.writers| && s.writers[w].Holding? && k in s.writers[w].todo && k < |s.cells| == |s.writers[w].goal|
    case Commit(w) => w < |s.writers| && s.writers[w].Holding? && s.writers[w].todo == {}
    case Release(w) => w < |s.writers| && s.writers[w].Holding? && s.writers[w].todo == AllCells(s)
    case TryRead(r) => r < |s.readers| && !s.readers[r].Copying? && s.commits != []
    case CopyCell(r, k) => r < |s.readers| && s.readers[r].Copying? && k < |s.cells|
    case Check(r) => r < |s.readers| && s.readers[r].Copying? && s.readers[r].got.Keys == AllCells(s) && s.commits != []
  }

  function Apply(s: Record, step: Step): Record
    requires Enabled(s, step)
  {
    match step
    case TryLock(w, goal) =>
      if s.word < 0 then s
      else s.(word := FetchOr(s.word), writers := s.writers[w := Holding(s.word, goal, AllCells(s))])
    case WriteCell(w, k) =>
      s.(cells := s.cells[k := s.writers[w].goal[k]],
         writers := s.writers[w := s.writers[w].(todo := s.writers[w].todo - {k})])
    case Commit(w) =>
      s.(word := NextRev(s.writers[w].rev), writers := s.writers[w := Idle], commits := s.commits + [s.writers[w].goal])
    case Release(w) => s.(word := s.writers[w].rev, writers := s.writers[w := Idle])
    case TryRead(r) =>
      s.(readers := s.readers[r := if s.word < 0 then Waiting else Copying(s.word, map[], Last(s))])
    case CopyCell(r, k) =>
      var c := s.readers[r];
      s.(readers := s.readers[r := Copying(c.rev, c.got[k := s.cells[k]], c.start)])
    case Check(r) =>
      var c := s.readers[r];
      s.(readers := s.readers[r := if s.word == c.rev then Done(c.rev, c.got, c.start, Last(s)) else Waiting])
  }

  predicate Init(s: Record) {
    && 0 <= s.base < LIMIT && s.word == s.base && s.commits == [s.cells]
    && (forall w :: 0 <= w < |s.writers| ==> s.writers[w].Idle?)
    && (forall r :: 0 <= r < |s.readers| ==> s.readers[r].Waiting?)
  }

  predicate Run(states: seq<Record>, steps: seq<Step>) {
    && |states| == |steps| + 1 && Init(states[0])
    && forall k :: 0 <= k < |steps| ==> Enabled(states[k], steps[k]) && states[k + 1] == Apply(states[k], steps[k])
  }

  // ---------------------------------------------------------------- invariants

  function RevAt(s: Record, k: nat): int { (s.base + k) % LIMIT }

  ghost predicate MutualExclusion(s: Record) {
    && (forall v, w :: 0 <= v < w < |s.writers| ==> s.writers[v].Idle? || s.writers[w].Idle?)
    && (s.word < 0 <==> exists w :: 0 <= w < |s.writers| && s.writers[w].Holding?)
  }

  ghost predicate WordInv(s: Record) {
    && s.commits != [] && 0 <= s.base < LIMIT
    && (forall k :: 0 <= k < |s.commits| ==> |s.commits[k]| == |s.cells|)
    && s.word == (if s.word < 0 then RevAt(s, Last(s)) - LIMIT else RevAt(s, Last(s)))
  }

  /** Cells hold the last commit, except those that the holder has already overwritten. */
  ghost predicate CellsInv(s: Record)
    requires WordInv(s)
  {
    && (s.word >= 0 ==> s.cells == s.commits[Last(s)])
    && forall w :: 0 <= w < |s.writers| && s.writers[w].Holding? ==>
         && s.writers[w].rev == RevAt(s, Last(s))
         && |s.writers[w].goal| == |s.cells|
         && s.writers[w].todo <= AllCells(s)
         && forall k :: 0 <= k < |s.cells| ==>
              s.cells[k] == if k in s.writers[w].todo then s.commits[Last(s)][k] else s.writers[w].goal[k]
  }

  /** Nobody has begun to overwrite the last commit. */
  ghost predicate Clean(s: Record) {
    forall w :: 0 <= w < |s.writers| && s.writers[w].Holding? ==> s.writers[w].todo == AllCells(s)
  }

  ghost predicate CopyOf(got: map<nat, int>, contents: seq<int>) {
    forall k :: k in got ==> k < |contents| && got[k] == contents[k]
  }

  ghost predicate ReaderInv(s: Record, r: Reader)
    requires WordInv(s)
  {
    match r
    case Waiting => true
    case Copying(rev, got, start) =>
      && start <= Last(s) && rev == RevAt(s, start) && got.Keys <= AllCells(s)
      && (start == Last(s) && Clean(s) ==> CopyOf(got, s.commits[start]))
    case Done(rev, got, start, end) =>
      && start <= end <= Last(s) && rev == RevAt(s, start) == RevAt(s, end) && got.Keys == AllCells(s)
      && (end - start < LIMIT ==> CopyOf(got, s.commits[start]))
  }

  ghost predicate Inv(s: Record) {
    && MutualExclusion(s) && WordInv(s) && CellsInv(s)
    && forall r :: 0 <= r < |s.readers| ==> ReaderInv(s, s.readers[r])
  }

  // ---------------------------------------------------------------- proofs

  /** Revisions repeat only after 2^63 commits. */
  lemma RevisionsDiffer(s: Record, j: nat, k: nat)
    requires 0 <= s.base && j <= k < j + LIMIT && RevAt(s, j) == RevAt(s, k)
    ensures j == k
  {
    var a, b := s.base + j, s.base + k;
    assert a == LIMIT * (a / LIMIT) + a % LIMIT && b == LIMIT * (b / LIMIT) + b % LIMIT;
    assert b - a == LIMIT * (b / LIMIT - a / LIMIT);
  }

  lemma NextRevision(s: Record, k: nat)
    requires 0 <= s.base
    ensures NextRev(RevAt(s, k)) == RevAt(s, k + 1)
  {
    var a := s.base + k;
    var q, r := a / LIMIT, a % LIMIT;
    assert a == q * LIMIT + r;
    if r + 1 < LIMIT {
      Bits.ModUnique(a + 1, LIMIT, q, r + 1);
      Bits.ModUnique(r + 1, LIMIT, 0, r + 1);
    } else {
      Bits.ModUnique(a + 1, LIMIT, q + 1, 0);
    }
  }

  lemma TryLockKeeps(s: Record, w: nat, goal: seq<int>)
    requires Inv(s) && Enabled(s, TryLock(w, goal))
    ensures Inv(Apply(s, TryLock(w, goal)))
  {
    var s' := Apply(s, TryLock(w, goal));
    if s.word >= 0 {
      assert s'.writers[w].Holding?;
      forall r | 0 <= r < |s'.readers| ensures ReaderInv(s', s'.readers[r]) {
        assert ReaderInv(s, s.readers[r]);
        assert Clean(s);
      }
    }
  }

  lemma WriteCellKeeps(s: Record, w: nat, k: nat)
    requires Inv(s) && Enabled(s, WriteCell(w, k))
    ensures Inv(Apply(s, WriteCell(w, k)))
  {
    var s' := Apply(s, WriteCell(w, k));
    assert s'.writers[w].Holding? && s'.writers[w].todo != AllCells(s');
    assert AllCells(s') == AllCells(s);
    assert !Clean(s');
    forall r | 0 <= r < |s'.readers| ensures ReaderInv(s', s'.readers[r]) { assert ReaderInv(s, s.readers[r]); }
  }

  lemma CommitKeeps(s: Record, w: nat)
    requires Inv(s) && Enabled(s, Commit(w))
    ensures Inv(Apply(s, Commit(w)))
  {
    var s' := Apply(s, Commit(w));
    NextRevision(s, Last(s));
    assert s'.commits[Last(s')] == s.writers[w].goal == s'.cells;
    forall r | 0 <= r < |s'.readers| ensures ReaderInv(s', s'.readers[r]) {
      assert ReaderInv(s, s.readers[r]);
      assert AllCells(s') == AllCells(s);
    }
  }

  lemma ReleaseKeeps(s: Record, w: nat)
    requires Inv(s) && Enabled(s, Release(w))
    ensures Inv(Apply(s, Release(w)))
  {
    var s' := Apply(s, Release(w));
    assert s.cells == s.commits[Last(s)];
    assert Clean(s);
    forall r | 0 <= r < |s'.readers| ensures ReaderInv(s', s'.readers[r]) { assert ReaderInv(s, s.readers[r]); }
  }

  /** A reader's step changes only that reader. */
  lemma ReaderReplaced(s: Record, r: nat, x: Reader)
    requires Inv(s) && r < |s.readers| && ReaderInv(s, x)
    ensures Inv(s.(readers := s.readers[r := x]))
  {
    var s' := s.(readers := s.readers[r := x]);
    forall q | 0 <= q < |s'.readers| ensures ReaderInv(s', s'.readers[q]) {
      assert ReaderInv(s, s'.readers[q]);
      assert Clean(s') <==> Clean(s);
    }
  }

  lemma TryReadKeeps(s: Record, r: nat)
    requires Inv(s) && Enabled(s, TryRead(r))
    ensures Inv(Apply(s, TryRead(r)))
  {
    ReaderReplaced(s, r, if s.word < 0 then Waiting else Copying(s.word, map[], Last(s)));
  }

  lemma CopyCellKeeps(s: Record, r: nat, k: nat)
    requires Inv(s) && Enabled(s, CopyCell(r, k))
    ensures Inv(Apply(s, CopyCell(r, k)))
  {
    assert ReaderInv(s, s.readers[r]);
    var c := s.readers[r];
    if Clean(s) { assert s.cells[k] == s.commits[Last(s)][k]; }
    ReaderReplaced(s, r, Copying(c.rev, c.got[k := s.cells[k]], c.start));
  }

  lemma CheckKeeps(s: Record, r: nat)
    requires Inv(s) && Enabled(s, Check(r))
    ensures Inv(Apply(s, Check(r)))
  {
    assert ReaderInv(s, s.readers[r]);
    var c := s.readers[r];
    if s.word == c.rev {
      assert Clean(s);
      if Last(s) - c.start < LIMIT { RevisionsDiffer(s, c.start, Last(s)); }
      ReaderReplaced(s, r, Done(c.rev, c.got, c.start, Last(s)));
    } else {
      ReaderReplaced(s, r, Waiting);
    }
  }

  lemma StepKeeps(s: Record, step: Step)
    requires Inv(s) && Enabled(s, step)
    ensures Inv(Apply(s, step))
  {
    match step
    case TryLock(w, goal) => TryLockKeeps(s, w, goal);
    case WriteCell(w, k) => WriteCellKeeps(s, w, k);
    case Commit(w) => CommitKeeps(s, w);
    case Release(w) => ReleaseKeeps(s, w);
    case TryRead(r) => TryReadKeeps(s, r);
    case CopyCell(r, k) => CopyCellKeeps(s, r, k);
    case Check(r) => CheckKeeps(s, r);
  }

  lemma {:induction false} ReachableInv(states: seq<Record>, steps: seq<Step>, k: nat)
    requires Run(states, steps) && k < |states|
    ensures Inv(states[k])
  {
    if k > 0 {
      ReachableInv(states, steps, k - 1);
      StepKeeps(states[k - 1], steps[k - 1]);
    }
  }

  // ---------------------------------------------------------------- theorems

  /** At most one writer is between a successful write lock and the unlock. */
  lemma OneHolder(states: seq<Record>, steps: seq<Step>, k: nat, v: nat, w: nat)
    requires Run(states, steps) && k < |states| && v < |states[k].writers| && w < |states[k].writers|
    requires states[k].writers[v].Holding? && states[k].writers[w].Holding?
    ensures v == w
  {
    ReachableInv(states, steps, k);
  }

  /** Snapshots: a reader whose revision re-read equal, with fewer than 2^63 commits meanwhile, has
      exactly the contents of one commit, value and timestamp, and the revision of that commit. */
  lemma SnapshotIsOneCommit(states: seq<Record>, steps: seq<Step>, k: nat, r: nat)
    requires Run(states, steps) && k < |states| && r < |states[k].readers| && states[k].readers[r].Done?
    requires states[k].readers[r].end - states[k].readers[r].start < LIMIT
    ensures var s := states[k]; var d := s.readers[r];
      && d.start < |s.commits| && d.rev == RevAt(s, d.start) && |s.commits[d.start]| == |s.cells|
      && d.got.Keys == AllCells(s) && forall j :: 0 <= j < |s.cells| ==> d.got[j] == s.commits[d.start][j]
  {
    ReachableInv(states, steps, k);
    assert ReaderInv(states[k], states[k].readers[r]);
  }

  /** Within 2^63 commits the re-read succeeds exactly when the lock is free and nothing was committed
      since the read lock, so no good copy is refused and no torn one accepted. */
  lemma CheckIsExact(s: Record, r: nat)
    requires Inv(s) && Enabled(s, Check(r)) && Last(s) - s.readers[r].start < LIMIT
    ensures Apply(s, Check(r)).readers[r].Done? <==> s.word >= 0 && s.readers[r].start == Last(s)
  {
    assert ReaderInv(s, s.readers[r]);
    if s.word == s.readers[r].rev { RevisionsDiffer(s, s.readers[r].start, Last(s)); }
  }

  // ---------------------------------------------------------------- progress

  /** The steps can be taken one after the other and lead from s to s'. */
  ghost predicate Reaches(s: Record, steps: seq<Step>, s': Record)
    decreases |steps|
  {
    if steps == [] then s == s' else Enabled(s, steps[0]) && Reaches(Apply(s, steps[0]), steps[1..], s')
  }

  lemma {:induction false} ReachesThen(s: Record, a: seq<Step>, s1: Record, b: seq<Step>, s2: Record)
    requires Reaches(s, a, s1) && Reaches(s1, b, s2)
    ensures Reaches(s, a + b, s2)
    decreases |a|
  {
    hide Apply, Enabled;
    if a == [] {
      assert a + b == b;
    } else {
      assert (a + b)[0] == a[0] && (a + b)[1..] == a[1..] + b;
      ReachesThen(Apply(s, a[0]), a[1..], s1, b, s2);
    }
  }

  lemma ReachesBy(s: Record, step: Step)
    requires Enabled(s, step)
    ensures Reaches(s, [step], Apply(s, step))
  {
    hide Apply, Enabled;
    assert [step][0] == step && [step][1..] == [];
  }

  /** An attempt on a free lock acquires it, with the revision found; one on a held lock changes nothing. */
  lemma TryLockAcquires(s: Record, w: nat, goal: seq<int>)
    requires Inv(s) && Enabled(s, TryLock(w, goal))
    ensures var s' := Apply(s, TryLock(w, goal));
      && (s.word < 0 ==> s' == s)
      && (s.word >= 0 ==>
            && s'.word < 0 && s'.word == s.word - LIMIT && s'.writers == s.writers[w := Holding(s.word, goal, AllCells(s))]
            && s'.cells == s.cells && s'.commits == s.commits && s'.readers == s.readers)
  {
  }

  /** A holder that has written nothing gives the lock back as it was. */
  lemma ReleaseRestores(s: Record, w: nat, goal: seq<int>)
    requires Inv(s) && s.word >= 0 && Enabled(s, TryLock(w, goal))
    ensures var s1 := Apply(s, TryLock(w, goal)); Enabled(s1, Release(w)) && Apply(s1, Release(w)) == s
  {
    var s1 := Apply(s, TryLock(w, goal));
    assert s1.writers[w := Idle] == s.writers;
  }

  /** The holder writes its cells, k of them so far. */
  lemma {:induction false} WriteAll(s: Record, w: nat, k: nat) returns (steps: seq<Step>, s': Record)
    requires w < |s.writers| && s.writers[w].Holding? && |s.writers[w].goal| == |s.cells| && k <= |s.cells|
    requires forall j: nat :: j in s.writers[w].todo <==> k <= j < |s.cells|
    requires forall j :: 0 <= j < k ==> s.cells[j] == s.writers[w].goal[j]
    ensures Reaches(s, steps, s') && s'.cells == s.writers[w].goal && Enabled(s', Commit(w))
    ensures s' == s.(cells := s'.cells, writers := s.writers[w := s.writers[w].(todo := {})])
    decreases |s.cells| - k
  {
    if k == |s.cells| {
      assert s.writers[w].todo == {} && s.cells == s.writers[w].goal;
      assert s.writers[w := s.writers[w].(todo := {})] == s.writers;
      return [], s;
    }
    var step := WriteCell(w, k);
    var s1 := Apply(s, step);
    var rest;
    rest, s' := WriteAll(s1, w, k + 1);
    assert s1.writers[w := s1.writers[w].(todo := {})] == s.writers[w := s.writers[w].(todo := {})];
    ReachesBy(s, step);
    ReachesThen(s, [step], s1, rest, s');
    steps := [step] + rest;
  }

  /** The reader copies the cells, k of them so far. */
  lemma {:induction false} CopyAll(s: Record, r: nat, k: nat) returns (steps: seq<Step>, s': Record)
    requires r < |s.readers| && s.readers[r].Copying? && k <= |s.cells|
    requires forall j: nat :: j in s.readers[r].got <==> j < k
    requires forall j :: 0 <= j < k ==> s.readers[r].got[j] == s.cells[j]
    ensures Reaches(s, steps, s') && s' == s.(readers := s'.readers) && |s'.readers| == |s.readers|
    ensures var c := s'.readers[r];
      && c.Copying? && c.rev == s.readers[r].rev && c.start == s.readers[r].start
      && c.got.Keys == AllCells(s) && forall j :: 0 <= j < |s.cells| ==> c.got[j] == s.cells[j]
    decreases |s.cells| - k
  {
    if k == |s.cells| {
      return [], s;
    }
    var step := CopyCell(r, k);
    var s1 := Apply(s, step);
    var rest;
    rest, s' := CopyAll(s1, r, k + 1);
    ReachesBy(s, step);
    ReachesThen(s, [step], s1, rest, s');
    steps := [step] + rest;
  }

  /** A writer commits: from every state in which the lock is free, an idle writer can lock it, write and
      release it, after which the record holds exactly the new contents under the next revision. */
  lemma WriterCommits(s: Record, w: nat, goal: seq<int>) returns (steps: seq<Step>, s': Record)
    requires Inv(s) && s.word >= 0 && Enabled(s, TryLock(w, goal))
    ensures Reaches(s, steps, s') && Inv(s')
    ensures s' == s.(cells := goal, word := NextRev(s.word), commits := s.commits + [goal])
  {
    var s1 := Apply(s, TryLock(w, goal));
    TryLockAcquires(s, w, goal);
    TryLockKeeps(s, w, goal);
    ReachesBy(s, TryLock(w, goal));
    var writes, s2 := WriteAll(s1, w, 0);
    ReachesThen(s, [TryLock(w, goal)], s1, writes, s2);
    s' := Apply(s2, Commit(w));
    ReachesBy(s2, Commit(w));
    ReachesThen(s, [TryLock(w, goal)] + writes, s2, [Commit(w)], s');
    steps := [TryLock(w, goal)] + writes + [Commit(w)];
    assert s2.writers[w := Idle] == s.writers;
    InvAfterCommit(s, goal);
  }

  lemma InvAfterCommit(s: Record, goal: seq<int>)
    requires Inv(s) && s.word >= 0 && |goal| == |s.cells|
    ensures Inv(s.(cells := goal, word := NextRev(s.word), commits := s.commits + [goal]))
  {
    var s' := s.(cells := goal, word := NextRev(s.word), commits := s.commits + [goal]);
    NextRevision(s, Last(s));
    assert s'.commits[Last(s')] == goal;
    forall r | 0 <= r < |s'.readers| ensures ReaderInv(s', s'.readers[r]) {
      assert ReaderInv(s, s.readers[r]);
    }
  }

  /** A reader reads: from every state in which the lock is free, a reader that is not copying can take a
      copy and finish, and holds exactly the record's contents and revision. */
  lemma ReaderReads(s: Record, r: nat) returns (steps: seq<Step>, s': Record)
    requires Inv(s) && s.word >= 0 && Enabled(s, TryRead(r))
    ensures Reaches(s, steps, s') && s' == s.(readers := s'.readers) && |s'.readers| == |s.readers|
    ensures var d := s'.readers[r];
      && d.Done? && d.rev == s.word && d.got.Keys == AllCells(s)
      && forall j :: 0 <= j < |s.cells| ==> d.got[j] == s.cells[j]
  {
    var s1 := Apply(s, TryRead(r));
    ReachesBy(s, TryRead(r));
    var copies, s2 := CopyAll(s1, r, 0);
    ReachesThen(s, [TryRead(r)], s1, copies, s2);
    s' := Apply(s2, Check(r));
    ReachesBy(s2, Check(r));
    ReachesThen(s, [TryRead(r)] + copies, s2, [Check(r)], s');
    steps := [TryRead(r)] + copies + [Check(r)];
  }

  /** Written and read back: the new contents under the next revision, value and timestamp alike. */
  lemma WrittenIsRead(s: Record, w: nat, goal: seq<int>, r: nat) returns (steps: seq<Step>, s': Record)
    requires Inv(s) && s.word >= 0 && Enabled(s, TryLock(w, goal)) && Enabled(s, TryRead(r))
    ensures Reaches(s, steps, s') && s'.cells == goal && s'.word == NextRev(s.word) && s'.commits == s.commits + [goal]
    ensures |s'.readers| == |s.readers| && s'.readers[r].Done? && s'.readers[r].rev == NextRev(s.word)
    ensures s'.readers[r].got.Keys == AllCells(s') && forall j :: 0 <= j < |goal| ==> s'.readers[r].got[j] == goal[j]
  {
    var a, s1 := WriterCommits(s, w, goal);
    assert s1.word >= 0;
    var b;
    b, s' := ReaderReads(s1, r);
    ReachesThen(s, a, s1, b, s');
    steps := a + b;
  }
}
