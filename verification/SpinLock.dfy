/** The version lock word (src/spin.c, lancaster/spin.h, NEXT_REV in lancaster/storage.h): the sign bit
    says locked, the other 63 bits are the revision. */
module SpinLock {
  const LIMIT: int := 0x8000_0000_0000_0000

  const MAX_SPINS := 10000
  const MAX_SLEEPS := 1000   // MAX_WAIT_USEC / SLEEP_USEC

  predicate IsWord(w: int) { -LIMIT <= w < LIMIT }

  /** The word after SYNC_FETCH_AND_OR(lock, SPIN_MASK), in two's complement. */
  function FetchOr(w: int): int { if w < 0 then w else w - LIMIT }

  function NextRev(rev: int): int { (rev + 1) % LIMIT }

  /** A failed attempt leaves the word alone; a successful one hides the revision, and releasing with
      NEXT_REV publishes the successor, which is larger by one until it wraps to zero. */
  lemma LockWord(w: int)
    requires IsWord(w)
    ensures FetchOr(w) < 0 && IsWord(FetchOr(w)) && FetchOr(FetchOr(w)) == FetchOr(w)
    ensures w < 0 ==> FetchOr(w) == w
    ensures w >= 0 ==> FetchOr(w) + LIMIT == w
    ensures w >= 0 ==> IsWord(NextRev(w)) && NextRev(w) == if w == 0x7FFF_FFFF_FFFF_FFFF then 0 else w + 1
  {
    if 0 <= w < LIMIT - 1 {
      assert (w + 1) % LIMIT == w + 1;
    }
  }

  datatype LockResult = Acquired(rev: int) | DeadlockDetected | SleepFailed

  /** Every attempt before number k found the lock held. */
  predicate AllHeld(observed: seq<int>, k: nat)
    requires k <= |observed|
  {
    forall j :: 0 <= j < k ==> observed[j] < 0
  }

  /** The retry loop shared by spin_read_lock and spin_write_lock. observed[j] is the word that test
      number j yields while other threads run (the loaded word, or the one fetch-and-or returns), and
      sleepOk[n] whether sleep number n succeeds. It succeeds at the first test that finds the lock free
      and gives up at the first sleep that fails or after exactly 11,001 failed tests. */
  method SpinUntilFree(observed: seq<int>, sleepOk: seq<bool>) returns (r: LockResult, tests: nat)
    requires |observed| > MAX_SPINS + MAX_SLEEPS && |sleepOk| == MAX_SLEEPS
    ensures 1 <= tests <= MAX_SPINS + MAX_SLEEPS + 1
    ensures forall n :: 0 <= n < tests - MAX_SPINS - 1 ==> sleepOk[n]
    ensures r.Acquired? ==> AllHeld(observed, tests - 1) && observed[tests - 1] == r.rev >= 0
    ensures !r.Acquired? ==> AllHeld(observed, tests)
    ensures r.DeadlockDetected? ==> tests == MAX_SPINS + MAX_SLEEPS + 1 == 11_001
    ensures r.SleepFailed? ==> 10_000 == MAX_SPINS < tests <= 11_000 && !sleepOk[tests - MAX_SPINS - 1]
  {
    var spins, sleeps := 0, 0;
    tests := 0;
    while true
      invariant tests == spins == (if sleeps > 0 then MAX_SPINS + sleeps else spins) <= MAX_SPINS + sleeps
      invariant 0 <= sleeps <= MAX_SLEEPS && AllHeld(observed, tests)
      invariant forall n :: 0 <= n < sleeps ==> sleepOk[n]
      decreases MAX_SPINS + MAX_SLEEPS + 1 - tests
    {
      var word := observed[tests];
      tests := tests + 1;
      if word >= 0 {
        return Acquired(word), tests;
      }
      spins := spins + 1;
      if spins > MAX_SPINS {
        sleeps := sleeps + 1;
        if sleeps > MAX_SLEEPS {
          return DeadlockDetected, tests;
        }
        if !sleepOk[sleeps - 1] {
          return SleepFailed, tests;
        }
      }
    }
  }
}
