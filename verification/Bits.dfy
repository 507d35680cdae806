/** Bitwise AND on unbounded naturals, and the masking idioms of the C code: a power-of-two check
    (src/storage.c:306, src/table.c:32), indexing with a mask (src/storage.c:583, src/storage.c:599)
    and rounding up to an alignment (lancaster/xalloc.h:36). */
module Bits {

  function And(x: nat, y: nat): nat {
    if x == 0 || y == 0 then 0
    else 2 * And(x / 2, y / 2) + (if x % 2 == 1 && y % 2 == 1 then 1 else 0)
  }

  lemma AndHalves(x: nat, y: nat)
    ensures And(x, y) == 2 * And(x / 2, y / 2) + (if x % 2 == 1 && y % 2 == 1 then 1 else 0)
  {
  }

  function Pow2(k: nat): nat { if k == 0 then 1 else 2 * Pow2(k - 1) }

  lemma Pow2Positive(k: nat)
    ensures Pow2(k) > 0
  {
  }

  /** Masking with 2^k - 1 is the remainder by 2^k. */
  lemma {:induction false} MaskIsMod(x: nat, k: nat)
    ensures Pow2(k) > 0 && And(x, Pow2(k) - 1) == x % Pow2(k)
  {
    Pow2Positive(k);
    var m := Pow2(k);
    if k > 0 {
      MaskIsMod(x / 2, k - 1);
      var p := Pow2(k - 1);
      hide And, Pow2;
      assert (m - 1) / 2 == p - 1 && (m - 1) % 2 == 1;
      AndHalves(x, m - 1);
      HalvesMod(x, p);
    }
  }

  lemma HalvesMod(x: nat, p: nat)
    requires p > 0
    ensures x % (2 * p) == 2 * ((x / 2) % p) + x % 2
  {
    var q, r := (x / 2) / p, (x / 2) % p;
    assert x / 2 == q * p + r;
    assert x == q * (2 * p) + (2 * r + x % 2);
    ModUnique(x, 2 * p, q, 2 * r + x % 2);
  }

  lemma ModUnique(x: nat, m: nat, q: nat, r: nat)
    requires x == q * m + r && r < m
    ensures x % m == r && x / m == q
  {
    if x / m > q {
      MulMonotone(q + 1, x / m, m);
    } else if x / m < q {
      MulMonotone(x / m + 1, q, m);
    }
  }

  lemma MulMonotone(a: nat, b: nat, m: nat)
    requires a <= b
    ensures a * m <= b * m
  {
  }

  ghost predicate IsPow2(x: nat) { exists k: nat :: Pow2(k) == x }

  /** The test x & (x - 1) == 0 accepts zero and the powers of two and nothing else. */
  lemma {:induction false} Pow2Test(x: nat)
    ensures x == 0 || (And(x, x - 1) == 0 <==> IsPow2(x))
  {
    if x == 0 {
    } else if x % 2 == 1 {
      AndSelf(x / 2);
      if x > 1 {
        assert (x - 1) / 2 == x / 2;
        forall k: nat ensures Pow2(k) != x { OddPow2(k); }
      } else {
        assert Pow2(0) == 1;
      }
    } else {
      Pow2Test(x / 2);
      assert (x - 1) / 2 == x / 2 - 1;
      if IsPow2(x / 2) {
        var k: nat :| Pow2(k) == x / 2;
        assert Pow2(k + 1) == x;
      }
      if IsPow2(x) {
        var k: nat :| Pow2(k) == x;
        assert k > 0 && Pow2(k - 1) == x / 2;
      }
    }
  }

  lemma AndSelf(x: nat)
    ensures And(x, x) == x
  {
  }

  lemma OddPow2(k: nat)
    ensures Pow2(k) % 2 == 1 ==> Pow2(k) == 1
  {
  }
}
