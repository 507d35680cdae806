/** The lazy Mersenne Twister of src/twist.c against the recurrence that defines MT19937
    ([rand.eng.mers], section 26.5.3.2 of ISO C++11). */
module Twist {
  const N := 624
  const M := 397

  /** The seeding recurrence. */
  function SeedNext(prev: bv32, i: nat): bv32
    requires i < N
  {
    1812433253 * (prev ^ (prev >> 30)) + i as bv32
  }

  /** x[k + 624] from x[k], x[k + 1] and x[k + 397]: the upper bit of the first joined to the lower
      bits of the second, multiplied by the twist matrix and added to the third. */
  function Twisted(upper: bv32, lower: bv32, middle: bv32): bv32 {
    var y := Joined(upper, lower);
    Combined(middle, y, OddPart(y))
  }

  function Combined(middle: bv32, y: bv32, odd: bv32): bv32 { Xor(Xor(middle, Half(y)), odd) }

  function Xor(x: bv32, y: bv32): bv32 { x ^ y }

  function Half(y: bv32): bv32 { y >> 1 }

  function Joined(upper: bv32, lower: bv32): bv32 { (upper & 0x8000_0000) | (lower & 0x7FFF_FFFF) }

  function OddPart(y: bv32): bv32 { if y & 1 == 1 then 0x9908_B0DF else 0 }

  /** The sequence defined by the generator. */
  function X(seed: bv32, k: nat): bv32 {
    if k == 0 then seed
    else if k < N then SeedNext(X(seed, k - 1), k)
    else Twisted(X(seed, k - N), X(seed, k - N + 1), X(seed, k - N + M))
  }

  /** Tempering, in four steps. */
  function Temper(x: bv32): bv32 { Temper4(Temper3(Temper2(Temper1(x)))) }

  function Temper1(x: bv32): bv32 { Xor(x, Added1(x)) }

  function Temper2(x: bv32): bv32 { Xor(x, Added2(x)) }

  function Temper3(x: bv32): bv32 { Xor(x, Added3(x)) }

  function Temper4(x: bv32): bv32 { Xor(x, Added4(x)) }

  // What each step adds to the word.

  function Added1(x: bv32): bv32 { x >> 11 }

  function Added2(x: bv32): bv32 { (x << 7) & 0x9D2C_5680 }

  function Added3(x: bv32): bv32 { (x << 15) & 0xEFC6_0000 }

  function Added4(x: bv32): bv32 { x >> 18 }

  // ---------------------------------------------------------------- what these functions compute

  lemma XorAssociative(x: bv32, y: bv32, z: bv32)
    ensures Xor(Xor(x, y), z) == Xor(x, Xor(y, z))
  {
  }

  lemma XorCommutative(x: bv32, y: bv32)
    ensures Xor(x, y) == Xor(y, x)
  {
  }

  lemma XorShuffle(a: bv32, b: bv32, c: bv32, d: bv32)
    ensures Xor(Xor(a, b), Xor(c, d)) == Xor(Xor(a, c), Xor(b, d))
  {
    hide Xor;
    XorAssociative(a, b, Xor(c, d));
    XorAssociative(b, c, d);
    XorCommutative(b, c);
    XorAssociative(c, b, d);
    XorAssociative(a, c, Xor(b, d));
  }

  lemma AddedLinear1(x: bv32, y: bv32)
    ensures Added1(Xor(x, y)) == Xor(Added1(x), Added1(y))
  {
  }

  lemma AddedLinear2(x: bv32, y: bv32)
    ensures Added2(Xor(x, y)) == Xor(Added2(x), Added2(y))
  {
  }

  lemma AddedLinear3(x: bv32, y: bv32)
    ensures Added3(Xor(x, y)) == Xor(Added3(x), Added3(y))
  {
  }

  lemma AddedLinear4(x: bv32, y: bv32)
    ensures Added4(Xor(x, y)) == Xor(Added4(x), Added4(y))
  {
  }

  lemma Linear1(x: bv32, y: bv32)
    ensures Temper1(Xor(x, y)) == Xor(Temper1(x), Temper1(y))
  {
    hide Added1, Xor;
    AddedLinear1(x, y);
    XorShuffle(x, y, Added1(x), Added1(y));
  }

  lemma Linear2(x: bv32, y: bv32)
    ensures Temper2(Xor(x, y)) == Xor(Temper2(x), Temper2(y))
  {
    hide Added2, Xor;
    AddedLinear2(x, y);
    XorShuffle(x, y, Added2(x), Added2(y));
  }

  lemma Linear3(x: bv32, y: bv32)
    ensures Temper3(Xor(x, y)) == Xor(Temper3(x), Temper3(y))
  {
    hide Added3, Xor;
    AddedLinear3(x, y);
    XorShuffle(x, y, Added3(x), Added3(y));
  }

  lemma Linear4(x: bv32, y: bv32)
    ensures Temper4(Xor(x, y)) == Xor(Temper4(x), Temper4(y))
  {
    hide Added4, Xor;
    AddedLinear4(x, y);
    XorShuffle(x, y, Added4(x), Added4(y));
  }

  /** Tempering is linear over exclusive or .. */
  lemma TemperLinear(x: bv32, y: bv32)
    ensures Temper(x ^ y) == Temper(x) ^ Temper(y)
  {
    hide Temper1, Temper2, Temper3, Temper4;
    assert x ^ y == Xor(x, y) && Temper(x) ^ Temper(y) == Xor(Temper(x), Temper(y));
    hide Xor;
    Linear1(x, y);
    Linear2(Temper1(x), Temper1(y));
    Linear3(Temper2(Temper1(x)), Temper2(Temper1(y)));
    Linear4(Temper3(Temper2(Temper1(x))), Temper3(Temper2(Temper1(y))));
  }

  /** .. so its values on the single bits determine it. */
  lemma TemperOnBits()
    ensures Temper(0x0000_0001) == 0x0040_0091 && Temper(0x0000_0002) == 0x0000_0002 && Temper(0x0000_0004) == 0x0102_0244 && Temper(0x0000_0008) == 0x0204_0489
    ensures Temper(0x0000_0010) == 0x0000_0010 && Temper(0x0000_0020) == 0x0800_1220 && Temper(0x0000_0040) == 0x0000_0040 && Temper(0x0000_0080) == 0x2040_4890
    ensures Temper(0x0000_0100) == 0x0080_0120 && Temper(0x0000_0200) == 0x0100_0240 && Temper(0x0000_0400) == 0x0200_0480 && Temper(0x0000_0800) == 0x0444_0990
    ensures Temper(0x0000_1000) == 0x0808_1200 && Temper(0x0000_2000) == 0x0102_2244 && Temper(0x0000_4000) == 0x2224_4C81 && Temper(0x0000_8000) == 0x4000_9010
    ensures Temper(0x0001_0000) == 0x8801_3220 && Temper(0x0002_0000) == 0x0102_0000 && Temper(0x0004_0000) == 0x2044_4891 && Temper(0x0008_0000) == 0x0488_0022
    ensures Temper(0x0010_0000) == 0x0910_0044 && Temper(0x0020_0000) == 0x1220_0088 && Temper(0x0040_0000) == 0x0444_0911 && Temper(0x0080_0000) == 0x0888_1222
    ensures Temper(0x0100_0000) == 0x8100_0040 && Temper(0x0200_0000) == 0x2220_4888 && Temper(0x0400_0000) == 0x4400_9100 && Temper(0x0800_0000) == 0x8801_2200
    ensures Temper(0x1000_0000) == 0x1102_0440 && Temper(0x2000_0000) == 0x2004_0801 && Temper(0x4000_0000) == 0x4408_1102 && Temper(0x8000_0000) == 0x8810_2204
  {
  }

  /** The upper bit of a word, and its lower bits but the last, moved down by one place. */
  function UpperMoved(x: bv32): bv32 { (x & 0x8000_0000) >> 1 }

  function LowerMoved(x: bv32): bv32 { (x & 0x7FFF_FFFE) >> 1 }

  lemma JoinedMoved(upper: bv32, lower: bv32)
    ensures Half(Joined(upper, lower)) == Xor(UpperMoved(upper), LowerMoved(lower))
  {
  }

  lemma JoinedOdd(upper: bv32, lower: bv32)
    ensures OddPart(Joined(upper, lower)) == if lower & 1 == 1 then 0x9908_B0DF else 0
  {
  }

  /** The twist: the middle word, plus the upper bit of the first and the lower bits of the second moved
      down, plus the matrix row if the second word is odd. */
  lemma TwistedByParts(upper: bv32, lower: bv32, middle: bv32)
    ensures Twisted(upper, lower, middle) ==
      Xor(Xor(middle, Xor(UpperMoved(upper), LowerMoved(lower))), if lower & 1 == 1 then 0x9908_B0DF else 0)
  {
    JoinedMoved(upper, lower);
    JoinedOdd(upper, lower);
    hide Xor, Half, Joined, OddPart, UpperMoved, LowerMoved;
  }

  /** An odd and an even join. */
  lemma TwistedExamples()
    ensures Twisted(0x8000_0000, 3, 0x1234_5678) == 0xCB3C_E6A6
    ensures Twisted(0xDEAD_BEEF, 0x8765_4322, 0x0BAD_F00D) == 0x481F_519C
  {
  }

  /** The second and third words for the default seed. */
  lemma SeedExamples()
    ensures X(5489, 0) == 5489 && X(5489, 1) == 1301868182 && X(5489, 2) == 2938499221
  {
    assert SeedNext(5489, 1) == 1301868182;
    assert SeedNext(1301868182, 2) == 2938499221;
    hide SeedNext, Twisted;
    assert X(5489, 1) == SeedNext(X(5489, 0), 1);
    assert X(5489, 2) == SeedNext(X(5489, 1), 2);
  }

  /** Multiplying by the lowest bit selects, without a branch. */
  method OddTerm(s: bv32) returns (t: bv32)
    ensures t == OddPart(s)
  {
    var bit := s & 1;
    assert bit == 0 || bit == 1;
    t := bit * 0x9908_B0DF;
  }

  /** The word computed in twist_rand. */
  method Mix(upper: bv32, lower: bv32, middle: bv32) returns (w: bv32)
    ensures w == Twisted(upper, lower, middle)
  {
    hide OddPart, Joined, Combined;
    var s := Joined(upper, lower);
    var odd := OddTerm(s);
    w := Combined(middle, s, odd);
  }

  lemma AreAdded(x: bv32)
    ensures Added1(x) == x >> 11 && Added2(x) == (x << 7) & 0x9D2C_5680
    ensures Added3(x) == (x << 15) & 0xEFC6_0000 && Added4(x) == x >> 18
  {
  }

  method Plus(x: bv32, a: bv32) returns (r: bv32)
    ensures r == Xor(x, a)
  {
    r := x ^ a;
  }

  /** The four in-place steps at the end of twist_rand. */
  method TemperInPlace(w: bv32) returns (r: bv32)
    ensures r == Temper(w)
  {
    hide Added1, Added2, Added3, Added4, Xor;
    r := w;
    AreAdded(r);
    var a := r >> 11;
    r := Plus(r, a);
    AreAdded(r);
    a := (r << 7) & 0x9D2C_5680;
    r := Plus(r, a);
    AreAdded(r);
    a := (r << 15) & 0xEFC6_0000;
    r := Plus(r, a);
    AreAdded(r);
    a := r >> 18;
    r := Plus(r, a);
  }

  /** The recurrence that defines the generator. */
  lemma XTwists(seed: bv32, k: nat)
    ensures N == 624 && M == 397
    ensures X(seed, k + 624) == Twisted(X(seed, k), X(seed, k + 1), X(seed, k + 397))
  {
    hide Twisted, SeedNext;
  }

  class Twister {
    var index: nat
    const buffer: array<bv32>
    ghost var seed: bv32
    ghost var calls: nat   // numbers drawn since seeding

    /** The ring holds the words calls .. calls + 623 of the sequence, the oldest at `index`. */
    ghost predicate Valid()
      reads this, buffer
    {
      && buffer.Length == N && index < N && index <= calls
      && (forall j :: index <= j < N ==> buffer[j] == X(seed, calls - index + j))
      && (forall j :: 0 <= j < index ==> buffer[j] == X(seed, calls - index + N + j))
    }

    /** twist_create followed by twist_seed. */
    constructor (seed: bv32)
      ensures Valid() && this.seed == seed && calls == 0 && fresh(buffer)
    {
      buffer := new bv32[N];
      index, calls := 0, 0;
      this.seed := seed;
      new;
      Fill(seed);
    }

    /** The loop of twist_seed. */
    method Fill(seed: bv32)
      requires buffer.Length == N
      modifies buffer
      ensures forall j :: 0 <= j < N ==> buffer[j] == X(seed, j)
    {
      hide SeedNext;
      buffer[0] := seed;
      var i := 1;
      while i < N
        invariant 1 <= i <= N
        invariant forall j :: 0 <= j < i ==> buffer[j] == X(seed, j)
      {
        buffer[i] := SeedNext(buffer[i - 1], i);
        i := i + 1;
      }
    }

    /** twist_seed on a generator in use. */
    method Seed(seed: bv32)
      requires buffer.Length == N
      modifies this, buffer
      ensures Valid() && this.seed == seed && calls == 0
    {
      Fill(seed);
      index, calls, this.seed := 0, 0, seed;
    }

    /** twist_rand: call number n, counting from 0, returns the tempered word n + 624. */
    method Rand() returns (r: bv32)
      requires Valid()
      modifies this, buffer
      ensures Valid() && seed == old(seed) && calls == old(calls) + 1
      ensures r == Temper(X(seed, old(calls) + N))
    {
      hide Twisted, Temper, SeedNext, X;
      var i2, j := index + 1, index + M;
      if i2 >= N {
        i2 := 0;
      }
      if j >= N {
        j := j - N;
      }
      assert buffer[index] == X(seed, calls) && buffer[i2] == X(seed, calls + 1) && buffer[j] == X(seed, calls + M);
      var w := Mix(buffer[index], buffer[i2], buffer[j]);
      XTwists(seed, calls);
      buffer[index] := w;
      index := i2;
      calls := calls + 1;
      r := TemperInPlace(w);
    }
  }

  /** Draw `n` numbers from a fresh seed: exactly the MT19937 output sequence. */
  method Draw(seed: bv32, n: nat) returns (out: seq<bv32>)
    ensures |out| == n && forall k :: 0 <= k < n ==> out[k] == Temper(X(seed, k + N))
  {
    hide Temper, X;
    var t := new Twister(seed);
    out := [];
    while |out| < n
      invariant t.Valid() && t.seed == seed && t.calls == |out| <= n && fresh(t) && fresh(t.buffer)
      invariant forall k :: 0 <= k < |out| ==> out[k] == Temper(X(seed, k + N))
    {
      var r := t.Rand();
      out := out + [r];
    }
  }
}
