/** 64-bit integers in network byte order (htonll and ntohll). */
module Wire {
  type Byte = x: int | 0 <= x < 256

  const LIMIT63: int := 0x8000_0000_0000_0000
  const LIMIT64: int := 0x1_0000_0000_0000_0000

  predicate IsLong(x: int) { -LIMIT63 <= x < LIMIT63 }

  function Digits(k: nat, x: nat): (s: seq<Byte>)
    ensures |s| == k
  {
    if k == 0 then [] else Digits(k - 1, x / 256) + [x % 256]
  }

  function Number(s: seq<Byte>): nat {
    if s == [] then 0 else 256 * Number(s[..|s| - 1]) + s[|s| - 1]
  }

  function Pow256(k: nat): nat { if k == 0 then 1 else 256 * Pow256(k - 1) }

  lemma {:induction false} NumberOfDigits(k: nat, x: nat)
    requires x < Pow256(k)
    ensures Number(Digits(k, x)) == x
  {
    if k > 0 {
      NumberOfDigits(k - 1, x / 256);
      var s := Digits(k, x);
      assert s[..k - 1] == Digits(k - 1, x / 256);
    }
  }

  lemma Pow256At8()
    ensures Pow256(8) == LIMIT64
  {
    assert Pow256(4) == 0x1_0000_0000;
    assert Pow256(8) == 256 * 256 * 256 * 256 * Pow256(4);
  }

  function Put64(x: int): (s: seq<Byte>)
    requires IsLong(x)
    ensures |s| == 8
  {
    Digits(8, if x < 0 then x + LIMIT64 else x)
  }

  function Get64(s: seq<Byte>): int {
    var n := Number(s);
    if n < LIMIT63 then n else n - LIMIT64
  }

  lemma Get64Put64(x: int)
    requires IsLong(x)
    ensures Get64(Put64(x)) == x
  {
    Pow256At8();
    NumberOfDigits(8, if x < 0 then x + LIMIT64 else x);
  }

  /** memcpy into a buffer. */
  method CopyInto(buf: array<Byte>, at: nat, bytes: seq<Byte>)
    requires at + |bytes| <= buf.Length
    modifies buf
    ensures buf[at..at + |bytes|] == bytes && buf[..at] == old(buf[..at])
  {
    for j := 0 to |bytes|
      invariant forall i :: 0 <= i < j ==> buf[at + i] == bytes[i]
      invariant forall i :: 0 <= i < at ==> buf[i] == old(buf[i])
    {
      buf[at + j] := bytes[j];
    }
  }

  /** The bytes accepted in all. */
  function Sum(accepts: seq<nat>): nat {
    if accepts == [] then 0 else Sum(accepts[..|accepts| - 1]) + accepts[|accepts| - 1]
  }

  lemma {:induction false} SumGrows(accepts: seq<nat>, j: nat)
    requires j <= |accepts|
    ensures Sum(accepts[..j]) <= Sum(accepts)
    ensures j < |accepts| ==> Sum(accepts[..j]) + accepts[j] == Sum(accepts[..j + 1]) <= Sum(accepts)
  {
    if j < |accepts| {
      assert accepts[..j + 1][..j] == accepts[..j];
      assert accepts[..|accepts|] == accepts && accepts[..|accepts| - 1][..j] == accepts[..j];
      SumGrows(accepts[..|accepts| - 1], j);
      if j + 1 < |accepts| { SumMore(accepts, j + 1); }
    } else {
      assert accepts[..j] == accepts;
    }
  }

  lemma {:induction false} SumMore(accepts: seq<nat>, j: nat)
    requires j <= |accepts|
    ensures Sum(accepts[..j]) <= Sum(accepts)
    decreases |accepts|
  {
    if j < |accepts| {
      assert accepts[..|accepts| - 1][..j] == accepts[..j];
      SumMore(accepts[..|accepts| - 1], j);
    } else {
      assert accepts[..j] == accepts;
    }
  }

  /** The socket accepts some bytes each time, and no more than there are. */
  predicate Accepting(accepts: seq<nat>, remain: nat) {
    (forall j :: 0 <= j < |accepts| ==> accepts[j] > 0) && Sum(accepts) <= remain
  }
}
