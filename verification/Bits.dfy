/** Binary digits of natural numbers, as the GETBIT macro reads them. */
module Bits {

  function Pow2(k: nat): (r: nat)
    ensures r > 0
  {
    if k == 0 then 1 else 2 * Pow2(k - 1)
  }

  /** GETBIT(x, k): shift right k times and take the low bit; past the top of x every bit is 0. */
  function Bit(x: nat, k: nat): (r: nat)
    ensures r == 0 || r == 1
    decreases k
  {
    if k == 0 then x % 2 else Bit(x / 2, k - 1)
  }

  /** A number below 2^w has no bit at or above w. */
  lemma {:induction false} HighBitsZero(x: nat, w: nat, k: nat)
    requires x < Pow2(w) && w <= k
    ensures Bit(x, k) == 0
    decreases k
  {
    if k > 0 {
      HighBitsZero(x / 2, if w == 0 then 0 else w - 1, k - 1);
    }
  }

  /** Two different numbers below 2^w differ in some bit below w. */
  lemma {:induction false} DifferInSomeBit(x: nat, y: nat, w: nat) returns (k: nat)
    requires x < Pow2(w) && y < Pow2(w) && x != y
    ensures k < w && Bit(x, k) != Bit(y, k)
  {
    if x % 2 != y % 2 {
      k := 0;
    } else {
      var j := DifferInSomeBit(x / 2, y / 2, w - 1);
      k := j + 1;
    }
  }

  // ---- Bits in common ----

  ghost predicate ShareBit(x: nat, y: nat, k: nat) { Bit(x, k) == 1 && Bit(y, k) == 1 }

  /** Two numbers have a 1 in the same place. */
  ghost predicate ShareSome(x: nat, y: nat) { exists k: nat :: ShareBit(x, y, k) }

  lemma Halved(n: bv8)
    ensures (n >> 1) as nat == n as nat / 2 && (n & 1 != 0 <==> n as nat % 2 == 1)
  {
  }

  lemma AndHalved(n: bv8, c: bv8)
    ensures n & c != 0 <==> (n & 1 != 0 && c & 1 != 0) || (n >> 1) & (c >> 1) != 0
  {
  }

  lemma {:induction false} NoBits(y: nat, k: nat)
    ensures !ShareBit(0, y, k)
    decreases k
  {
    if k > 0 { NoBits(y / 2, k - 1); }
  }

  lemma NoneWithZero(y: nat)
    ensures !ShareSome(0, y)
  {
    forall k: nat ensures !ShareBit(0, y, k) { NoBits(y, k); }
  }

  lemma SharedAbove(x: nat, y: nat)
    ensures ShareSome(x, y) <==> (x % 2 == 1 && y % 2 == 1) || ShareSome(x / 2, y / 2)
  {
    if x % 2 == 1 && y % 2 == 1 { assert ShareBit(x, y, 0); }
    if k: nat :| ShareBit(x / 2, y / 2, k) { assert ShareBit(x, y, k + 1); }
    if k: nat :| ShareBit(x, y, k) {
      if k > 0 { assert ShareBit(x / 2, y / 2, k - 1); }
    }
  }

  /** Bytes have a non-zero conjunction exactly if they share a bit. */
  lemma {:induction false} AndIsShared(n: bv8, c: bv8, w: nat)
    requires n as nat < Pow2(w)
    ensures n & c != 0 <==> ShareSome(n as nat, c as nat)
    decreases w
  {
    if n == 0 {
      NoneWithZero(c as nat);
    } else {
      Halved(n);
      Halved(c);
      AndHalved(n, c);
      AndIsShared(n >> 1, c >> 1, w - 1);
      SharedAbove(n as nat, c as nat);
    }
  }
}
