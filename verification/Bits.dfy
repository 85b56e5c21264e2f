/** Powers of two, exclusive or and natural alignment, as the allocators compute them
    on page indices. Everything is defined bit by bit, so that proofs stay linear. */
module Bits {

  function Pow2(k: nat): (r: nat)
    ensures r > 0
  {
    if k == 0 then 1 else 2 * Pow2(k - 1)
  }

  /** Bitwise exclusive or of two unsigned numbers. */
  function Xor(a: nat, b: nat): nat {
    if a == 0 && b == 0 then 0
    else 2 * Xor(a / 2, b / 2) + (a % 2 + b % 2) % 2
  }

  /** x with its k low bits cleared: the start of the naturally aligned run of 2^k
      indices that x lies in. */
  function Base(x: nat, k: nat): nat {
    if k == 0 then x else 2 * Base(x / 2, k - 1)
  }

  predicate Aligned(x: nat, k: nat) {
    Base(x, k) == x
  }

  /** Clearing low bits in two stages is clearing them at once. */
  lemma {:induction false} BaseNested(x: nat, j: nat, k: nat)
    requires j <= k
    ensures Base(Base(x, j), k) == Base(x, k)
  {
    if j > 0 {
      BaseNested(x / 2, j - 1, k - 1);
    }
  }

  /** A run of order k+1 is made of a lower and an upper run of order k. */
  lemma {:induction false} BaseStep(x: nat, k: nat)
    ensures Base(x, k + 1) == Base(x, k) || Base(x, k + 1) == Base(x, k) - Pow2(k)
  {
    if k > 0 {
      BaseStep(x / 2, k - 1);
    }
  }

  /** An aligned run holds exactly the indices whose base is its start. */
  lemma {:induction false} InRun(x: nat, h: nat, k: nat)
    requires Aligned(h, k)
    ensures h <= x < h + Pow2(k) <==> Base(x, k) == h
  {
    if k > 0 {
      InRun(x / 2, h / 2, k - 1);
    }
  }

  lemma {:induction false} AlignedDown(x: nat, j: nat, k: nat)
    requires j <= k && Aligned(x, k)
    ensures Aligned(x, j)
  {
    if j > 0 {
      AlignedDown(x / 2, j - 1, k - 1);
    }
  }

  lemma {:induction false} BaseAligned(x: nat, k: nat)
    ensures Aligned(Base(x, k), k)
  {
    BaseNested(x, k, k);
  }

  lemma {:induction false} XorZero(x: nat)
    ensures Xor(x, 0) == x
  {
    if x > 0 {
      XorZero(x / 2);
    }
  }

  /** Flipping bit k of an aligned index moves to its buddy: up by 2^k from the lower half
      of the enclosing run of order k+1, down by 2^k from the upper half. */
  lemma {:induction false} XorIsBuddy(h: nat, k: nat)
    requires Aligned(h, k)
    ensures Xor(h, Pow2(k)) == if Aligned(h, k + 1) then h + Pow2(k) else h - Pow2(k)
    ensures Base(h, k + 1) == if Aligned(h, k + 1) then h else h - Pow2(k)
  {
    if k == 0 {
      XorZero(h / 2);
      assert Xor(h, 1) == 2 * Xor(h / 2, 1 / 2) + (h % 2 + 1 % 2) % 2;
      assert Base(h, 1) == 2 * Base(h / 2, 0);
    } else {
      XorIsBuddy(h / 2, k - 1);
    }
  }

  lemma {:induction false} Pow2Monotone(j: nat, k: nat)
    requires j <= k
    ensures Pow2(j) <= Pow2(k)
  {
    if j < k {
      Pow2Monotone(j, k - 1);
    }
  }

  lemma MultipleSmall(e: int, d: int)
    requires -d < e * d < d
    ensures e == 0
  {
  }

  lemma DivModUnique(x: int, q: int, d: int, r: int)
    requires 0 <= r < d
    requires x == q * d + r
    ensures x / d == q && x % d == r
  {
    var e := x / d - q;
    assert e * d == r - x % d;
    if e != 0 {
      assert -d < e * d < d;
      MultipleSmall(e, d);
    }
  }

  lemma ModHalves(x: nat, d: nat)
    requires d > 0
    ensures x % (2 * d) == 2 * ((x / 2) % d) + x % 2
  {
    var q, r := (x / 2) / d, (x / 2) % d;
    assert x / 2 == q * d + r;
    assert q * (2 * d) == 2 * (q * d);
    DivModUnique(x, q, 2 * d, 2 * r + x % 2);
  }

  lemma {:induction false} BaseIsFloor(x: nat, k: nat)
    ensures Base(x, k) == x - x % Pow2(k)
  {
    if k > 0 {
      BaseIsFloor(x / 2, k - 1);
      ModHalves(x, Pow2(k - 1));
    }
  }

  /** Bitwise or of two unsigned numbers. */
  function Or(a: nat, b: nat): nat {
    if a == 0 && b == 0 then 0
    else 2 * Or(a / 2, b / 2) + (if a % 2 == 1 || b % 2 == 1 then 1 else 0)
  }

  lemma {:induction false} OrZero(x: nat)
    ensures Or(x, 0) == Or(0, x) == x
  {
    if x > 0 {
      OrZero(x / 2);
    }
  }

  /** Or-ing bits into the k zero bits below an aligned number adds them. */
  lemma {:induction false} OrBelow(a: nat, b: nat, k: nat)
    requires Aligned(a, k) && b < Pow2(k)
    ensures Or(a, b) == a + b
  {
    if k == 0 {
      OrZero(a);
    } else {
      OrBelow(a / 2, b / 2, k - 1);
    }
  }

  lemma {:induction false} OrOdd(a: nat)
    requires a % 2 == 1
    ensures Or(a, 1) == a
  {
    OrZero(a / 2);
    assert Or(a, 1) == 2 * Or(a / 2, 1 / 2) + 1;
  }

  lemma {:induction false} MultipleAligned(x: nat, q: nat, k: nat)
    requires x == q * Pow2(k)
    ensures Aligned(x, k)
  {
    if k > 0 {
      var d := Pow2(k - 1);
      assert x == 2 * (q * d) by { assert q * (2 * d) == 2 * (q * d); }
      MultipleAligned(q * d, q, k - 1);
    }
  }

  lemma PowersOfTwo()
    ensures Pow2(4) == 16 && Pow2(8) == 256 && Pow2(12) == 4096
  {
    assert Pow2(4) == 16;
    assert Pow2(8) == 16 * Pow2(4);
    assert Pow2(12) == 16 * Pow2(8);
  }

  /** A page address with flags in its low twelve bits. */
  lemma OrPage(frame: nat, flags: nat)
    requires flags < 4096
    ensures Or(frame * 4096, flags) == frame * 4096 + flags
  {
    PowersOfTwo();
    hide Pow2, Or, Base;
    MultipleAligned(frame * 4096, frame, 12);
    OrBelow(frame * 4096, flags, 12);
  }

  lemma PageFloor(x: nat)
    ensures x - x % 4096 == x / 4096 * 4096
  {
  }

  /** Clearing the low twelve bits of an address leaves the address of its page. */
  lemma ClearLow12(x: nat)
    ensures Base(x, 12) == x / 4096 * 4096
  {
    PowersOfTwo();
    BaseIsFloor(x, 12);
    hide Pow2, Base;
    PageFloor(x);
  }
}
