/**
 Bitwise operations on natural numbers, defined bit by bit, and the arithmetic
 facts about masks, shifts and single-bit flips that the kernel code relies on.
 */
module Bits {

  /** `1 << k`. */
  function Pow2(k: nat): (p: nat)
    ensures 1 <= p
  {
    if k == 0 then 1 else 2 * Pow2(k - 1)
  }

  function And(a: nat, b: nat): nat {
    if a == 0 || b == 0 then 0
    else (if a % 2 == 1 && b % 2 == 1 then 1 else 0) + 2 * And(a / 2, b / 2)
  }

  function Or(a: nat, b: nat): nat {
    if a == 0 then b
    else if b == 0 then a
    else (if a % 2 == 1 || b % 2 == 1 then 1 else 0) + 2 * Or(a / 2, b / 2)
  }

  function Xor(a: nat, b: nat): nat {
    if a == 0 then b
    else if b == 0 then a
    else (if a % 2 != b % 2 then 1 else 0) + 2 * Xor(a / 2, b / 2)
  }

  const WORD: nat := 0x1_0000_0000_0000_0000

  /** `!x` on a 64-bit `usize`. */
  function Not64(x: nat): nat
    requires x < WORD
  {
    WORD - 1 - x
  }

  // ----- powers of two

  lemma {:induction false} Pow2Add(a: nat, b: nat)
    ensures Pow2(a + b) == Pow2(a) * Pow2(b)
  {
    if a != 0 {
      Pow2Add(a - 1, b);
      assert Pow2(a + b) == 2 * Pow2(a - 1 + b);
      assert 2 * (Pow2(a - 1) * Pow2(b)) == (2 * Pow2(a - 1)) * Pow2(b);
    }
  }

  lemma {:induction false} Pow2Mono(a: nat, b: nat)
    requires a <= b
    ensures Pow2(a) <= Pow2(b)
    ensures a < b ==> 2 * Pow2(a) <= Pow2(b)
  {
    if a < b {
      Pow2Mono(a, b - 1);
    }
  }

  lemma {:induction false} Pow2Is64()
    ensures Pow2(64) == WORD
  {
    assert Pow2(8) == 256;
    Pow2Add(8, 8);
    Pow2Add(16, 16);
    Pow2Add(32, 32);
  }

  // ----- masks

  /** `h << k`, one bit at a time. */
  function Shift(h: nat, k: nat): nat {
    if k == 0 then h else 2 * Shift(h, k - 1)
  }

  lemma {:induction false} ShiftIs(h: nat, k: nat)
    ensures Shift(h, k) == h * Pow2(k)
  {
    if k != 0 {
      ShiftIs(h, k - 1);
      assert h * (2 * Pow2(k - 1)) == 2 * (h * Pow2(k - 1));
    }
  }

  lemma {:induction false} AndShifted(k: nat, h1: nat, l1: nat, h2: nat, l2: nat)
    requires l1 < Pow2(k) && l2 < Pow2(k)
    ensures And(Shift(h1, k) + l1, Shift(h2, k) + l2) == Shift(And(h1, h2), k) + And(l1, l2)
  {
    if k != 0 {
      var a, b := Shift(h1, k) + l1, Shift(h2, k) + l2;
      assert a / 2 == Shift(h1, k - 1) + l1 / 2 && a % 2 == l1 % 2;
      assert b / 2 == Shift(h2, k - 1) + l2 / 2 && b % 2 == l2 % 2;
      AndShifted(k - 1, h1, l1 / 2, h2, l2 / 2);
      AndStep(a, b);
      AndStep(l1, l2);
    }
  }

  /** Splitting both operands at bit k splits the conjunction. */
  lemma {:induction false} AndSplit(k: nat, h1: nat, l1: nat, h2: nat, l2: nat)
    requires l1 < Pow2(k) && l2 < Pow2(k)
    ensures And(h1 * Pow2(k) + l1, h2 * Pow2(k) + l2) == And(h1, h2) * Pow2(k) + And(l1, l2)
  {
    AndShifted(k, h1, l1, h2, l2);
    ShiftIs(h1, k);
    ShiftIs(h2, k);
    ShiftIs(And(h1, h2), k);
  }

  lemma {:induction false} AndStep(a: nat, b: nat)
    ensures And(a, b) == (if a % 2 == 1 && b % 2 == 1 then 1 else 0) + 2 * And(a / 2, b / 2)
  {
  }

  lemma {:induction false} Halve(h: nat, P: nat, l: nat)
    ensures (h * (2 * P) + l) / 2 == h * P + l / 2
    ensures (h * (2 * P) + l) % 2 == l % 2
  {
    assert h * (2 * P) == 2 * (h * P);
  }

  /** A mask of k ones keeps the remainder modulo 2^k. */
  lemma {:induction false} AndOnes(x: nat, k: nat)
    ensures And(x, Pow2(k) - 1) == x % Pow2(k)
  {
    if k == 0 {
    } else {
      AndStep(x, Pow2(k) - 1);
      assert (Pow2(k) - 1) / 2 == Pow2(k - 1) - 1;
      AndOnes(x / 2, k - 1);
      ModStep(x, Pow2(k - 1));
    }
  }

  lemma {:induction false} ModStep(x: nat, P: nat)
    requires P > 0
    ensures x % (2 * P) == x % 2 + 2 * ((x / 2) % P)
  {
    var q, r := (x / 2) / P, (x / 2) % P;
    assert x / 2 == q * P + r;
    assert x == q * (2 * P) + (2 * r + x % 2) by {
      assert q * (2 * P) == 2 * (q * P);
    }
    DivModUnique(x, 2 * P, q, 2 * r + x % 2);
  }

  lemma {:induction false} DivModUnique(x: nat, d: nat, q: nat, r: nat)
    requires d > 0 && x == q * d + r && r < d
    ensures x / d == q && x % d == r
  {
    var q' := x / d;
    assert x == q' * d + x % d;
    MulGap(q, q', d);
    MulGap(q', q, d);
  }

  lemma {:induction false} MulGap(a: nat, b: nat, d: nat)
    requires d > 0
    ensures a < b ==> a * d + d <= b * d
  {
    if a < b {
      MulSum(a, 1, d);
      MulSum(a + 1, b - a - 1, d);
    }
  }

  lemma {:induction false} MulSum(a: nat, b: nat, d: nat)
    ensures (a + b) * d == a * d + b * d
  {
  }

  /** A mask of m ones above k zeros clears the low k bits of an (m+k)-bit number. */
  lemma {:induction false} AndHighOnes(x: nat, h: nat, l: nat, mask: nat, m: nat, k: nat)
    requires h < Pow2(m) && l < Pow2(k) && x == h * Pow2(k) + l
    requires mask == (Pow2(m) - 1) * Pow2(k)
    ensures And(x, mask) == x - l
  {
    AndSplit(k, h, l, Pow2(m) - 1, 0);
    AndOnes(h, m);
    DivModUnique(h, Pow2(m), 0, h);
  }

  lemma {:induction false} DivBound(x: nat, M: nat, P: nat) returns (h: nat, l: nat)
    requires P > 0 && M > 0 && x < M * P
    ensures l == x % P && x == h * P + l && h < M
  {
    h, l := x / P, x % P;
    MulGap(M - 1, h, P);
    assert (M - 1) * P + P == M * P;
  }

  lemma {:induction false} HighOnesMask(m: nat, k: nat)
    requires m + k == 64
    ensures Pow2(m) * Pow2(k) == WORD && Pow2(k) <= WORD
    ensures Not64(Pow2(k) - 1) == (Pow2(m) - 1) * Pow2(k)
  {
    Pow2Is64();
    Pow2Add(m, k);
    Pow2Mono(k, m + k);
  }

  /** Clearing the low k bits of a 64-bit word rounds it down to a multiple of 2^k. */
  lemma {:induction false} ClearLowBits(x: nat, k: nat)
    requires x < WORD && k <= 64
    ensures Pow2(k) <= WORD
    ensures And(x, Not64(Pow2(k) - 1)) == x - x % Pow2(k)
  {
    HighOnesMask(64 - k, k);
    var h, l := DivBound(x, Pow2(64 - k), Pow2(k));
    AndHighOnes(x, h, l, Not64(Pow2(k) - 1), 64 - k, k);
  }

  // ----- single bits

  lemma {:induction false} OrDisjoint(k: nat, h: nat, l: nat)
    requires l < Pow2(k)
    ensures Or(h * Pow2(k), l) == h * Pow2(k) + l
  {
    if k != 0 && h != 0 && l != 0 {
      var P := Pow2(k - 1);
      Halve(h, P, 0);
      assert h * Pow2(k) == h * (2 * P);
      OrDisjoint(k - 1, h, l / 2);
      assert h * Pow2(k) != 0;
    }
  }

  /** Flipping bit k of x, arithmetically. */
  function Flip(x: nat, k: nat): (r: int)
  {
    if x / Pow2(k) % 2 == 0 then x + Pow2(k) else x - Pow2(k)
  }

  lemma {:induction false} XorFlips(x: nat, k: nat)
    ensures Xor(x, Pow2(k)) == Flip(x, k)
  {
    if x == 0 {
      DivModUnique(0, Pow2(k), 0, 0);
    } else if k == 0 {
      assert Xor(x / 2, 0) == x / 2;
    } else {
      XorFlips(x / 2, k - 1);
      XorStep(x, Pow2(k - 1));
      DivDiv(x, Pow2(k - 1));
    }
  }

  lemma {:induction false} XorStep(x: nat, P: nat)
    requires 0 < x && 0 < P
    ensures Xor(x, 2 * P) == x % 2 + 2 * Xor(x / 2, P)
  {
    assert (2 * P) % 2 == 0 && (2 * P) / 2 == P;
  }

  lemma {:induction false} EvenPlus(h: nat, x: nat)
    ensures (2 * h + x) % 2 == x % 2
  {
  }

  lemma {:induction false} DivDiv(x: nat, P: nat)
    requires P > 0
    ensures x / 2 / P == x / (2 * P)
  {
    var q, r := (x / 2) / P, (x / 2) % P;
    assert x / 2 == q * P + r;
    assert x == q * (2 * P) + (2 * r + x % 2) by {
      assert q * (2 * P) == 2 * (q * P);
    }
    DivModUnique(x, 2 * P, q, 2 * r + x % 2);
  }
}
