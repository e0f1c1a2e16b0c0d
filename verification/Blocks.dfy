/**
 Aligned power-of-two blocks: `[x, x + 2^k)` with `x` a multiple of `2^k`.
 Two such blocks are nested or disjoint, and flipping bit `k` of an aligned
 start yields the other half of the enclosing block of order `k + 1`.
 */
module Blocks {
  import opened Bits

  predicate Aligned(x: nat, k: nat) {
    x % Pow2(k) == 0
  }

  predicate InBlock(x: int, k: nat, y: int) {
    x <= y < x + Pow2(k)
  }

  function Min(a: int, b: int): int {
    if a < b then a else b
  }

  lemma {:induction false} MultipleOf(x: nat, P: nat) returns (q: nat)
    requires P > 0 && x % P == 0
    ensures x == q * P && q == x / P
  {
    q := x / P;
  }

  lemma {:induction false} IsMultiple(q: nat, P: nat)
    requires P > 0
    ensures (q * P) % P == 0 && q * P / P == q
  {
    DivModUnique(q * P, P, q, 0);
  }

  /** The halves of an aligned block are aligned and flip into each other. */
  lemma {:induction false} Halves(x: nat, k: nat)
    requires Aligned(x, k + 1)
    ensures Aligned(x, k) && Aligned(x + Pow2(k), k)
    ensures Flip(x, k) == x + Pow2(k) && Flip(x + Pow2(k), k) == x
  {
    HalvesOf(x, Pow2(k));
  }

  lemma {:induction false} HalvesOf(x: nat, P: nat)
    requires P > 0 && x % (2 * P) == 0
    ensures x % P == 0 && (x + P) % P == 0 && x / P % 2 == 0 && (x + P) / P % 2 == 1
  {
    var q := MultipleOf(x, 2 * P);
    EvenMultiple(q, P);
    IsMultiple(2 * q, P);
    IsMultiple(2 * q + 1, P);
  }

  lemma {:induction false} EvenMultiple(q: nat, P: nat)
    ensures q * (2 * P) == (2 * q) * P && (2 * q + 1) * P == (2 * q) * P + P
  {
  }

  lemma {:induction false} Parity(x: nat, P: nat)
    requires P > 0 && x % P == 0
    ensures x / P % 2 == 0 ==> x % (2 * P) == 0
    ensures x / P % 2 == 1 ==> x >= P && (x - P) % (2 * P) == 0
  {
    var q := MultipleOf(x, P);
    ParityOf(q, q / 2, P);
  }

  lemma {:induction false} ParityOf(q: nat, h: nat, P: nat)
    requires P > 0 && 2 * h <= q <= 2 * h + 1
    ensures q == 2 * h ==> (q * P) % (2 * P) == 0
    ensures q == 2 * h + 1 ==> q * P >= P && (q * P - P) % (2 * P) == 0
  {
    IsMultiple(h, 2 * P);
    assert q * P == h * (2 * P) + (q - 2 * h) * P;
  }

  /** An aligned block and its buddy are the two halves of one aligned block. */
  lemma {:induction false} Buddies(x: nat, k: nat)
    requires Aligned(x, k)
    ensures var b := Flip(x, k);
            0 <= b && Aligned(b, k) && Flip(b, k) == x &&
            Aligned(Min(x, b), k + 1) && (b == x + Pow2(k) || x == b + Pow2(k))
  {
    Parity(x, Pow2(k));
    if x / Pow2(k) % 2 == 0 {
      Halves(x, k);
    } else {
      Halves(x - Pow2(k), k);
    }
  }

  lemma {:induction false} AlignedDown(x: nat, i: nat, j: nat)
    requires i <= j && Aligned(x, j)
    ensures Aligned(x, i)
    decreases j
  {
    if i < j {
      Halves(x, j - 1);
      AlignedDown(x, i, j - 1);
    }
  }

  lemma {:induction false} SameBlock(x: nat, y: nat, P: nat)
    requires P > 0 && x % P == 0 && y % P == 0
    requires x < y + P && y < x + P
    ensures x == y
  {
    var a := MultipleOf(x, P);
    var b := MultipleOf(y, P);
    MulGap(a, b, P);
    MulGap(b, a, P);
  }

  /** Overlapping aligned blocks: the smaller one lies inside the larger one. */
  lemma {:induction false} Nested(x: nat, i: nat, y: nat, j: nat)
    requires i <= j && Aligned(x, i) && Aligned(y, j)
    requires y < x + Pow2(i) && x < y + Pow2(j)
    ensures y <= x && x + Pow2(i) <= y + Pow2(j)
    decreases j
  {
    if i == j {
      SameBlock(x, y, Pow2(i));
    } else {
      Halves(y, j - 1);
      if x < y + Pow2(j - 1) {
        Nested(x, i, y, j - 1);
      } else {
        Nested(x, i, y + Pow2(j - 1), j - 1);
      }
    }
  }
}
