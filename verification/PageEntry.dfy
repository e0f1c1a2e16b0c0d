/**
 Page entries as 64-bit words, with the bit operations the kernel applies to
 them, and what these come to arithmetically.
 */
module PageEntry {
  import opened Frames
  import opened Wrappers
  import opened Bits
  import opened PageTables

  const PRESENT: nat := 0x1
  const WRITABLE: nat := 0x2
  const HUGE_PAGE: nat := 0x80
  const NO_EXECUTE: nat := 0x8000_0000_0000_0000
  const ALL_FLAGS: nat := NO_EXECUTE + 0x1FF

  function Flags(e: nat): nat {
    And(e, ALL_FLAGS)
  }

  predicate Contains(flags: nat, f: nat) {
    And(flags, f) == f
  }

  function SetFlags(e: nat, f: nat): nat {
    Or(e, Or(Flags(e), f))
  }

  function SetFrameAddr(e: nat, addr: nat): nat {
    SetFlags(addr, Or(Flags(e), PRESENT))
  }

  function GetFrameAddr(e: nat): Option<nat> {
    if Contains(Flags(e), PRESENT) then Some(And(e, Not64(0xFFF))) else None
  }

  // ----- single bits

  lemma {:induction false} OneBit(a: nat, b: nat)
    ensures And(a, b) % 2 == 1 <==> a % 2 == 1 && b % 2 == 1
    ensures And(a, b) / 2 == And(a / 2, b / 2)
  {
    AndStep(a, b);
  }

  lemma {:induction false} BitOfAnd(a: nat, b: nat, k: nat)
    ensures And(a, b) / Pow2(k) % 2 == 1 <==> a / Pow2(k) % 2 == 1 && b / Pow2(k) % 2 == 1
  {
    OneBit(a, b);
    if k == 0 {
      DivOne(And(a, b));
      DivOne(a);
      DivOne(b);
    } else {
      BitOfAnd(a / 2, b / 2, k - 1);
      DivDiv(a, Pow2(k - 1));
      DivDiv(b, Pow2(k - 1));
      DivDiv(And(a, b), Pow2(k - 1));
    }
  }

  lemma {:induction false} DivOne(x: nat)
    ensures x / Pow2(0) == x
  {
  }

  lemma {:induction false} AndZero(a: nat)
    ensures And(a, 0) == 0
  {
  }

  /** Masking with a single bit. */
  lemma {:induction false} AndBit(a: nat, k: nat)
    ensures And(a, Pow2(k)) == if a / Pow2(k) % 2 == 1 then Pow2(k) else 0
  {
    AndStep(a, Pow2(k));
    if k == 0 {
      DivOne(a);
      AndZero(a / 2);
    } else {
      AndBit(a / 2, k - 1);
      DivDiv(a, Pow2(k - 1));
    }
  }

  lemma {:induction false} FlagMaskBits()
    ensures ALL_FLAGS / Pow2(0) % 2 == 1 && ALL_FLAGS / Pow2(7) % 2 == 1
    ensures Pow2(0) == PRESENT && Pow2(7) == HUGE_PAGE
  {
    assert Pow2(7) == 128;
  }

  /** `flags().contains(PRESENT)` and `flags().contains(HUGE_PAGE)` read bits 0 and 7. */
  lemma {:induction false} FlagTests(e: nat)
    ensures Contains(Flags(e), PRESENT) <==> IsPresent(e)
    ensures Contains(Flags(e), HUGE_PAGE) <==> IsHuge(e)
  {
    FlagMaskBits();
    BitOfAnd(e, ALL_FLAGS, 0);
    BitOfAnd(e, ALL_FLAGS, 7);
    AndBit(Flags(e), 0);
    AndBit(Flags(e), 7);
    DivOne(e);
  }

  // ----- whole words

  lemma {:induction false} AndAbove(h: nat, k: nat, x: nat)
    requires h < Pow2(k)
    ensures And(h, x * Pow2(k)) == 0
  {
    AndSplit(k, 0, h, x, 0);
    AndZero(h);
  }

  /** Words below 2^63 have no flags but their low nine bits. */
  lemma {:induction false} LowFlagsOnly(e: nat)
    requires e < NO_EXECUTE
    ensures Flags(e) == e % 512
  {
    FlagMask();
    MaskLowAndHigh(e, e / 512, e % 512, ALL_FLAGS, 9, 54);
  }

  /** A mask of k low ones and one bit at m + k keeps the low k bits of a word below that bit. */
  lemma {:induction false} MaskLowAndHigh(e: nat, h: nat, l: nat, mask: nat, k: nat, m: nat)
    requires e == h * Pow2(k) + l && l < Pow2(k) && h < Pow2(m)
    requires mask == Pow2(m) * Pow2(k) + (Pow2(k) - 1)
    ensures And(e, mask) == l
  {
    AndSplit(k, h, l, Pow2(m), Pow2(k) - 1);
    AndAbove(h, m, 1);
    AndOnes(l, k);
    DivModUnique(l, Pow2(k), 0, l);
  }

  lemma {:induction false} FlagMask()
    ensures Pow2(9) == 512 && Pow2(54) == 0x40_0000_0000_0000
    ensures ALL_FLAGS == Pow2(54) * Pow2(9) + 511
  {
    Pow2At54();
  }

  lemma {:induction false} Pow2At54()
    ensures Pow2(54) == 0x40_0000_0000_0000
  {
    assert Pow2(6) == 64 && Pow2(12) == 4096;
    Pow2Add(6, 12);
    Pow2Add(18, 18);
    Pow2Add(36, 18);
  }

  /** `set_frame_addr` with an address below 2^48 on a word without NO_EXECUTE: the address, the old flags, PRESENT. */
  lemma {:induction false} SetFrameAddrIs(e: nat, f: nat)
    requires e < NO_EXECUTE && f < MAX_FRAME
    ensures SetFrameAddr(e, f * FRAME) == Link(e, f)
  {
    var b := e % 512;
    LowFlagsOnly(e);
    LowFlagsOnly(f * FRAME);
    assert f * FRAME % 512 == 0 by {
      assert f * FRAME == 512 * (8 * f);
    }
    var y := Or(b, PRESENT);
    OrOne(b);
    assert Or(0, y) == y;
    assert Pow2(12) == FRAME;
    OrDisjoint(12, f, y);
  }

  lemma {:induction false} OrOne(b: nat)
    ensures Or(b, 1) == b + (if b % 2 == 1 then 0 else 1)
  {
    if b != 0 {
      assert Or(b / 2, 0) == b / 2;
    }
  }

  lemma {:induction false} OrSelf(b: nat)
    ensures Or(b, b) == b
    decreases b
  {
    if b != 0 {
      OrSelf(b / 2);
    }
  }

  lemma {:induction false} OrStep(a: nat, b: nat)
    ensures Or(a, b) == (if a % 2 == 1 || b % 2 == 1 then 1 else 0) + 2 * Or(a / 2, b / 2)
  {
  }

  lemma {:induction false} OrTwo(b: nat)
    ensures Or(b, 2) == Writable(b) && Or(b, Writable(b)) == Writable(b)
  {
    OrStep(b, 2);
    OrOne(b / 2);
    var c := Writable(b);
    OrStep(b, c);
    if b / 2 % 2 == 1 {
      OrSelf(b);
    } else {
      assert c / 2 == b / 2 + 1 && c % 2 == b % 2;
      OrStep(b / 2, b / 2 + 1);
      OrSelf(b / 4);
      assert (b / 2 + 1) / 2 == b / 4;
    }
  }

  lemma {:induction false} OrShifted(k: nat, h1: nat, l1: nat, h2: nat, l2: nat)
    requires l1 < Pow2(k) && l2 < Pow2(k)
    ensures Or(Shift(h1, k) + l1, Shift(h2, k) + l2) == Shift(Or(h1, h2), k) + Or(l1, l2)
  {
    if k != 0 {
      var a, b := Shift(h1, k) + l1, Shift(h2, k) + l2;
      assert a / 2 == Shift(h1, k - 1) + l1 / 2 && a % 2 == l1 % 2;
      assert b / 2 == Shift(h2, k - 1) + l2 / 2 && b % 2 == l2 % 2;
      OrShifted(k - 1, h1, l1 / 2, h2, l2 / 2);
      OrStep(a, b);
      OrStep(l1, l2);
    }
  }

  /** `set_flags(WRITABLE)` on a word without NO_EXECUTE. */
  lemma {:induction false} SetWritableIs(e: nat)
    requires e < NO_EXECUTE
    ensures SetFlags(e, WRITABLE) == Writable(e)
  {
    var h, b := e / 512, e % 512;
    LowFlagsOnly(e);
    OrTwo(b);
    OrLow(h, b);
    SecondOfNine(h, b);
  }

  lemma {:induction false} OrLow(h: nat, b: nat)
    requires b < 512
    ensures Writable(b) < 512 && Or(h * 512 + b, Writable(b)) == h * 512 + Writable(b)
  {
    assert Pow2(9) == 512;
    OrShifted(9, h, b, 0, Writable(b));
    ShiftIs(h, 9);
    ShiftIs(0, 9);
    OrTwo(b);
    assert Or(h, 0) == h;
  }

  lemma {:induction false} SecondOfNine(h: nat, b: nat)
    requires b < 512
    ensures Writable(h * 512 + b) == h * 512 + Writable(b)
  {
    assert (h * 512 + b) / 2 == 256 * h + b / 2;
    EvenPlus(128 * h, b / 2);
  }

  /** `get_frame_addr` of a well-formed word is the address of its frame. */
  lemma {:induction false} GetFrameAddrIs(w: nat)
    requires WordOk(w)
    ensures GetFrameAddr(w) == if IsPresent(w) then Some(FrameOf(w) * FRAME) else None
  {
    FlagTests(w);
    ClearPageBits(w);
    FrameBits(w);
  }

  lemma {:induction false} FrameBits(w: nat)
    requires w < MAX_FRAME * FRAME
    ensures FrameOf(w) * FRAME == w - w % FRAME
  {
    assert w / FRAME < MAX_FRAME;
    assert w == w / FRAME * FRAME + w % FRAME;
  }

  lemma {:induction false} ClearPageBits(w: nat)
    requires w < WORD
    ensures And(w, Not64(0xFFF)) == w - w % FRAME
  {
    assert Pow2(12) == FRAME;
    ClearLowBits(w, 12);
  }
}
