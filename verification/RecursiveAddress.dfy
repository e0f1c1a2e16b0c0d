/**
 Reaching page tables through virtual memory. The kernel never holds the
 physical address of a table: it computes virtual addresses that pass through
 the recursive slot of the root and lets the processor walk them.
 */
module RecursiveAddress {
  import opened Frames
  import opened Wrappers
  import opened Bits
  import opened PageTables
  import opened PageMap
  import opened PageOps

  /** The address of the level-4 table. */
  const LEVEL4_TABLE: nat := 0xFFFF_FFFF_FFFF_F000

  // ----- 64-bit virtual addresses

  /** `va >> k`. */
  function ShiftRight(va: nat, k: nat): nat {
    if k == 0 then va else ShiftRight(va / 2, k - 1)
  }

  function IndexAt(va: nat, shift: nat): nat { And(ShiftRight(va, shift), 511) }

  function Level4Index(va: nat): nat { IndexAt(va, 39) }
  function Level3Index(va: nat): nat { IndexAt(va, 30) }
  function Level2Index(va: nat): nat { IndexAt(va, 21) }
  function Level1Index(va: nat): nat { IndexAt(va, 12) }
  function Offset(va: nat): nat { And(va, 0xFFF) }

  /** Bits 63:47 are all equal. */
  predicate Canonical(va: nat) {
    va < 0x8000_0000_0000 || 0xFFFF_8000_0000_0000 <= va < WORD
  }

  /** The four indices of an address, arithmetically. */
  function IdxOf(va: nat): (p: seq<Slot>)
    ensures |p| == 4
  {
    PageOf(va / FRAME)
  }

  /** Shifts and masks give the base-512 digits of the page number. */
  lemma {:induction false} IndexBits(va: nat)
    ensures IdxOf(va) == [Level4Index(va), Level3Index(va), Level2Index(va), Level1Index(va)]
    ensures Offset(va) == va % FRAME
  {
    var n := va / FRAME;
    IndexShifts(va);
    Mask9(n);
    Mask9(n / 512);
    Mask9(n / 512 / 512);
    Mask9(n / 512 / 512 / 512);
    assert Pow2(12) == FRAME;
    AndOnes(va, 12);
    IndicesFour(n);
  }

  lemma {:induction false} Mask9(x: nat)
    ensures And(x, 511) == x % 512
  {
    assert Pow2(9) == 512;
    AndOnes(x, 9);
  }

  lemma {:induction false} IndicesFour(n: nat)
    ensures Indices(n, 4) == [n / 512 / 512 / 512 % 512, n / 512 / 512 % 512, n / 512 % 512, n % 512]
  {
    var a := n / 512;
    var b := a / 512;
    var c := b / 512;
    assert Indices(c, 1) == [c % 512];
    assert Indices(b, 2) == [c % 512, b % 512];
    assert Indices(a, 3) == [c % 512, b % 512, a % 512];
  }

  lemma {:induction false} IndexShifts(va: nat)
    ensures ShiftRight(va, 12) == va / FRAME
    ensures ShiftRight(va, 21) == va / FRAME / 512
    ensures ShiftRight(va, 30) == va / FRAME / 512 / 512
    ensures ShiftRight(va, 39) == va / FRAME / 512 / 512 / 512
  {
    assert Pow2(12) == FRAME && Pow2(9) == 512;
    ShiftRightIs(va, 12);
    ShiftMore(va, 12);
    ShiftMore(va, 21);
    ShiftMore(va, 30);
  }

  lemma {:induction false} ShiftRightIs(va: nat, k: nat)
    ensures ShiftRight(va, k) == va / Pow2(k)
    decreases k
  {
    if k != 0 {
      ShiftRightIs(va / 2, k - 1);
      DivDiv(va, Pow2(k - 1));
    }
  }

  lemma {:induction false} ShiftMore(va: nat, k: nat)
    ensures ShiftRight(va, k + 9) == ShiftRight(va, k) / 512
  {
    assert Pow2(9) == 512;
    ShiftRightIs(va, k);
    ShiftRightIs(va, k + 9);
    Pow2Add(k, 9);
    DivTwice(va, Pow2(k), 512);
  }

  lemma {:induction false} DivTwice(x: nat, p: nat, q: nat)
    requires p > 0 && q > 0
    ensures x / (p * q) == x / p / q
  {
    var d, r := x / p, x % p;
    var e, s := d / q, d % q;
    Remainder(r, s, p, q);
    Regroup(d, e, q, s, p);
    DivModUnique(x, p * q, e, s * p + r);
  }

  lemma {:induction false} Regroup(d: nat, e: nat, q: nat, s: nat, p: nat)
    requires d == e * q + s
    ensures d * p == e * (p * q) + s * p
  {
    MulSum(e * q, s, p);
    assert e * q * p == e * (p * q);
  }

  lemma {:induction false} Remainder(r: nat, s: nat, p: nat, q: nat)
    requires r < p && s < q
    ensures s * p + r < p * q
  {
    MulGap(s, q, p);
    assert q * p == p * q;
  }

  // ----- the processor

  /** The frame behind a virtual address; None for a fault. */
  function Mmu(s: Sys, va: nat): Option<nat> {
    if Canonical(va) then Lookup(s.mem, s.cr3, IdxOf(va)) else None
  }

  /** The physical byte address. */
  function Translate(s: Sys, va: nat): Option<nat> {
    match Mmu(s, va) case None => None case Some(f) => Some(f * FRAME + va % FRAME)
  }

  /** `next_level_table_address`, where the followed entry is present and not huge:
      `(self << 9) | (index << 12)` on 64 bits. */
  function NextTableAddress(va: nat, i: Slot): nat {
    Or(va * 512 % WORD, i as nat * 4096)
  }

  // ----- addresses of tables

  function Selfs(k: nat): seq<Slot> {
    seq(k, _ => SELF)
  }

  /** The address whose indices are idx, sign-extended from bit 47. */
  function Va(idx: seq<Slot>): nat
    requires |idx| == 4
  {
    NumberOf(idx) * FRAME + if idx[0] < 256 then 0 else 0xFFFF_0000_0000_0000
  }

  /** The address of the table at path p: the recursive slot as often as levels are to be stayed on, then p. */
  function TableVa(p: seq<Slot>): nat
    requires |p| <= 3
  {
    Va(Selfs(4 - |p|) + p)
  }

  lemma {:induction false} NumberBound(idx: seq<Slot>)
    requires |idx| == 4
    ensures idx[0] as nat * 0x800_0000 <= NumberOf(idx) < (idx[0] as nat + 1) * 0x800_0000
  {
  }

  lemma {:induction false} VaCanonical(idx: seq<Slot>)
    requires |idx| == 4
    ensures Canonical(Va(idx)) && IdxOf(Va(idx)) == idx && Va(idx) % FRAME == 0
  {
    NumberBound(idx);
    NumberPage(idx, 0);
    var n := NumberOf(idx);
    if idx[0] >= 256 {
      assert Va(idx) / FRAME == n + 0xF_FFF0_0000_0000;
      HighDigits(n);
    } else {
      assert Va(idx) / FRAME == n;
    }
  }

  /** Bits above the four indices do not matter. */
  lemma {:induction false} HighDigits(n: nat)
    ensures PageOf(n + 0xF_FFF0_0000_0000) == PageOf(n)
  {
    var h := 0xF_FFF0_0000_0000;
    var a := n / 512;
    var b := a / 512;
    var c := b / 512;
    assert (n + h) / 512 == a + 0x7FF_F800_0000 && (n + h) % 512 == n % 512;
    assert (a + 0x7FF_F800_0000) / 512 == b + 0x3_FFFC_0000 && (a + 0x7FF_F800_0000) % 512 == a % 512;
    assert (b + 0x3_FFFC_0000) / 512 == c + 0x1_FFFE00 && (b + 0x3_FFFC_0000) % 512 == b % 512;
    assert (c + 0x1_FFFE00) % 512 == c % 512;
    IndicesFour(n);
    IndicesFour(n + h);
  }

  /** Shifting the address of a table and inserting an index moves down one level. */
  lemma {:induction false} ShiftedAddress(b: Slot, c: Slot, d: Slot, i: Slot)
    requires b >= 256
    ensures NextTableAddress(Va([SELF, b, c, d]), i) == Va([b, c, d, i])
  {
    var low := b as nat * 0x4_0000 + c as nat * 512 + d as nat;
    assert Va([SELF, b, c, d]) == 0xFFFF_FF80_0000_0000 + low * FRAME;
    ShiftNine(low);
    InsertIndex(0x7FF_F800_0000 + low, i);
    assert Va([b, c, d, i]) == 0xFFFF_0000_0000_0000 + low * 0x20_0000 + i as nat * 4096;
  }

  lemma {:induction false} ShiftNine(low: nat)
    requires low < 0x800_0000
    ensures (0xFFFF_FF80_0000_0000 + low * FRAME) * 512 % WORD == (0x7FF_F800_0000 + low) * 0x20_0000
  {
    DivModUnique((0xFFFF_FF80_0000_0000 + low * FRAME) * 512, WORD, 511, (0x7FF_F800_0000 + low) * 0x20_0000);
  }

  lemma {:induction false} InsertIndex(h: nat, i: Slot)
    ensures Or(h * 0x20_0000, i as nat * 4096) == h * 0x20_0000 + i as nat * 4096
  {
    assert Pow2(10) == 1024 && Pow2(11) == 2048;
    Pow2Add(10, 11);
    OrDisjoint(21, h, i as nat * 4096);
  }

  // ----- the walk through the recursive slot

  /** The recursive slot of the active root selects q, whose own recursive slot selects q again. Normally q is
      the root itself; while `with` runs its closure, q is the root of another address space. */
  predicate Window(m: Memory, root: nat, q: nat) {
    Next(m, root, SELF) == Some(q) && Next(m, q, SELF) == Some(q)
  }

  lemma {:induction false} StayOnWindow(m: Memory, f: nat, q: nat, k: nat)
    requires Next(m, f, SELF) == Some(q) && Next(m, q, SELF) == Some(q) && 0 < k
    ensures Follow(m, f, Selfs(k)) == Some(q)
    decreases k
  {
    assert Selfs(k)[0] == SELF && Selfs(k)[1..] == Selfs(k - 1);
    if k == 1 {
      assert Selfs(0) == [];
    } else {
      StayOnWindow(m, q, q, k - 1);
    }
  }

  /** Walking to a table or looking up the page of the same indices comes to the same frame. */
  lemma {:induction false} LookupIsFollow(m: Memory, f: nat, p: seq<Slot>)
    requires 1 <= |p| <= 4 && Follow(m, f, p).Some?
    ensures Lookup(m, f, p) == Follow(m, f, p)
    decreases p
  {
    if |p| > 1 {
      LookupIsFollow(m, Next(m, f, p[0]).value, p[1..]);
    } else {
      assert p[1..] == [];
    }
  }

  /** The address the kernel computes for the table at p resolves to exactly that table. */
  lemma {:induction false} TableAddressResolves(s: Sys, q: nat, p: seq<Slot>)
    requires Window(s.mem, s.cr3, q) && |p| <= 3 && Follow(s.mem, q, p).Some?
    ensures Mmu(s, TableVa(p)) == Follow(s.mem, q, p)
  {
    var k := 4 - |p|;
    VaCanonical(Selfs(k) + p);
    StayOnWindow(s.mem, s.cr3, q, k);
    FollowAppend(s.mem, s.cr3, Selfs(k), p);
    LookupIsFollow(s.mem, s.cr3, Selfs(k) + p);
  }

  lemma {:induction false} RootAddress(root: seq<Slot>)
    requires root == []
    ensures TableVa(root) == LEVEL4_TABLE
  {
    var idx: seq<Slot> := [SELF, SELF, SELF, SELF];
    assert TableVa(root) == Va(idx) by {
      assert Selfs(4 - |root|) + root == idx;
      assert TableVa(root) == Va(Selfs(4 - |root|) + root);
    }
    HighestPage(idx);
  }

  lemma {:induction false} HighestPage(idx: seq<Slot>)
    requires idx == [SELF, SELF, SELF, SELF]
    ensures Va(idx) == LEVEL4_TABLE
  {
    assert NumberOf(idx) == 0xF_FFFF_FFFF;
  }

  /** `(self << 9) | (index << 12)` turns the address of the table at p into that of the table at p + [i]. */
  lemma {:induction false} NextAddressIs(p: seq<Slot>, i: Slot)
    requires |p| <= 2
    ensures NextTableAddress(TableVa(p), i) == TableVa(p + [i])
  {
    var a := Selfs(4 - |p|) + p;
    assert a[0] == SELF && a[1] == SELF;
    assert a == [SELF, SELF, a[2], a[3]];
    ShiftedAddress(SELF, a[2], a[3], i);
    assert Selfs(4 - |p + [i]|) + (p + [i]) == [SELF, a[2], a[3], i];
  }

  /** Recursive addressing, in one statement: at every level the address the code computes for the next table is
      canonical, and the processor resolves it to the very frame stored in the followed entry. */
  lemma {:induction false} RecursiveWalk(s: Sys, q: nat, p: seq<Slot>, i: Slot)
    requires Window(s.mem, s.cr3, q) && |p| <= 2 && Follow(s.mem, q, p).Some?
    requires Next(s.mem, Follow(s.mem, q, p).value, i).Some?
    ensures var va := NextTableAddress(TableVa(p), i);
            Canonical(va) && va % FRAME == 0 && Mmu(s, va) == Next(s.mem, Follow(s.mem, q, p).value, i)
  {
    NextAddressIs(p, i);
    VaCanonical(Selfs(4 - |p + [i]|) + (p + [i]));
    FollowOne(s.mem, q, p, i);
    TableAddressResolves(s, q, p + [i]);
  }
}
