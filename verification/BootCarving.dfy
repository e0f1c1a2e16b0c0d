/**
 Boot-time carving: the frame records and the frames they describe come out of
 one region of memory.
 */
module BootCarving {
  import opened Frames
  import opened Bits
  import opened Blocks

  /** `align_up`: `(x + mask) & !mask` with `mask = alignment - 1`. */
  function AlignUp(x: nat, alignment: nat): nat
    requires 0 < alignment <= WORD && x + (alignment - 1) < WORD
  {
    And(x + (alignment - 1), Not64(alignment - 1))
  }

  /** `align_down`: `x & !mask`. */
  function AlignDown(x: nat, alignment: nat): nat
    requires 0 < alignment <= WORD && x < WORD
  {
    And(x, Not64(alignment - 1))
  }

  /** x rounded up to a multiple of d. */
  function CeilTo(x: nat, d: nat): nat
    requires 0 < d
  {
    if x % d == 0 then x else x - x % d + d
  }

  /** For every power of two the mask computes the least multiple that is not smaller; alignment 1 changes nothing. */
  lemma {:induction false} AlignUpIsCeiling(x: nat, k: nat)
    requires k <= 64 && Pow2(k) <= WORD && x + (Pow2(k) - 1) < WORD
    ensures AlignUp(x, Pow2(k)) == CeilTo(x, Pow2(k))
    ensures AlignUp(x, Pow2(k)) % Pow2(k) == 0 && x <= AlignUp(x, Pow2(k)) < x + Pow2(k)
  {
    var P := Pow2(k);
    ClearLowBits(x + (P - 1), k);
    CeilByMod(x, P);
  }

  lemma {:induction false} CeilByMod(x: nat, P: nat)
    requires P > 0
    ensures var y := x + (P - 1); y - y % P == CeilTo(x, P)
    ensures CeilTo(x, P) % P == 0 && x <= CeilTo(x, P) < x + P
  {
    var q, r := x / P, x % P;
    assert x == q * P + r;
    if r == 0 {
      DivModUnique(x + (P - 1), P, q, P - 1);
    } else {
      assert (q + 1) * P == q * P + P;
      DivModUnique(x + (P - 1), P, q + 1, r - 1);
      IsMultiple(q + 1, P);
    }
  }

  lemma {:induction false} AlignDownIsFloor(x: nat, k: nat)
    requires k <= 64 && Pow2(k) <= WORD && x < WORD
    ensures AlignDown(x, Pow2(k)) == x - x % Pow2(k)
  {
    ClearLowBits(x, k);
  }

  /** A multiple of P that is at most a multiple of P stays at most that after rounding up. */
  lemma {:induction false} CeilBelow(x: nat, y: nat, P: nat)
    requires P > 0 && x <= y && y % P == 0
    ensures CeilTo(x, P) <= y
  {
    if x % P != 0 {
      var q, b := x / P, y / P;
      assert x == q * P + x % P && y == b * P;
      MulGap(q, b, P);
      MulGap(b, q, P);
    }
  }

  class EarlyAllocator {
    var addrBegin: nat
    const addrEnd: nat

    ghost predicate Valid()
      reads this
    {
      addrBegin <= addrEnd < WORD - FRAME
    }

    constructor (addrBegin: nat, addrEnd: nat)
      requires addrBegin < addrEnd < WORD - FRAME
      ensures Valid() && this.addrBegin == addrBegin && this.addrEnd == addrEnd
    {
      this.addrBegin, this.addrEnd := addrBegin, addrEnd;
    }

    function Capacity(): nat
      requires Valid()
      reads this
    {
      addrEnd - addrBegin
    }

    method AlignAddrBegin(k: nat)
      requires Valid() && k <= 12 && CeilTo(addrBegin, Pow2(k)) <= addrEnd
      modifies this
      ensures Valid() && addrBegin == CeilTo(old(addrBegin), Pow2(k))
    {
      PageBound(k);
      AlignUpIsCeiling(addrBegin, k);
      addrBegin := AlignUp(addrBegin, Pow2(k));
    }

    /** Room for `count` objects of `size` bytes aligned to `2^k`. */
    method Allocate(size: nat, k: nat, count: nat) returns (addr: nat)
      requires Valid() && k <= 12 && CeilTo(addrBegin, Pow2(k)) + size * count <= addrEnd
      modifies this
      ensures Valid() && addr == CeilTo(old(addrBegin), Pow2(k)) && addrBegin == addr + size * count
    {
      AlignAddrBegin(k);
      addr := addrBegin;
      addrBegin := addrBegin + size * count;
    }

    /** `allocate_frames` for records of `size` bytes aligned to `2^k`: where the records are, how many, and whether
        the assertion at its end holds, that the region still has room for the frames they describe. */
    method AllocateFrames(size: nat, k: nat) returns (frames: nat, count: nat, ok: bool)
      requires Valid() && k <= 12 && size <= FRAME && CeilTo(addrBegin, FRAME) <= addrEnd
      modifies this
      ensures Valid()
      ensures frames == CeilTo(old(addrBegin), FRAME) && count == SecondPass(addrEnd - frames, size)
      ensures FitsBeside(addrEnd - frames, (addrEnd - frames) / FRAME, size, count)
      ensures addrBegin == CeilTo(frames + count * size, FRAME) && ok == (count <= (addrEnd - addrBegin) / FRAME)
      ensures ok <==> Carves(addrEnd - frames, size)
      ensures addrEnd % FRAME == 0 ==> ok
    {
      assert Pow2(12) == FRAME;
      AlignAddrBegin(12);
      frames := addrBegin;
      count := CountFrames(size);
      CountDone(frames, addrEnd, size, count);
      AlreadyAligned(frames, k);
      frames := Allocate(size, k, count);
      AlignAddrBegin(12);
      ok := count <= Capacity() / FRAME;
    }

    /** The two passes of the estimate. */
    method CountFrames(size: nat) returns (count: nat)
      requires Valid() && size <= FRAME
      ensures count == SecondPass(addrEnd - addrBegin, size)
    {
      var capacity := Capacity();
      count := capacity / FRAME;
      var required := count * size;
      MulMono(count, size, FRAME);
      capacity := capacity - required;
      count := capacity / FRAME;
    }
  }

  lemma {:induction false} PageBound(k: nat)
    requires k <= 12
    ensures Pow2(k) <= FRAME <= WORD
  {
    assert Pow2(12) == FRAME;
    Pow2Mono(k, 12);
  }

  lemma {:induction false} MulMono(n: nat, a: nat, b: nat)
    requires a <= b
    ensures n * a <= n * b && 0 <= n * a
  {
  }

  /** A page boundary is aligned for every record type. */
  lemma {:induction false} AlreadyAligned(x: nat, k: nat)
    requires k <= 12 && x % FRAME == 0
    ensures CeilTo(x, Pow2(k)) == x
  {
    assert Pow2(12) == FRAME;
    AlignedDown(x, k, 12);
  }

  /** All about the count of the two passes over the region from begin to end. */
  lemma {:induction false} CountDone(begin: nat, end: nat, size: nat, count: nat)
    requires begin % FRAME == 0 && begin <= end && size <= FRAME && count == SecondPass(end - begin, size)
    ensures begin + size * count <= CeilTo(begin + count * size, FRAME) <= end
    ensures FitsBeside(end - begin, (end - begin) / FRAME, size, count)
    ensures RoomFor(begin, end, size, count) <==> Carves(end - begin, size)
    ensures end % FRAME == 0 ==> Carves(end - begin, size)
  {
    RecordsInside(begin, end, size);
    SecondPassExactly(end - begin, size);
    CarvingExactly(begin, end, size);
  }

  /** The frame count of the second pass over a region of `capacity` bytes. */
  function SecondPass(capacity: nat, size: nat): nat
    requires size <= FRAME
  {
    MulMono(capacity / FRAME, size, FRAME);
    (capacity - capacity / FRAME * size) / FRAME
  }

  /** `count` is the number of whole pages beside records for n of them: no more would fit, and where the region ends
      at a page boundary, every page is one for records or one to hand out. */
  predicate FitsBeside(capacity: nat, n: nat, size: nat, count: nat) {
    && count * FRAME <= capacity - n * size < (count + 1) * FRAME
    && (capacity % FRAME == 0 ==> count + CeilTo(n * size, FRAME) / FRAME == n)
  }

  /** The count of the second pass, for any end. */
  lemma {:induction false} SecondPassExactly(capacity: nat, size: nat)
    requires size <= FRAME
    ensures FitsBeside(capacity, capacity / FRAME, size, SecondPass(capacity, size))
  {
    var n, r := capacity / FRAME, capacity % FRAME;
    MulMono(n, size, FRAME);
    PassBeside(n, r, n * size, SecondPass(capacity, size));
  }

  lemma {:induction false} PassBeside(n: nat, r: nat, records: nat, count: nat)
    requires r < FRAME && records <= n * FRAME && count == (n * FRAME + r - records) / FRAME
    ensures count * FRAME <= n * FRAME + r - records < (count + 1) * FRAME
    ensures r == 0 ==> count + CeilTo(records, FRAME) / FRAME == n
  {
    CeilByMod(records, FRAME);
    if r == 0 {
      FloorLeft(n, CeilTo(records, FRAME) - records, CeilTo(records, FRAME) / FRAME);
    }
  }

  /** For every page-aligned region and record size up to a page, the records, rounded up to a page, and the
      frames they describe fit into the region together. */
  lemma {:induction false} Carving(begin: nat, end: nat, size: nat)
    requires begin % FRAME == 0 && end % FRAME == 0 && begin <= end && size <= FRAME
    ensures var count := SecondPass(end - begin, size); var top := CeilTo(begin + count * size, FRAME);
            begin + size * count <= top <= end && count * FRAME <= end - top
  {
    var n, b := (end - begin) / FRAME, begin / FRAME;
    assert end - begin == n * FRAME && begin == b * FRAME;
    var count := SecondPass(end - begin, size);
    CountFits(n, size, count);
    CarvingFits(b, n, count, count * size);
  }

  lemma {:induction false} CarvingFits(b: nat, n: nat, count: nat, used: nat)
    requires count <= n && used <= (n - count) * FRAME
    ensures var top := CeilTo(b * FRAME + used, FRAME);
            b * FRAME + used <= top <= b * FRAME + n * FRAME && count * FRAME <= b * FRAME + n * FRAME - top
  {
    CeilByMod(b * FRAME + used, FRAME);
    CeilBelow(b * FRAME + used, b * FRAME + (n - count) * FRAME, FRAME);
  }

  /** `count` records leave room for `count` of the n pages. */
  lemma {:induction false} CountFits(n: nat, size: nat, count: nat)
    requires size <= FRAME && n * size <= n * FRAME && count == (n * FRAME - n * size) / FRAME
    ensures count <= n && count * size <= (n - count) * FRAME
  {
    assert count * FRAME <= n * FRAME - n * size;
    assert count <= n;
    MulMonoLeft(count, n, size);
  }

  lemma {:induction false} MulMonoLeft(a: nat, b: nat, n: nat)
    requires a <= b
    ensures a * n <= b * n
  {
  }

  /** With n pages and r bytes in the region, and records for all n pages taking e pages and z bytes: those z bytes
      are more than r, so that the second pass counts one page less, or they fit into the records that are left out. */
  predicate Carves(capacity: nat, size: nat) {
    var records := capacity / FRAME * size;
    CarvesAt(capacity % FRAME, records / FRAME, records % FRAME, size)
  }

  predicate CarvesAt(r: nat, e: nat, z: nat, size: nat) {
    r < z || z <= e * size
  }

  /** Exactly when the assertion in the code holds, for any end. */
  lemma {:induction false} CarvingExactly(begin: nat, end: nat, size: nat)
    requires begin % FRAME == 0 && begin <= end && size <= FRAME
    ensures RoomFor(begin, end, size, SecondPass(end - begin, size)) <==> Carves(end - begin, size)
    ensures end % FRAME == 0 ==> Carves(end - begin, size)
  {
    var n, r, records := (end - begin) / FRAME, (end - begin) % FRAME, (end - begin) / FRAME * size;
    var count := SecondPass(end - begin, size);
    MulMono(n, size, FRAME);
    CarvingBy(begin / FRAME, n, r, records, records / FRAME, records % FRAME, size, begin, end, count);
    AlignedSpan(begin, end);
  }

  /** Behind the records, rounded up to a page, there is room for `count` pages. */
  predicate RoomFor(begin: nat, end: nat, size: nat, count: nat) {
    count <= (end - CeilTo(begin + count * size, FRAME)) / FRAME
  }

  lemma {:induction false} AlignedSpan(begin: nat, end: nat)
    requires begin % FRAME == 0 && begin <= end
    ensures end % FRAME == 0 ==> (end - begin) % FRAME == 0
  {
  }

  lemma {:induction false} CarvingBy(b: nat, n: nat, r: nat, records: nat, e: nat, z: nat, size: nat, begin: nat,
                                     end: nat, count: nat)
    requires begin == b * FRAME && r < FRAME && end == begin + n * FRAME + r && size <= FRAME
    requires records == n * size && records == e * FRAME + z && z < FRAME && records <= n * FRAME
    requires count == (end - begin - records) / FRAME
    ensures RoomFor(begin, end, size, count) <==> CarvesAt(r, e, z, size)
  {
    SecondPassIs(n * FRAME + r, n, r, e, z, size, count);
    CarvingAt(b, n, r, count, count * size, end);
    RecordsFit(n, r, e, z, size, count);
  }

  /** Whatever the end, the records, rounded up to a page, stay inside the region. */
  lemma {:induction false} RecordsInside(begin: nat, end: nat, size: nat)
    requires begin % FRAME == 0 && begin <= end && size <= FRAME
    ensures var count := SecondPass(end - begin, size);
            begin + size * count <= CeilTo(begin + count * size, FRAME) <= end
  {
    var n, r, b := (end - begin) / FRAME, (end - begin) % FRAME, begin / FRAME;
    var count := SecondPass(end - begin, size);
    PassFits(n, r, size, count);
    TopInside(b, n, count, count * size);
  }

  lemma {:induction false} PassFits(n: nat, r: nat, size: nat, count: nat)
    requires r < FRAME && size <= FRAME && n * size <= n * FRAME && count == (n * FRAME + r - n * size) / FRAME
    ensures count <= n && count * size <= n * FRAME && (count > 0 ==> count * size <= (n - count + 1) * FRAME)
  {
    assert count * FRAME <= n * FRAME + r - n * size;
    MulMonoLeft(count, n, size);
    MulMono(count, size, FRAME);
  }

  lemma {:induction false} TopInside(b: nat, n: nat, count: nat, used: nat)
    requires count <= n && used <= n * FRAME
    ensures b * FRAME + used <= CeilTo(b * FRAME + used, FRAME) <= b * FRAME + n * FRAME
  {
    CeilByMod(b * FRAME + used, FRAME);
    CeilBelow(b * FRAME + used, b * FRAME + n * FRAME, FRAME);
  }

  lemma {:induction false} SecondPassIs(capacity: nat, n: nat, r: nat, e: nat, z: nat, size: nat, count: nat)
    requires capacity == n * FRAME + r && r < FRAME && n * size == e * FRAME + z && z < FRAME && size <= FRAME
    requires n * size <= n * FRAME && count == (capacity - n * size) / FRAME
    ensures e <= n && count == n - e - (if r < z then 1 else 0)
  {
    DivModUnique(capacity - n * size, FRAME, if r < z then n - e - 1 else n - e, if r < z then FRAME + r - z
      else r - z);
  }

  /** The records of `count` pages fit into the other pages. */
  lemma {:induction false} RecordsFit(n: nat, r: nat, e: nat, z: nat, size: nat, count: nat)
    requires n * size == e * FRAME + z && z < FRAME && e <= n && count == n - e - (if r < z then 1 else 0)
    ensures count * size <= (n - count) * FRAME <==> r < z || z <= e * size
  {
    if r < z {
      MulSum(count, e + 1, size);
    } else {
      MulSum(count, e, size);
    }
  }

  /** Records of 40 bytes, as on x86-64, are safe with any end from 103 pages of records on. */
  lemma {:induction false} LargeRegionsCarve(begin: nat, end: nat)
    requires begin % FRAME == 0 && begin <= end && 103 <= (end - begin) / FRAME * 40 / FRAME
    ensures RoomFor(begin, end, 40, SecondPass(end - begin, 40))
  {
    CarvingExactly(begin, end, 40);
  }

  lemma {:induction false} CarvingAt(b: nat, n: nat, r: nat, count: nat, used: nat, end: nat)
    requires r < FRAME && end == b * FRAME + n * FRAME + r
    ensures count <= (end - CeilTo(b * FRAME + used, FRAME)) / FRAME <==> used <= (n - count) * FRAME
  {
    CeilByMod(used, FRAME);
    CeilShift(b, used);
    var c := CeilTo(used, FRAME) / FRAME;
    assert CeilTo(used, FRAME) == c * FRAME;
    FloorLeft(n, r, c);
    if used <= (n - count) * FRAME {
      CeilBelow(used, (n - count) * FRAME, FRAME);
    }
  }

  lemma {:induction false} CeilShift(b: nat, x: nat)
    ensures CeilTo(b * FRAME + x, FRAME) == b * FRAME + CeilTo(x, FRAME)
  {
    assert (b * FRAME + x) % FRAME == x % FRAME;
  }

  lemma {:induction false} FloorLeft(n: int, r: int, c: int)
    requires 0 <= r < FRAME
    ensures (n * FRAME + r - c * FRAME) / FRAME == n - c
  {
    assert n * FRAME + r - c * FRAME == (n - c) * FRAME + r;
  }

  /** Without a page-aligned end the assertion in the code can fail: records of 40 bytes in a region of one page and
      4095 bytes. */
  lemma {:induction false} UnalignedEnd()
    ensures SecondPass(2 * FRAME - 1, 40) == 1 && !RoomFor(0, 2 * FRAME - 1, 40, 1)
  {
  }
}
