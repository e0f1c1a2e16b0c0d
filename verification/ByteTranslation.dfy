/**
 What the mapping operations mean for single bytes of virtual memory.
 */
module ByteTranslation {
  import opened Frames
  import opened Wrappers
  import opened Bits
  import opened PageTables
  import opened PageMap
  import opened PageScan
  import opened PageOps
  import opened RecursiveAddress
  import opened KernelInit

  lemma {:induction false} ByteOf(v: nat, x: nat)
    requires v % FRAME == 0
    ensures (v + x) / FRAME == v / FRAME + x / FRAME && (v + x) % FRAME == x % FRAME
  {
    assert v == v / FRAME * FRAME;
  }

  /** Every byte of the region `auto_continuous_map` answers with translates to the byte at the same offset
      of the block if and only if the root slot found is below 256; from there on the addresses are not
      canonical, and every access faults. */
  lemma {:induction false} AutoMapBytes(s: Sys, frame: nat, order: nat, t: Sys, region: Region, x: nat)
    requires SpaceOk(s, s.cr3) && IsPresent(Entry(s.mem, s.cr3, SELF)) && frame + Pow2(order) <= MAX_FRAME
    requires AutoMap(s, s.cr3, frame, order) == (t, Done(Some(region)))
    requires x < Pow2(order) * FRAME
    ensures region.end == region.begin + Pow2(order) * FRAME
    ensures Translate(t, region.begin + x) ==
            if FirstFree(Tab(s.mem, s.cr3), 1) < 256 then Some(frame * FRAME + x) else None
  {
    assert t.cr3 == s.cr3 && t.pool.Shaped() && order <= 8 && FirstFree(Tab(s.mem, s.cr3), 1) < SELF
           && AutoMapped(s, t, t.cr3, FirstFree(Tab(s.mem, s.cr3), 1), frame, Pow2(order), region) by {
      AutoMapCorrect(s, s.cr3, frame, order);
    }
    OrderBound(order);
    AutoMappedByte(s, t, FirstFree(Tab(s.mem, s.cr3), 1), frame, Pow2(order), region, x);
  }

  lemma {:induction false} AutoMappedByte(s: Sys, t: Sys, i: Slot, frame: nat, count: nat, region: Region, x: nat)
    requires s.pool.Shaped() && t.pool.Shaped() && AutoMapped(s, t, t.cr3, i, frame, count, region)
    requires i < SELF && count <= 256 && x < count * FRAME
    ensures region.end == region.begin + count * FRAME
    ensures Translate(t, region.begin + x) == if i < 256 then Some(frame * FRAME + x) else None
  {
    var j: nat := x / FRAME;
    RegionByte(i, x);
    var page: seq<Slot> := [i, 1, 1, 1 + j];
    assert page[..3] == [i, 1, 1] && Ordinary(page);
    assert Lookup(t.mem, t.cr3, page) == Some(frame + j);
  }

  lemma {:induction false} RegionByte(i: Slot, x: nat)
    requires i < SELF && x < 256 * FRAME
    ensures var va := NumberOf([i, 1, 1, 1]) * FRAME + x;
            (Canonical(va) <==> i < 256) && va % FRAME == x % FRAME && IdxOf(va) == [i, 1, 1, 1 + x / FRAME]
  {
    var n := NumberOf([i, 1, 1, 1]);
    NumberBound([i, 1, 1, 1]);
    ByteOf(n * FRAME, x);
    assert n * FRAME / FRAME == n;
    NumberPage([i, 1, 1, 1], x / FRAME);
  }

  /** After a successful `map_fitting` of fewer than 512 pages, from page v on frame p, translation is linear over
      the whole range, byte by byte. */
  lemma {:induction false} MapFittingBytes(s: Sys, v: nat, p: nat, count: nat, t: Sys, x: nat)
    requires SpaceOk(s, s.cr3) && count < 512 && Acceptable(s, s.cr3, Range(v, p, count))
    requires MapFitting(s, s.cr3, v * FRAME, (v + count) * FRAME, p * FRAME) == (t, Done(()))
    requires x < count * FRAME && Canonical(v * FRAME + x)
    ensures Translate(t, v * FRAME + x) == Some(p * FRAME + x)
  {
    FittedPage(s, v, p, count, t, x / FRAME);
    PageByte(t, v, p, x, x / FRAME);
  }

  lemma {:induction false} FittedPage(s: Sys, v: nat, p: nat, count: nat, t: Sys, j: nat)
    requires SpaceOk(s, s.cr3) && count < 512 && Acceptable(s, s.cr3, Range(v, p, count)) && j < count
    requires MapFitting(s, s.cr3, v * FRAME, (v + count) * FRAME, p * FRAME) == (t, Done(()))
    ensures Lookup(t.mem, t.cr3, PageOf(v + j)) == Some(p + j)
  {
    FittedPrefix(s, v, p, count, t);
    RangeByte(s.mem, t, v, p, count, j);
  }

  lemma {:induction false} FittedPrefix(s: Sys, v: nat, p: nat, count: nat, t: Sys)
    requires SpaceOk(s, s.cr3) && count < 512 && Acceptable(s, s.cr3, Range(v, p, count))
    requires MapFitting(s, s.cr3, v * FRAME, (v + count) * FRAME, p * FRAME) == (t, Done(()))
    ensures t.cr3 == s.cr3 && PrefixMapped(s.mem, t.mem, t.cr3, Range(v, p, count), count)
  {
    assert v * FRAME / FRAME == v && p * FRAME / FRAME == p;
    assert (v + count) * FRAME - v * FRAME == count * FRAME && count * FRAME / FRAME == count;
    var k := MapFittingCorrect(s, s.cr3, v * FRAME, (v + count) * FRAME, p * FRAME);
  }

  lemma {:induction false} RangeByte(m: Memory, t: Sys, v: nat, p: nat, count: nat, j: nat)
    requires PrefixMapped(m, t.mem, t.cr3, Range(v, p, count), count) && j < count
    ensures Lookup(t.mem, t.cr3, PageOf(v + j)) == Some(p + j)
  {
    var l := Range(v, p, count);
    assert Lookup(t.mem, t.cr3, l[j].page) == Some(l[j].frame);
  }

  lemma {:induction false} PageByte(t: Sys, v: nat, p: nat, x: nat, j: nat)
    requires j == x / FRAME && Canonical(v * FRAME + x)
    requires Lookup(t.mem, t.cr3, PageOf(v + j)) == Some(p + j)
    ensures Translate(t, v * FRAME + x) == Some(p * FRAME + x)
  {
    var va := v * FRAME + x;
    assert va / FRAME == v + j && va % FRAME == x % FRAME;
    assert p * FRAME + x == (p + j) * FRAME + x % FRAME;
  }

  /** In the kernel's address space every byte of a page-aligned kernel appears at its physical address plus the kernel
      offset. */
  lemma {:induction false} KernelImage(t: Sys, requests: seq<Request>, kBegin: nat, kEnd: nat, pa: nat)
    requires KernelRange(kBegin, kEnd) && KernelSpace(t, requests + [KernelRequest(kBegin, kEnd)])
    requires kBegin <= pa < kEnd && pa < 0x8000_0000_0000 && Ordinary(PageOf(OFFSET_PAGES + pa / FRAME))
    ensures Translate(t, pa + KERNEL_OFFSET) == Some(pa)
  {
    var all := requests + [KernelRequest(kBegin, kEnd)];
    var r := all[|requests|];
    assert kBegin / FRAME <= pa / FRAME < kEnd / FRAME;
    assert r.frame <= pa / FRAME < r.frame + r.count;
    KernelBytes(t, all, pa);
  }

  /** In the kernel's address space a requested physical byte appears at its address plus the kernel offset. */
  lemma {:induction false} KernelBytes(t: Sys, requests: seq<Request>, pa: nat)
    requires KernelSpace(t, requests) && Requested(requests, pa / FRAME) && pa < 0x8000_0000_0000
    requires Ordinary(PageOf(OFFSET_PAGES + pa / FRAME))
    ensures Translate(t, pa + KERNEL_OFFSET) == Some(pa)
  {
    ByteOf(KERNEL_OFFSET, pa);
    assert KERNEL_OFFSET / FRAME == OFFSET_PAGES;
    assert Lookup(t.mem, t.cr3, PageOf(OFFSET_PAGES + pa / FRAME)) == Some(pa / FRAME);
  }
}
