/**
 The kernel's memory initialisation from end to end: records and frames out of
 one region, the allocator over them, and the kernel's own address space.
 */
module MemoryInit {
  import opened Frames
  import opened Wrappers
  import opened Bits
  import opened BuddySystem
  import opened BuddyNew
  import opened BootCarving
  import opened FrameAllocator
  import opened PageTables
  import opened PageMap
  import opened PageCost
  import opened AddressSpaces
  import opened KernelInit
  import opened ActiveTables
  import opened BootState
  import opened BootOutcome
  import KernelBoot

  /** The region between the end of the kernel and that of the usable memory, in virtual addresses of the kernel's
      half. */
  predicate Region(kBegin: nat, begin: nat, end: nat) {
    && (BOOT_LEVEL3 + 1) * FRAME <= kBegin && kBegin + KERNEL_OFFSET <= begin
    && begin < end < WORD - FRAME && CeilTo(begin, FRAME) <= end
  }

  /** How many frames the region holds beside their records. */
  function FrameCount(begin: nat, end: nat, size: nat): nat
    requires size <= FRAME && CeilTo(begin, FRAME) <= end
  {
    SecondPass(end - CeilTo(begin, FRAME), size)
  }

  /** The physical address of the first frame, where the kernel ends with its records. */
  function Base(begin: nat, end: nat, size: nat): int
    requires size <= FRAME && CeilTo(begin, FRAME) <= end
  {
    CeilTo(CeilTo(begin, FRAME) + FrameCount(begin, end, size) * size, FRAME) - KERNEL_OFFSET
  }

  lemma {:induction false} BaseInside(kBegin: nat, begin: nat, end: nat, size: nat)
    requires Region(kBegin, begin, end) && size <= FRAME
    ensures kBegin <= Base(begin, end, size) && Above(Base(begin, end, size), FrameCount(begin, end, size))
  {
    var frames := CeilTo(begin, FRAME);
    CeilByMod(begin, FRAME);
    RecordsInside(frames, end, size);
    var top := CeilTo(frames + FrameCount(begin, end, size) * size, FRAME);
    Spans(kBegin, begin, end, frames, top);
    FewFrames(end - frames, size);
    FrameBounds(kBegin, top - KERNEL_OFFSET);
  }

  lemma {:induction false} Spans(kBegin: nat, begin: nat, end: nat, frames: nat, top: nat)
    requires Region(kBegin, begin, end) && begin <= frames <= top <= end
    ensures end - frames < 0x8000_0000_0000 && kBegin <= top - KERNEL_OFFSET < 0x8000_0000_0000
  {
  }

  /** `count` frames from physical address `base` on are above the boot tables, and addressable. */
  predicate Above(base: nat, count: nat) {
    BOOT_LEVEL3 < base / FRAME && base / FRAME + count <= MAX_FRAME
  }

  lemma {:induction false} FrameBounds(kBegin: nat, base: nat)
    requires (BOOT_LEVEL3 + 1) * FRAME <= kBegin <= base < 0x8000_0000_0000
    ensures BOOT_LEVEL3 < base / FRAME < 0x8_0000_0000
  {
  }

  lemma {:induction false} FewFrames(capacity: nat, size: nat)
    requires size <= FRAME && capacity < 0x8000_0000_0000
    ensures SecondPass(capacity, size) <= 0x8_0000_0000
  {
    MulMono(capacity / FRAME, size, FRAME);
  }

  /** `init` of the kernel's memory up to its heap, from the tables of the boot code. It panics where the assertion
      about the region fails; otherwise it answers what the boot sequence does with the frames carved from it, for a
      kernel that ends behind their records. After a success the kernel runs in its own address space. */
  method Init(mem: Memory, requests: seq<Request>, kBegin: nat, begin: nat, end: nat, size: nat, k: nat)
    returns (err: Option<InitError>, table: ActivePageTable?)
    requires BootTables(mem) && Region(kBegin, begin, end) && size <= FRAME && k <= 12
    requires kBegin <= Base(begin, end, size) && Plain(KernelList(requests, kBegin, Base(begin, end, size)))
    ensures err == None <==>
            && Carves(end - CeilTo(begin, FRAME), size)
            && Succeeds(FrameCount(begin, end, size), requests, kBegin, Base(begin, end, size))
    ensures if Carves(end - CeilTo(begin, FRAME), size)
            then Answers(FrameCount(begin, end, size), requests, kBegin, Base(begin, end, size), err)
            else err == Some(InitPanic)
    ensures err == None ==>
              table != null && table.Valid()
              && KernelRuns(table.View(), FrameCount(begin, end, size), requests, kBegin, Base(begin, end, size))
  {
    var early := new EarlyAllocator(begin, end);
    var frames, count, ok := early.AllocateFrames(size, k);
    if !ok {
      return Some(InitPanic), null;
    }
    BaseInside(kBegin, begin, end, size);
    var base := early.addrBegin - KERNEL_OFFSET;
    err, table := BuildKernel(mem, requests, kBegin, base, count);
  }

  /** The kernel runs in its own address space, and of n frames ten and the tables of its space are taken. */
  ghost predicate KernelRuns(t: Sys, n: nat, requests: seq<Request>, kBegin: nat, kEnd: nat)
    requires kBegin <= kEnd && t.pool.Shaped()
  {
    && KernelSpace(t, requests + [KernelRequest(kBegin, kEnd)])
    && CountFree(t.pool) == n - BOOT_FRAMES - |TablePaths(KernelList(requests, kBegin, kEnd))|
  }

  /** The frames are `count` from physical address `base` on, where the kernel and the records end. */
  method BuildKernel(mem: Memory, requests: seq<Request>, kBegin: nat, base: nat, count: nat)
    returns (err: Option<InitError>, table: ActivePageTable?)
    requires BootTables(mem) && Above(base, count) && kBegin <= base && Plain(KernelList(requests, kBegin, base))
    ensures Answers(count, requests, kBegin, base, err)
    ensures err == None ==> table != null && table.Valid() && KernelRuns(table.View(), count, requests, kBegin, base)
  {
    var allocator := NewAllocator(base, count);
    ghost var order: seq<nat>, used: seq<bool> :| |order| == |used| == count && allocator.View() == New(order, used);
    var machine := new ActivePageTable(mem, BOOT_ROOT, allocator);
    assert machine.View() == Sys(mem, BOOT_ROOT, New(order, used), base / FRAME);
    MachineReady(machine.View(), order, used, count);
    err := RunInit(machine, requests, kBegin, base, count);
    table := machine;
  }

  method RunInit(table: ActivePageTable, requests: seq<Request>, kBegin: nat, base: nat, ghost count: nat)
    returns (err: Option<InitError>)
    requires table.Valid() && Ready(table.View(), count)
    requires kBegin <= base && Plain(KernelList(requests, kBegin, base))
    modifies table`mem, table`cr3, table.allocator.Repr
    ensures table.Valid() && Answers(count, requests, kBegin, base, err)
    ensures err == None ==> KernelRuns(table.View(), count, requests, kBegin, base)
  {
    ghost var s := table.View();
    ReadyBoots(s, count);
    err := KernelBoot.Init(table, requests, kBegin, base, BOOT_ROOT);
  }

  lemma {:induction false} MachineReady(s: Sys, order: seq<nat>, used: seq<bool>, count: nat)
    requires |order| == count && BootState.BootState(s, order, used)
    ensures Ready(s, count)
  {
  }

  lemma {:induction false} ReadyBoots(s: Sys, count: nat)
    requires Ready(s, count)
    ensures Booted(s, BOOT_ROOT, KernelBoot.TestPattern())
    ensures SpaceOk(s, BOOT_ROOT) && SelfLinked(s.mem, BOOT_ROOT) && !FrameFree(s, BOOT_ROOT)
  {
    var order: seq<nat>, used: seq<bool> :| |order| == count && BootState.BootState(s, order, used);
    BootStateIsBooted(s, order, used, KernelBoot.TestPattern());
    RootInSpace(s, BOOT_ROOT);
  }

  /** Number the records, whose other cells hold anything, and build the allocator over them. */
  method NewAllocator(base: nat, count: nat) returns (allocator: BuddyAllocator)
    ensures fresh(allocator) && fresh(allocator.Repr) && allocator.Valid()
    ensures allocator.baseAddr == base
    ensures exists order: seq<nat>, used: seq<bool> ::
              |order| == |used| == count && allocator.View() == New(order, used)
  {
    var number, order, used := new nat[count], new nat[count], new bool[count];
    NumberFrames(number, base);
    ghost var cells, states := order[..], used[..];
    allocator := new BuddyAllocator(base, number, order, used);
    assert allocator.View() == New(cells, states);
  }

  /** Where the kernel is linked, without further requests: the condition on the frames carved from the region means
      that there are thirteen of them, and that kernel and records end at or before 0x1FF000; every other answer is that
      of a kernel of this size. */
  lemma {:induction false} LinkedMemory(begin: nat, end: nat, size: nat)
    requires Region(LINKED_BEGIN, begin, end) && size <= FRAME
    ensures LINKED_BEGIN <= Base(begin, end, size)
    ensures Plain(KernelList([], LINKED_BEGIN, Base(begin, end, size)))
    ensures Succeeds(FrameCount(begin, end, size), [], LINKED_BEGIN, Base(begin, end, size)) <==>
            LINKED_BEGIN < Base(begin, end, size) <= 0x1F_F000 && 13 <= FrameCount(begin, end, size)
    ensures forall err :: Answers(FrameCount(begin, end, size), [], LINKED_BEGIN, Base(begin, end, size), err) ==>
              LinkedFails(FrameCount(begin, end, size), Base(begin, end, size), err)
  {
    forall err | Answers(FrameCount(begin, end, size), [], LINKED_BEGIN, Base(begin, end, size), err)
      ensures LinkedFails(FrameCount(begin, end, size), Base(begin, end, size), err)
    {
      LinkedAnswers(FrameCount(begin, end, size), Base(begin, end, size), err);
    }
    BaseInside(LINKED_BEGIN, begin, end, size);
    BaseAligned(begin, end, size);
    LinkedPlain(Base(begin, end, size));
    LinkedSucceeds(FrameCount(begin, end, size), Base(begin, end, size));
  }

  lemma {:induction false} BaseAligned(begin: nat, end: nat, size: nat)
    requires size <= FRAME && CeilTo(begin, FRAME) <= end && KERNEL_OFFSET <= begin
    ensures Base(begin, end, size) >= 0 && Base(begin, end, size) % FRAME == 0
  {
    CeilByMod(begin, FRAME);
    CeilByMod(CeilTo(begin, FRAME) + FrameCount(begin, end, size) * size, FRAME);
  }

  /** With records of 40 bytes, as on x86-64, more than 26112 frames (102 MB) are too many for a kernel linked there:
      the records alone push its end beyond 0x1FF000, and a page is refused as mapped or `map_fitting` panics. */
  lemma {:induction false} TooManyFrames(begin: nat, end: nat)
    requires Region(LINKED_BEGIN, begin, end) && 26112 < FrameCount(begin, end, 40)
    ensures 0x1F_F000 < Base(begin, end, 40)
    ensures forall err :: Answers(FrameCount(begin, end, 40), [], LINKED_BEGIN, Base(begin, end, 40), err) ==>
              err == Some(if Base(begin, end, 40) < 0x30_0000 then Tables(AlreadyMapped) else InitPanic)
  {
    LinkedMemory(begin, end, 40);
    BaseAligned(begin, end, 40);
    var frames := CeilTo(begin, FRAME);
    CeilByMod(begin, FRAME);
    RecordsInside(frames, end, 40);
  }
}
