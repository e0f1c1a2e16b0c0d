/**
 The boot sequence as the kernel runs it, over the active page table: the map
 and unmap test, then the new address space, filled through `with`, and the
 switch to it.
 */
module KernelBoot {
  import opened Frames
  import opened Wrappers
  import opened PageTables
  import opened PageMap
  import opened PageOps
  import PageEntry
  import opened PageUnmap
  import opened AddressSpaces
  import opened RecursiveAddress
  import opened KernelInit
  import opened TableSteps
  import opened SpaceSteps
  import opened ActiveTables
  import opened BootOutcome
  import opened BootState
  import opened BuddySystem

  // ----- the closure of init

  /** Map the requests in turn, up to the first failure. */
  method MapRequests(table: ActivePageTable, requests: seq<Request>, ghost q: nat) returns (r: Result<()>)
    requires table.Active(q) && Acceptable(table.View(), q, Wanted(requests))
    modifies table`mem, table.allocator.Repr
    ensures table.Active(q) && Grows(old(table.View()), table.View(), q)
    ensures (table.View(), r) == MapAll(old(table.View()), q, Wanted(requests))
  {
    ghost var s := table.View();
    ghost var all := MapAll(s, q, Wanted(requests));
    GrowsRefl(s, q);
    assert requests[0..] == requests;
    var i := 0;
    while i < |requests|
      invariant 0 <= i <= |requests|
      invariant table.Active(q) && Grows(s, table.View(), q) && Acceptable(table.View(), q, Wanted(requests[i..]))
      invariant MapAll(table.View(), q, Wanted(requests[i..])) == all
    {
      ghost var s1 := table.View();
      assert requests[i..][1..] == requests[i + 1..];
      var result := MapRequest(table, requests[i], q, requests[i..]);
      GrowsTrans(s, s1, table.View(), q);
      if result.Err? {
        return result;
      }
      i := i + 1;
    }
    assert requests[i..] == [];
    r := Ok(());
  }

  /** The first of the requests that are left. */
  method MapRequest(table: ActivePageTable, request: Request, ghost q: nat, ghost rest: seq<Request>)
    returns (r: Result<()>)
    requires rest != [] && request == rest[0]
    requires table.Active(q) && Acceptable(table.View(), q, Wanted(rest))
    modifies table`mem, table.allocator.Repr
    ensures table.Active(q) && Grows(old(table.View()), table.View(), q)
            && Acceptable(table.View(), q, Wanted(rest[1..]))
    ensures MapAll(old(table.View()), q, Wanted(rest)) ==
            if r.Err? then (table.View(), r) else MapAll(table.View(), q, Wanted(rest[1..]))
  {
    ghost var s := table.View();
    RequestFirst(s, q, rest);
    r := MapFrames(table, request, q);
    MapKeepsAcceptable(s, table.View(), q, Wanted(rest[1..]));
  }

  /** The loop over the frames of one request. */
  method MapFrames(table: ActivePageTable, request: Request, ghost q: nat) returns (r: Result<()>)
    requires table.Active(q) && Acceptable(table.View(), q, RequestPages(request))
    modifies table`mem, table.allocator.Repr
    ensures table.Active(q) && Grows(old(table.View()), table.View(), q)
    ensures (table.View(), r) == MapAll(old(table.View()), q, RequestPages(request))
  {
    var addr := request.frame * FRAME;
    RequestAddress(request, addr + KERNEL_OFFSET, addr);
    r := table.MapRange(addr + KERNEL_OFFSET, addr, request.count, q);
  }

  lemma {:induction false} RequestAddress(r: Request, v: nat, p: nat)
    requires p == r.frame * FRAME && v == p + KERNEL_OFFSET
    ensures Range(v / FRAME, p / FRAME, r.count) == RequestPages(r)
  {
    OffsetPage(r.frame);
  }

  /** The closure given to `with`: the requests, then the kernel. */
  method MapKernel(table: ActivePageTable, requests: seq<Request>, kBegin: nat, kEnd: nat, ghost q: nat)
    returns (r: Outcome<()>)
    requires table.Active(q) && kBegin <= kEnd && kBegin % FRAME == 0
    requires Acceptable(table.View(), q, KernelList(requests, kBegin, kEnd))
    modifies table`mem, table.allocator.Repr
    ensures table.Active(q) && Grows(old(table.View()), table.View(), q)
    ensures KernelMapped(old(table.View()), table.View(), q, requests, kBegin, kEnd, r)
  {
    ghost var s, kernel := table.View(), KernelRequest(kBegin, kEnd);
    KernelListParts(s, q, requests, kBegin, kEnd);
    var result := MapRequests(table, requests, q);
    ghost var s1 := table.View();
    if result.Err? {
      RequestsFail(s, s1, q, requests, kBegin, kEnd, result);
      return Failed(result.error);
    }
    if Fits2MB(kBegin, kEnd) {
      MapKeepsAcceptable(s, s1, q, RequestPages(kernel));
    }
    r := FitKernel(table, kBegin, kEnd, q);
    GrowsTrans(s, s1, table.View(), q);
    RequestsThenKernel(s, s1, table.View(), q, requests, kBegin, kEnd, result, r);
  }

  lemma {:induction false} KernelListParts(s: Sys, q: nat, requests: seq<Request>, kBegin: nat, kEnd: nat)
    requires kBegin <= kEnd && Acceptable(s, q, KernelList(requests, kBegin, kEnd))
    ensures Acceptable(s, q, Wanted(requests))
    ensures Fits2MB(kBegin, kEnd) ==> Acceptable(s, q, RequestPages(KernelRequest(kBegin, kEnd)))
  {
    if Fits2MB(kBegin, kEnd) {
      WantedSnoc(requests, KernelRequest(kBegin, kEnd));
      AcceptableParts(s, q, Wanted(requests), RequestPages(KernelRequest(kBegin, kEnd)));
    }
  }

  /** `map_fitting` of the kernel. */
  method FitKernel(table: ActivePageTable, kBegin: nat, kEnd: nat, ghost q: nat) returns (r: Outcome<()>)
    requires table.Active(q) && kBegin <= kEnd && kBegin % FRAME == 0
    requires Fits2MB(kBegin, kEnd) ==> Acceptable(table.View(), q, RequestPages(KernelRequest(kBegin, kEnd)))
    modifies table`mem, table.allocator.Repr
    ensures table.Active(q) && Grows(old(table.View()), table.View(), q)
    ensures KernelFitted(old(table.View()), table.View(), q, kBegin, kEnd, r)
  {
    ghost var s := table.View();
    KernelPages(kBegin, kEnd);
    r := table.MapFitting(kBegin + KERNEL_OFFSET, kEnd + KERNEL_OFFSET, kBegin, q);
    FittingIs(s, table.View(), q, kBegin, kEnd, r);
  }

  ghost predicate KernelFitted(s: Sys, t: Sys, q: nat, kBegin: nat, kEnd: nat, r: Outcome<()>)
    requires s.pool.Shaped() && kBegin <= kEnd
  {
    if !Fits2MB(kBegin, kEnd) then t == s && r == Panicked
    else
      var (u, result) := MapAll(s, q, RequestPages(KernelRequest(kBegin, kEnd)));
      t == u && r == match result case Ok(_) => Done(()) case Err(e) => Failed(e)
  }

  /** The closure in s ended in t with r. */
  ghost predicate KernelMapped(s: Sys, t: Sys, q: nat, requests: seq<Request>, kBegin: nat, kEnd: nat, r: Outcome<()>)
    requires s.pool.Shaped() && kBegin <= kEnd
  {
    var (u, result) := MapAll(s, q, KernelList(requests, kBegin, kEnd));
    && t == u
    && r == match result case Err(e) => Failed(e)
            case Ok(_) => if Fits2MB(kBegin, kEnd) then Done(()) else Panicked
  }

  lemma {:induction false} KernelPages(kBegin: nat, kEnd: nat)
    requires kBegin <= kEnd && kBegin % FRAME == 0
    ensures var v, w := kBegin + KERNEL_OFFSET, kEnd + KERNEL_OFFSET;
            w >= v && Fitting(v, w, kBegin) == RequestPages(KernelRequest(kBegin, kEnd))
            && (w - v < 0x20_0000 <==> Fits2MB(kBegin, kEnd))
  {
    assert (kBegin + KERNEL_OFFSET) / FRAME == OFFSET_PAGES + kBegin / FRAME;
  }

  lemma {:induction false} RequestsFail(s: Sys, t: Sys, q: nat, requests: seq<Request>, kBegin: nat, kEnd: nat,
                                        result: Result<()>)
    requires s.pool.Shaped() && kBegin <= kEnd && result.Err? && MapAll(s, q, Wanted(requests)) == (t, result)
    ensures KernelMapped(s, t, q, requests, kBegin, kEnd, Failed(result.error))
  {
    WantedSnoc(requests, KernelRequest(kBegin, kEnd));
    MapAllAppend(s, q, Wanted(requests), RequestPages(KernelRequest(kBegin, kEnd)));
  }

  lemma {:induction false} RequestsThenKernel(s: Sys, s1: Sys, t: Sys, q: nat, requests: seq<Request>, kBegin: nat,
                                              kEnd: nat, result: Result<()>, r: Outcome<()>)
    requires s.pool.Shaped() && s1.pool.Shaped() && kBegin <= kEnd
    requires MapAll(s, q, Wanted(requests)) == (s1, result) && result.Ok? && KernelFitted(s1, t, q, kBegin, kEnd, r)
    ensures KernelMapped(s, t, q, requests, kBegin, kEnd, r)
  {
    var kernel := KernelRequest(kBegin, kEnd);
    WantedSnoc(requests, kernel);
    MapAllAppend(s, q, Wanted(requests), RequestPages(kernel));
  }

  lemma {:induction false} FittingIs(s: Sys, t: Sys, q: nat, kBegin: nat, kEnd: nat, r: Outcome<()>)
    requires s.pool.Shaped() && kBegin <= kEnd && kBegin % FRAME == 0
    requires (t, r) == MapFitting(s, q, kBegin + KERNEL_OFFSET, kEnd + KERNEL_OFFSET, kBegin)
    ensures KernelFitted(s, t, q, kBegin, kEnd, r)
  {
    KernelPages(kBegin, kEnd);
  }

  // ----- with

  /** `with` and its closure in s ended in t with r; nothing is said about the state after a panic. */
  ghost predicate WithIs(s: Sys, t: Sys, a: nat, q: nat, requests: seq<Request>, kBegin: nat, kEnd: nat, r: Outcome<()>)
    requires s.pool.Shaped() && kBegin <= kEnd
  {
    var (u, o) := WithKernel(s, a, q, requests, kBegin, kEnd);
    r == o && (!r.Panicked? ==> t == u)
  }

  /** `with` around the closure of `init`, for the inactive address space `target`. */
  method With(table: ActivePageTable, target: nat, requests: seq<Request>, kBegin: nat, kEnd: nat, ghost a: nat)
    returns (r: Outcome<()>)
    requires table.Active(a) && ReadyFor(table.View(), a, target) && kBegin <= kEnd && kBegin % FRAME == 0
    requires Acceptable(table.View(), target, KernelList(requests, kBegin, kEnd))
    modifies table`mem, table.allocator.Repr
    ensures table.Valid() && WithIs(old(table.View()), table.View(), a, target, requests, kBegin, kEnd, r)
  {
    ghost var s, l := table.View(), KernelList(requests, kBegin, kEnd);
    var original := table.cr3;
    var kept := table.BeginWith(target, a);
    ghost var s1 := table.View();
    ghost var idx := ClosureReady(s, s1, a, target, requests, kBegin, kEnd, kept);
    if kept.Err? {
      return Failed(kept.error);
    }
    var closure := MapKernel(table, requests, kBegin, kEnd, target);
    ghost var u := table.View();
    ClosureEnds(s, s1, u, a, target, requests, kBegin, kEnd, idx, closure);
    if closure.Panicked? {
      return Panicked;
    }
    var ok := table.EndWith(kept.value, original, idx);
    r := if ok then closure else Panicked;
    WithDoneIs(s, u, table.View(), a, target, requests, kBegin, kEnd, idx, closure, ok);
  }

  lemma {:induction false} ClosureReady(s: Sys, s1: Sys, a: nat, q: nat, requests: seq<Request>, kBegin: nat, kEnd: nat,
                                        kept: Result<nat>)
    returns (idx: seq<Slot>)
    requires ReadyFor(s, a, q) && kBegin <= kEnd && OverriddenAs(s, s1, a, q, kept)
    requires Acceptable(s, q, KernelList(requests, kBegin, kEnd))
    ensures match kept
            case Err(e) => WithIs(s, s1, a, q, requests, kBegin, kEnd, Failed(e))
            case Ok(n) =>
              && Override(s, a, q) == (s1, Ok(idx)) && |idx| == 4 && n == NumberOf(idx) && Overridden(s, s1, a, q, idx)
              && SpaceOk(s1, q) && Window(s1.mem, s1.cr3, q) && !FrameFree(s1, s1.cr3)
              && Acceptable(s1, q, KernelList(requests, kBegin, kEnd))
  {
    idx := WithBegins(s, s1, a, q, KernelList(requests, kBegin, kEnd), kept);
  }

  /** After the closure: `with` goes on to restore the recursive slot, unless the closure panicked. */
  lemma {:induction false} ClosureEnds(s: Sys, s1: Sys, u: Sys, a: nat, q: nat, requests: seq<Request>, kBegin: nat,
                                       kEnd: nat, idx: seq<Slot>, closure: Outcome<()>)
    requires ReadyFor(s, a, q) && Override(s, a, q) == (s1, Ok(idx)) && |idx| == 4 && Overridden(s, s1, a, q, idx)
    requires kBegin <= kEnd && Acceptable(s1, q, KernelList(requests, kBegin, kEnd))
             && KernelMapped(s1, u, q, requests, kBegin, kEnd, closure)
    requires u.pool.Shaped()
    ensures u.cr3 == a && (Deref(u, idx).Some? ==>
            Entry(u.mem, Deref(u, idx).value, SELF) < PageEntry.NO_EXECUTE - PageEntry.WRITABLE)
    ensures closure.Panicked? ==> WithIs(s, u, a, q, requests, kBegin, kEnd, Panicked)
    ensures !closure.Panicked? ==> WithKernel(s, a, q, requests, kBegin, kEnd) == EndedWith(u, idx, closure)
  {
    var (v, result) := MapAll(s1, q, KernelList(requests, kBegin, kEnd));
    WithEnds(s, s1, u, a, q, KernelList(requests, kBegin, kEnd), idx, result);
    ClosureUnfolds(s, u, a, q, requests, kBegin, kEnd, idx, result, closure);
  }

  lemma {:induction false} ClosureUnfolds(s: Sys, u: Sys, a: nat, q: nat, requests: seq<Request>, kBegin: nat,
                                          kEnd: nat, idx: seq<Slot>, result: Result<()>, closure: Outcome<()>)
    requires s.pool.Shaped() && u.pool.Shaped() && kBegin <= kEnd && |idx| == 4
    requires AddressSpaces.With(s, a, q, KernelList(requests, kBegin, kEnd)) == WithRestored(u, idx, result)
    requires closure == match result case Err(e) => Failed(e)
                        case Ok(_) => if Fits2MB(kBegin, kEnd) then Done(()) else Panicked
    ensures closure.Panicked? ==> WithIs(s, u, a, q, requests, kBegin, kEnd, Panicked)
    ensures !closure.Panicked? ==> WithKernel(s, a, q, requests, kBegin, kEnd) == EndedWith(u, idx, closure)
  {
  }

  /** The end of `with` after a closure that ended in u with r. */
  function EndedWith(u: Sys, idx: seq<Slot>, closure: Outcome<()>): (Sys, Outcome<()>)
    requires u.pool.Shaped() && |idx| == 4
  {
    match Restore(u, idx) case None => (u, Panicked) case Some(t) => (t, closure)
  }

  lemma {:induction false} WithDoneIs(s: Sys, u: Sys, t: Sys, a: nat, q: nat, requests: seq<Request>, kBegin: nat,
                                      kEnd: nat, idx: seq<Slot>, closure: Outcome<()>, ok: bool)
    requires s.pool.Shaped() && u.pool.Shaped() && kBegin <= kEnd && |idx| == 4 && !closure.Panicked?
    requires WithKernel(s, a, q, requests, kBegin, kEnd) == EndedWith(u, idx, closure)
    requires match Restore(u, idx) case None => !ok case Some(v) => ok && t == v
    ensures WithIs(s, t, a, q, requests, kBegin, kEnd, if ok then closure else Panicked)
  {
  }

  // ----- the map and unmap test

  /** The address `runtime_test` maps, and the word two of its 32-bit ones make. */
  const TEST_ADDRESS: nat := 0x20_0000
  const TEST_WORD: nat := 0x1_0000_0001

  function TestPattern(): (t: seq<nat>)
    ensures |t| == ENTRIES
  {
    seq(ENTRIES, _ => TEST_WORD)
  }

  /** The 32-bit word at index i of a table's memory; entries are stored with their low half first. */
  function HalfWord(t: seq<nat>, i: nat): nat
    requires |t| == ENTRIES && i < 2 * ENTRIES
  {
    if i % 2 == 0 then t[i / 2] % 0x1_0000_0000 else t[i / 2] / 0x1_0000_0000
  }

  /** The test writes 1 to each of the 1024 words of the page. */
  lemma {:induction false} TestPatternIs(i: nat)
    requires i < 1024
    ensures HalfWord(TestPattern(), i) == 1
  {
    assert TestPattern()[i / 2] == TEST_WORD;
  }

  lemma {:induction false} TestAddressIs()
    ensures IdxOf(TEST_ADDRESS) == TEST_PAGE && Ordinary(TEST_PAGE) && Canonical(TEST_ADDRESS)
  {
    assert TEST_ADDRESS / FRAME == 512;
    Digits(512, 0, 0, 1, 0);
  }

  /** `runtime_test`. Nothing is said about the state after a panic. */
  method RuntimeTest(table: ActivePageTable, ghost a: nat) returns (err: Option<TestError>)
    requires table.Active(a) && table.cr3 == a && Mappable(table.View(), a, TEST_PAGE)
    modifies table`mem, table.allocator.Repr
    ensures table.Valid()
    ensures var (t, e) := RoundTrip(old(table.View()), a, TEST_PAGE, TestPattern());
            err == e && (err != Some(TestPanic) ==> table.View() == t)
  {
    ghost var s := table.View();
    err := MapTestPage(table, a);
    ghost var u := table.View();
    if err.Some? {
      TestStops(s, u, a, err);
      return err;
    }
    TestActive(s, u, a);
    TestAddressIs();
    var result := table.Unmap(TEST_ADDRESS, a);
    err := match result case Done(_) => None case Failed(e) => Some(PageTable(e)) case Panicked => Some(TestPanic);
    TestEnds(s, u, a, result, err, table.View());
  }

  /** Its first half: map a new frame at the test page and write through the page. */
  method MapTestPage(table: ActivePageTable, ghost a: nat) returns (err: Option<TestError>)
    requires table.Active(a) && table.cr3 == a && Mappable(table.View(), a, TEST_PAGE)
    modifies table`mem, table.allocator.Repr
    ensures table.Valid()
    ensures (table.View(), err) == TestMap(old(table.View()), a, TEST_PAGE, TestPattern())
  {
    ghost var s := table.View();
    var got := table.TakeFrame();
    ghost var s1 := table.View();
    if got.None? {
      return Some(NoUsableMemory);
    }
    TestTaken(s, s1, a, got.value);
    TestAddressIs();
    var result := table.Map(TEST_ADDRESS, got.value, a);
    ghost var s2 := table.View();
    if result.Err? {
      TestUnmapped(s, s1, s2, a, got.value, result);
      return Some(PageTable(result.error));
    }
    TestReached(s, s1, s2, a, got.value, result);
    table.FillEntries(TEST_ADDRESS, TEST_WORD, got.value);
    assert table.mem == s2.mem[got.value := TestPattern()];
    err := None;
  }

  lemma {:induction false} TestTaken(s: Sys, s1: Sys, a: nat, f: nat)
    requires SpaceOk(s, a) && s.cr3 == a && SelfLinked(s.mem, a) && Mappable(s, a, TEST_PAGE)
             && AllocOne(s) == (s1, Some(f))
    ensures SpaceOk(s1, a) && Window(s1.mem, s1.cr3, a) && !FrameFree(s1, s1.cr3) && f < MAX_FRAME
            && Mappable(s1, a, TEST_PAGE) && Addressable(s1, a, TEST_PAGE)
  {
    OrdinaryIs(TEST_PAGE);
    TakenActive(s, s1, a, f);
    AllocOneCorrect(s);
  }

  lemma {:induction false} TestUnmapped(s: Sys, s1: Sys, s2: Sys, a: nat, f: nat, r: Result<()>)
    requires s.pool.Shaped() && AllocOne(s) == (s1, Some(f)) && r.Err? && Map(s1, a, TEST_PAGE, f) == (s2, r)
    ensures TestMap(s, a, TEST_PAGE, TestPattern()) == (s2, Some(PageTable(r.error)))
  {
  }

  lemma {:induction false} TestReached(s: Sys, s1: Sys, s2: Sys, a: nat, f: nat, r: Result<()>)
    requires SpaceOk(s, a) && s.cr3 == a && Mappable(s, a, TEST_PAGE) && SpaceOk(s1, a) && f < MAX_FRAME
    requires AllocOne(s) == (s1, Some(f)) && r.Ok? && Map(s1, a, TEST_PAGE, f) == (s2, r)
    ensures Stable(s2, TEST_ADDRESS, f)
    ensures TestMap(s, a, TEST_PAGE, TestPattern()) == (s2.(mem := s2.mem[f := TestPattern()]), None)
  {
    AllocOneCorrect(s);
    MapCorrect(s1, a, TEST_PAGE, f);
    NewNoTable(s, s1, s2, a, f);
    TestAddressIs();
    ForeignStable(s2, a, TEST_ADDRESS, f);
  }

  lemma {:induction false} TestStops(s: Sys, t: Sys, a: nat, err: Option<TestError>)
    requires s.pool.Shaped() && (t, err) == TestMap(s, a, TEST_PAGE, TestPattern()) && err.Some?
    ensures RoundTrip(s, a, TEST_PAGE, TestPattern()) == (t, err)
  {
  }

  lemma {:induction false} TestActive(s: Sys, t: Sys, a: nat)
    requires SpaceOk(s, a) && s.cr3 == a && SelfLinked(s.mem, a) && Mappable(s, a, TEST_PAGE)
    requires (t, None) == TestMap(s, a, TEST_PAGE, TestPattern())
    ensures SpaceOk(t, a) && Window(t.mem, t.cr3, a) && !FrameFree(t, t.cr3)
  {
    TestMapCorrect(s, a, TEST_PAGE, TestPattern());
    RootInSpace(t, a);
  }

  lemma {:induction false} TestEnds(s: Sys, u: Sys, a: nat, r: Outcome<()>, err: Option<TestError>, t: Sys)
    requires s.pool.Shaped() && (u, None) == TestMap(s, a, TEST_PAGE, TestPattern())
    requires var (v, o) := Unmap(u, a, TEST_PAGE); r == o && (!r.Panicked? ==> t == v)
    requires err == match r case Done(_) => None case Failed(e) => Some(PageTable(e)) case Panicked => Some(TestPanic)
    ensures var (v, e) := RoundTrip(s, a, TEST_PAGE, TestPattern()); err == e && (err != Some(TestPanic) ==> t == v)
  {
  }

  // ----- init

  /** `init`. After a success the kernel runs in its own address space; from the boot state every answer comes exactly
      when its condition holds. Nothing is said about the state after a panic. */
  method Init(table: ActivePageTable, requests: seq<Request>, kBegin: nat, kEnd: nat, ghost a: nat)
    returns (err: Option<InitError>)
    requires table.Active(a) && Booted(table.View(), a, TestPattern()) && kBegin <= kEnd
    requires Plain(KernelList(requests, kBegin, kEnd))
    modifies table`mem, table`cr3, table.allocator.Repr
    ensures table.Valid()
    ensures InitIs(old(table.View()), table.View(), a, requests, kBegin, kEnd, err)
    ensures err == None ==> KernelSpace(table.View(), requests + [KernelRequest(kBegin, kEnd)])
    ensures forall n: nat :: Ready(old(table.View()), n) ==>
              BootAnswers(n, requests, kBegin, kEnd, err, CountFree(table.View().pool))
  {
    ghost var s := table.View();
    var tested := RuntimeTest(table, a);
    ghost var s1 := table.View();
    if tested.Some? {
      InitFails(s, s1, a, requests, kBegin, kEnd, tested.value);
      InitReady(s, s1, a, requests, kBegin, kEnd, Some(TestFailure(tested.value)));
      return Some(TestFailure(tested.value));
    }
    TestedSound(s, s1, a);
    err := BuildSpace(table, requests, kBegin, kEnd, a);
    InitGoesOn(s, s1, table.View(), a, requests, kBegin, kEnd, err);
    InitReady(s, table.View(), a, requests, kBegin, kEnd, err);
    InitCorrect(s, a, requests, kBegin, kEnd, TestPattern());
  }

  lemma {:induction false} InitReady(s: Sys, t: Sys, a: nat, requests: seq<Request>, kBegin: nat, kEnd: nat,
                                     err: Option<InitError>)
    requires s.pool.Shaped() && t.pool.Shaped() && s.cr3 == a && kBegin <= kEnd
    requires Plain(KernelList(requests, kBegin, kEnd)) && InitIs(s, t, a, requests, kBegin, kEnd, err)
    ensures forall n: nat :: Ready(s, n) ==> BootAnswers(n, requests, kBegin, kEnd, err, CountFree(t.pool))
  {
    forall n: nat | Ready(s, n) ensures BootAnswers(n, requests, kBegin, kEnd, err, CountFree(t.pool)) {
      ReadyRoot(s, n);
      InitAnswers(s, n, requests, kBegin, kEnd, TestPattern());
    }
  }

  lemma {:induction false} ReadyRoot(s: Sys, n: nat)
    requires Ready(s, n)
    ensures s.cr3 == BOOT_ROOT
  {
  }

  /** `init` in s ended in t with err. */
  ghost predicate InitIs(s: Sys, t: Sys, a: nat, requests: seq<Request>, kBegin: nat, kEnd: nat, err: Option<InitError>)
    requires s.pool.Shaped()
  {
    var (u, e) := KernelInit.Init(s, a, requests, kBegin, kEnd, TestPattern());
    err == e && (err != Some(InitPanic) ==> t == u)
  }

  /** ... and its part after the test. */
  ghost predicate BuildIs(s: Sys, t: Sys, a: nat, requests: seq<Request>, kBegin: nat, kEnd: nat,
                          err: Option<InitError>)
    requires s.pool.Shaped()
  {
    var (u, e) := Build(s, a, requests, kBegin, kEnd);
    err == e && (err != Some(InitPanic) ==> t == u)
  }

  /** `runtime_test` in s ended in t with the outcome `tested`. */
  ghost predicate TestIs(s: Sys, t: Sys, a: nat, tested: Option<TestError>)
    requires s.pool.Shaped()
  {
    var (u, e) := RoundTrip(s, a, TEST_PAGE, TestPattern());
    tested == e && (tested != Some(TestPanic) ==> t == u)
  }

  lemma {:induction false} TestedSound(s: Sys, t: Sys, a: nat)
    requires Booted(s, a, TestPattern()) && TestIs(s, t, a, None)
    ensures SpaceOk(t, a) && t.cr3 == a && SelfLinked(t.mem, a) && !FrameFree(t, a)
  {
    RoundTripCorrect(s, a, TEST_PAGE, TestPattern());
    RootInSpace(t, a);
  }

  lemma {:induction false} InitFails(s: Sys, t: Sys, a: nat, requests: seq<Request>, kBegin: nat, kEnd: nat,
                                     e: TestError)
    requires s.pool.Shaped() && TestIs(s, t, a, Some(e))
    ensures InitIs(s, t, a, requests, kBegin, kEnd, Some(TestFailure(e)))
  {
  }

  lemma {:induction false} InitGoesOn(s: Sys, s1: Sys, t: Sys, a: nat, requests: seq<Request>, kBegin: nat, kEnd: nat,
                                      err: Option<InitError>)
    requires s.pool.Shaped() && s1.pool.Shaped() && TestIs(s, s1, a, None)
             && BuildIs(s1, t, a, requests, kBegin, kEnd, err)
    ensures InitIs(s, t, a, requests, kBegin, kEnd, err)
  {
  }

  /** Make the new address space, fill it and switch to it. */
  method BuildSpace(table: ActivePageTable, requests: seq<Request>, kBegin: nat, kEnd: nat, ghost a: nat)
    returns (err: Option<InitError>)
    requires table.Active(a) && table.cr3 == a < MAX_FRAME && kBegin <= kEnd
    requires Plain(KernelList(requests, kBegin, kEnd))
    modifies table`mem, table`cr3, table.allocator.Repr
    ensures table.Valid() && BuildIs(old(table.View()), table.View(), a, requests, kBegin, kEnd, err)
  {
    ghost var s := table.View();
    if !KernelRange(kBegin, kEnd) {
      return Some(InitPanic);
    }
    var made := table.NewInactive(a);
    ghost var s1 := table.View();
    NewBuilds(s, s1, a, requests, kBegin, kEnd, made);
    match made {
      case Failed(e) =>
        err := Some(Tables(e));
      case Panicked =>
        err := Some(InitPanic);
      case Done(None) =>
        err := Some(NoMemory);
      case Done(Some(q)) =>
        var result := With(table, q, requests, kBegin, kEnd, a);
        ghost var t := table.View();
        match result {
          case Failed(e) =>
            err := Some(Tables(e));
          case Panicked =>
            err := Some(InitPanic);
          case Done(_) =>
            var previous := table.Switch(q);
            err := None;
        }
        FillEnds(s1, t, table.View(), a, q, requests, kBegin, kEnd, result, err);
    }
  }

  /** What `init` does with the outcome of `InActivePageTable::new`. */
  lemma {:induction false} NewBuilds(s: Sys, t: Sys, a: nat, requests: seq<Request>, kBegin: nat, kEnd: nat,
                                     made: Outcome<Option<nat>>)
    requires SpaceOk(s, a) && s.cr3 == a < MAX_FRAME && SelfLinked(s.mem, a) && KernelRange(kBegin, kEnd)
    requires Plain(KernelList(requests, kBegin, kEnd)) && t.pool.Shaped()
    requires var (u, o) := NewInactive(s, a); made == o && (!made.Panicked? ==> t == u)
    ensures match made
            case Failed(e) => BuildIs(s, t, a, requests, kBegin, kEnd, Some(Tables(e)))
            case Panicked => BuildIs(s, t, a, requests, kBegin, kEnd, Some(InitPanic))
            case Done(None) => BuildIs(s, t, a, requests, kBegin, kEnd, Some(NoMemory))
            case Done(Some(q)) =>
              && ReadyFor(t, a, q) && Acceptable(t, q, KernelList(requests, kBegin, kEnd))
              && Window(t.mem, t.cr3, a) && !FrameFree(t, t.cr3)
              && Build(s, a, requests, kBegin, kEnd) == Fill(t, a, q, requests, kBegin, kEnd)
  {
    NewInactiveCorrect(s, a);
    if made.Done? && made.value.Some? {
      FreshAcceptable(t, made.value.value, KernelList(requests, kBegin, kEnd));
      RootInSpace(t, a);
    }
  }

  lemma {:induction false} FillEnds(s: Sys, t: Sys, u: Sys, a: nat, q: nat, requests: seq<Request>, kBegin: nat,
                                    kEnd: nat, r: Outcome<()>, err: Option<InitError>)
    requires s.pool.Shaped() && kBegin <= kEnd && WithIs(s, t, a, q, requests, kBegin, kEnd, r)
    requires match r
             case Failed(e) => u == t && err == Some(Tables(e))
             case Panicked => err == Some(InitPanic)
             case Done(_) => u == AddressSpaces.Switch(t, q) && err == None
    ensures var (v, e) := Fill(s, a, q, requests, kBegin, kEnd); err == e && (err != Some(InitPanic) ==> u == v)
  {
  }
}
