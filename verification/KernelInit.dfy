/**
 The boot-time switch to the kernel's own address space.
 */
module KernelInit {
  import opened Frames
  import opened Wrappers
  import opened BuddyCorrect
  import opened PageTables
  import opened PageLink
  import opened PageMap
  import opened PageScan
  import opened PageOps
  import opened PageUnmap
  import opened AddressSpaces

  /** KERNEL_ADDR_VIRTUAL_OFFSET of the linker script. */
  const KERNEL_OFFSET: nat := 0xFFFF_8000_0000_0000

  /** ... in pages. */
  const OFFSET_PAGES: nat := 0xF_FFF8_0000_0000

  /** `count` frames from a physical frame number on, to appear at their address plus the kernel offset. */
  datatype Request = Request(frame: nat, count: nat)

  /** The mappings of all requests in turn. */
  function Wanted(requests: seq<Request>): (l: seq<Mapping>)
    ensures Pages(l)
  {
    if requests == [] then []
    else
      var r := requests[0];
      Joined(Range(OFFSET_PAGES + r.frame, r.frame, r.count), Wanted(requests[1..]))
  }

  function Joined(a: seq<Mapping>, b: seq<Mapping>): (l: seq<Mapping>)
    requires Pages(a) && Pages(b)
    ensures Pages(l) && l == a + b
  {
    var l := a + b;
    assert forall j :: 0 <= j < |l| ==> l[j] == if j < |a| then a[j] else b[j - |a|];
    l
  }

  /** The page `runtime_test` uses: address 0x200000. */
  const TEST_PAGE: seq<Slot> := [0, 0, 1, 0]

  /** Why `init` fails: no memory, an error from the page tables, or a panic. */
  datatype InitError = NoMemory | Tables(error: Error) | InitPanic

  /** Page-aligned, not empty. */
  predicate KernelRange(kBegin: nat, kEnd: nat) {
    kBegin < kEnd && kBegin % FRAME == 0 && kEnd % FRAME == 0
  }

  function KernelRequest(kBegin: nat, kEnd: nat): Request
    requires kBegin <= kEnd
  {
    Request(kBegin / FRAME, (kEnd - kBegin) / FRAME)
  }

  /** `init` with the physical range of the kernel. The closure given to `with` maps the remap requests and
      then the kernel with `map_fitting`, which panics from 2 MB on. */
  ghost function Init(s: Sys, a: nat, requests: seq<Request>, kBegin: nat, kEnd: nat, junk: seq<nat>)
    : (r: (Sys, Option<InitError>))
    requires s.pool.Shaped()
    ensures r.0.pool.Shaped()
  {
    var (s1, err) := RoundTrip(s, a, TEST_PAGE, junk);
    match err
    case Some(e) => (s1, Some(TestFailure(e)))
    case None => Build(s1, a, requests, kBegin, kEnd)
  }

  function TestFailure(e: TestError): InitError {
    match e case NoUsableMemory => NoMemory case PageTable(x) => Tables(x) case TestPanic => InitPanic
  }

  /** `init` after the map and unmap test. */
  ghost function Build(s: Sys, a: nat, requests: seq<Request>, kBegin: nat, kEnd: nat): (r: (Sys, Option<InitError>))
    requires s.pool.Shaped()
    ensures r.0.pool.Shaped()
  {
    if !KernelRange(kBegin, kEnd) then (s, Some(InitPanic))
    else
      var (s1, made) := NewInactive(s, a);
      match made
      case Failed(e) => (s1, Some(Tables(e)))
      case Panicked => (s1, Some(InitPanic))
      case Done(None) => (s1, Some(NoMemory))
      case Done(Some(q)) => Fill(s1, a, q, requests, kBegin, kEnd)
  }

  ghost function Fill(s: Sys, a: nat, q: nat, requests: seq<Request>, kBegin: nat, kEnd: nat)
    : (r: (Sys, Option<InitError>))
    requires s.pool.Shaped() && kBegin <= kEnd
    ensures r.0.pool.Shaped()
  {
    var (t, r) := WithKernel(s, a, q, requests, kBegin, kEnd);
    match r
    case Failed(e) => (t, Some(Tables(e)))
    case Panicked => (t, Some(InitPanic))
    case Done(_) => (Switch(t, q), None)
  }

  /** The kernel is smaller than 2 MB, so that `map_fitting` can map it. */
  predicate Fits2MB(kBegin: nat, kEnd: nat)
    requires kBegin <= kEnd
  {
    (kEnd - kBegin) / 0x20_0000 == 0
  }

  /** The requests the closure gets to: the kernel's is the last one, if `map_fitting` can map it. */
  function Asked(requests: seq<Request>, kBegin: nat, kEnd: nat): seq<Request>
    requires kBegin <= kEnd
  {
    if Fits2MB(kBegin, kEnd) then requests + [KernelRequest(kBegin, kEnd)] else requests
  }

  /** What the closure maps before it ends or panics. */
  function KernelList(requests: seq<Request>, kBegin: nat, kEnd: nat): (l: seq<Mapping>)
    requires kBegin <= kEnd
    ensures Pages(l)
  {
    Wanted(Asked(requests, kBegin, kEnd))
  }

  /** `with` and the closure of `init`. */
  ghost function WithKernel(s: Sys, a: nat, q: nat, requests: seq<Request>, kBegin: nat, kEnd: nat)
    : (r: (Sys, Outcome<()>))
    requires s.pool.Shaped() && kBegin <= kEnd
    ensures r.0.pool.Shaped()
  {
    var (t, r) := With(s, a, q, KernelList(requests, kBegin, kEnd));
    (t, if r.Done? && !Fits2MB(kBegin, kEnd) then Panicked else r)
  }

  /** No wanted page uses a self slot above the last level, and every frame is addressable. */
  predicate Plain(l: seq<Mapping>)
    requires Pages(l)
  {
    forall j :: 0 <= j < |l| ==> Ordinary(l[j].page[..3]) && l[j].frame < MAX_FRAME
  }

  /** Boot conditions: a is the active address space, the test page is not behind a huge page, and giving the
      test frame back is safe. */
  ghost predicate Booted(s: Sys, a: nat, junk: seq<nat>) {
    && SpaceOk(s, a) && s.cr3 == a && SelfLinked(s.mem, a) && a < MAX_FRAME
    && Mappable(s, a, TEST_PAGE) && |junk| == ENTRIES
    && var (u, err) := TestMap(s, a, TEST_PAGE, junk); err == None ==> ReleaseOk(u, a, TEST_PAGE)
  }

  /** Some request covers frame f. */
  predicate Requested(requests: seq<Request>, f: nat) {
    exists j :: 0 <= j < |requests| && requests[j].frame <= f < requests[j].frame + requests[j].count
  }

  /** m puts its frame at its address plus the kernel offset. */
  predicate AtOffset(m: Mapping) {
    m.page == PageOf(OFFSET_PAGES + m.frame)
  }

  /** ... and its frame is requested. */
  predicate Due(requests: seq<Request>, m: Mapping) {
    AtOffset(m) && Requested(requests, m.frame)
  }

  lemma {:induction false} WantedExactly(requests: seq<Request>)
    ensures var l := Wanted(requests);
            && (forall j :: 0 <= j < |l| ==> Due(requests, l[j]))
            && (forall f: nat :: Requested(requests, f) ==> exists j :: 0 <= j < |l| && l[j].frame == f)
    decreases requests
  {
    if requests != [] {
      WantedExactly(requests[1..]);
      WantedOnly(requests);
      forall f: nat | Requested(requests, f)
        ensures exists j :: 0 <= j < |Wanted(requests)| && Wanted(requests)[j].frame == f
      {
        WantedAt(requests, f);
      }
    }
  }

  lemma {:induction false} WantedOnly(requests: seq<Request>)
    requires requests != []
    requires var b := Wanted(requests[1..]); forall k :: 0 <= k < |b| ==> Due(requests[1..], b[k])
    ensures var l := Wanted(requests); forall j :: 0 <= j < |l| ==> Due(requests, l[j])
  {
    forall j | 0 <= j < |Wanted(requests)| ensures Due(requests, Wanted(requests)[j]) {
      var m, c := Wanted(requests)[j], requests[0].count;
      WantedItem(requests, j);
      if j < c {
        RangeDue(requests, j);
      } else {
        DueLater(requests, Wanted(requests[1..])[j - c]);
      }
    }
  }

  lemma {:induction false} WantedItem(requests: seq<Request>, j: nat)
    requires requests != [] && j < |Wanted(requests)|
    ensures var r := requests[0];
            if j < r.count then Wanted(requests)[j] == Range(OFFSET_PAGES + r.frame, r.frame, r.count)[j]
            else j - r.count < |Wanted(requests[1..])| && Wanted(requests)[j] == Wanted(requests[1..])[j - r.count]
  {
    var r := requests[0];
    var a, b := Range(OFFSET_PAGES + r.frame, r.frame, r.count), Wanted(requests[1..]);
    assert Wanted(requests) == a + b;
    assert (a + b)[j] == if j < |a| then a[j] else b[j - |a|];
  }

  lemma {:induction false} RangeDue(requests: seq<Request>, j: nat)
    requires requests != [] && j < requests[0].count
    ensures Due(requests, Range(OFFSET_PAGES + requests[0].frame, requests[0].frame, requests[0].count)[j])
  {
    var f := requests[0].frame;
    assert OFFSET_PAGES + f + j == OFFSET_PAGES + (f + j);
    RequestedCons(requests, f + j);
  }

  lemma {:induction false} DueLater(requests: seq<Request>, m: Mapping)
    requires requests != [] && Due(requests[1..], m)
    ensures Due(requests, m)
  {
    RequestedCons(requests, m.frame);
  }

  lemma {:induction false} RequestedCons(requests: seq<Request>, f: nat)
    requires requests != []
    ensures Requested(requests, f) <==>
            Requested(requests[1..], f) || requests[0].frame <= f < requests[0].frame + requests[0].count
  {
    if Requested(requests[1..], f) {
      var j :| 0 <= j < |requests[1..]|
        && requests[1..][j].frame <= f < requests[1..][j].frame + requests[1..][j].count;
      assert requests[j + 1] == requests[1..][j];
    }
    if Requested(requests, f) {
      var j :| 0 <= j < |requests| && requests[j].frame <= f < requests[j].frame + requests[j].count;
      if 0 < j {
        assert requests[1..][j - 1] == requests[j];
      }
    }
  }

  lemma {:induction false} WantedAt(requests: seq<Request>, f: nat)
    requires requests != [] && Requested(requests, f)
    requires Requested(requests[1..], f) ==>
             exists j :: 0 <= j < |Wanted(requests[1..])| && Wanted(requests[1..])[j].frame == f
    ensures exists j :: 0 <= j < |Wanted(requests)| && Wanted(requests)[j].frame == f
  {
    RequestedCons(requests, f);
    var l, r := Wanted(requests), requests[0];
    var a, b := Range(OFFSET_PAGES + r.frame, r.frame, r.count), Wanted(requests[1..]);
    assert l == a + b;
    if r.frame <= f < r.frame + r.count {
      assert l[f - r.frame] == a[f - r.frame];
    } else {
      var j :| 0 <= j < |b| && b[j].frame == f;
      assert l[|a| + j] == b[j];
    }
  }

  /** The address space the kernel runs in after a successful `init`: an ordinary page is mapped exactly when it
      is a requested frame's address plus the kernel offset, and then to that frame. No wanted page occurs
      twice, and the tables form a tree of allocated frames with its recursive slot in place. */
  ghost predicate KernelSpace(t: Sys, requests: seq<Request>) {
    && SpaceOk(t, t.cr3) && SelfLinked(t.mem, t.cr3)
    && (forall idx: seq<Slot>, f: nat :: |idx| == 4 && Ordinary(idx) ==>
          (Lookup(t.mem, t.cr3, idx) == Some(f) <==> Requested(requests, f) && idx == PageOf(OFFSET_PAGES + f)))
  }

  lemma {:induction false} FreshAcceptable(s: Sys, q: nat, l: seq<Mapping>)
    requires IsFresh(Tab(s.mem, q), q) && Pages(l) && Plain(l)
    ensures Acceptable(s, q, l)
  {
    FreshLooped(s.mem, q);
    forall j | 0 <= j < |l| ensures Addressable(s, q, l[j].page) {
      FreshBelow(s.mem, q, l[j].page[..3]);
    }
  }

  /** An empty address space has no last-level tables. */
  lemma {:induction false} FreshLooped(m: Memory, q: nat)
    requires IsFresh(Tab(m, q), q)
    ensures Looped(m, q)
  {
    FreshSlots(Tab(m, q), q);
    forall r: seq<Slot> | Ordinary(r) ensures Follow(m, q, r) == if r == [] then Some(q) else None {
    }
  }

  lemma {:induction false} FillCorrect(s: Sys, t: Sys, a: nat, q: nat, requests: seq<Request>, kBegin: nat, kEnd: nat)
    requires Inv(s.pool) && Prepared(s, t, a, q) && t.cr3 == a && a < MAX_FRAME && kBegin <= kEnd
    requires Plain(KernelList(requests, kBegin, kEnd))
    ensures var (u, err) := Fill(t, a, q, requests, kBegin, kEnd);
            err == None ==> KernelSpace(u, requests + [KernelRequest(kBegin, kEnd)])
  {
    FillUnfolds(t, a, q, requests, kBegin, kEnd);
    if Fits2MB(kBegin, kEnd) {
      WithBuilds(s, t, a, q, requests + [KernelRequest(kBegin, kEnd)]);
    }
  }

  /** Filling succeeds exactly when the kernel fits and `with` succeeds, and then switches. */
  lemma {:induction false} FillUnfolds(s: Sys, a: nat, q: nat, requests: seq<Request>, kBegin: nat, kEnd: nat)
    requires s.pool.Shaped() && kBegin <= kEnd
    ensures var (u, err) := Fill(s, a, q, requests, kBegin, kEnd);
            var (t, r) := With(s, a, q, Wanted(requests + [KernelRequest(kBegin, kEnd)]));
            (err == None <==> Fits2MB(kBegin, kEnd) && r.Done?) && (err == None ==> u == Switch(t, q))
  {
  }

  lemma {:induction false} WithBuilds(s: Sys, t: Sys, a: nat, q: nat, rs: seq<Request>)
    requires Inv(s.pool) && Prepared(s, t, a, q) && t.cr3 == a && a < MAX_FRAME && Plain(Wanted(rs))
    ensures var (u, r) := With(t, a, q, Wanted(rs)); r.Done? ==> KernelSpace(Switch(u, q), rs)
  {
    var l := Wanted(rs);
    FreshAcceptable(t, q, l);
    var k := WithCorrect(t, a, q, l);
    var (u, r) := With(t, a, q, l);
    if r.Done? {
      BuiltFrom(t, u, a, q, rs);
    }
  }

  lemma {:induction false} BuiltFrom(t: Sys, u: Sys, a: nat, q: nat, rs: seq<Request>)
    requires SpaceOk(t, q) && IsFresh(Tab(t.mem, q), q) && q < MAX_FRAME && Plain(Wanted(rs))
    requires WithDone(t, u, a, q, Wanted(rs), |Wanted(rs)|)
    ensures KernelSpace(Switch(u, q), rs)
  {
    var l := Wanted(rs);
    assert l[..|l|] == l;
    RootInSpace(t, q);
    FreshSpace(t, q);
    SpaceBuilt(t, Switch(u, q), q, rs);
  }

  lemma {:induction false} RootInSpace(t: Sys, q: nat)
    requires SpaceOk(t, q)
    ensures !FrameFree(t, q)
  {
    assert Follow(t.mem, q, []) == Some(q) && Node(t.mem, q, []) && At(t.mem, q, []) == q;
  }

  lemma {:induction false} SpaceBuilt(t: Sys, u: Sys, q: nat, rs: seq<Request>)
    requires SpaceOk(u, q) && SelfLinked(u.mem, q) && u.cr3 == q && Plain(Wanted(rs))
    requires Extends(t.mem, u.mem, q, Wanted(rs)) && AllNewIn(t.mem, q, Wanted(rs))
    requires forall page: seq<Slot> :: |page| == 4 && Ordinary(page) ==> Lookup(t.mem, q, page) == None
    ensures KernelSpace(u, rs)
  {
    forall idx: seq<Slot>, f: nat | |idx| == 4 && Ordinary(idx)
      ensures Lookup(u.mem, q, idx) == Some(f) <==> Requested(rs, f) && idx == PageOf(OFFSET_PAGES + f)
    {
      WantedAssigned(rs, idx, f);
    }
  }

  lemma {:induction false} WantedAssigned(rs: seq<Request>, idx: seq<Slot>, f: nat)
    requires forall i, j :: 0 <= i < j < |Wanted(rs)| ==> Wanted(rs)[i].page != Wanted(rs)[j].page
    ensures Assigned(Wanted(rs), idx) == Some(f) <==> Requested(rs, f) && idx == PageOf(OFFSET_PAGES + f)
  {
    if Assigned(Wanted(rs), idx) == Some(f) {
      AssignedIsWanted(rs, idx, f);
    }
    if Requested(rs, f) && idx == PageOf(OFFSET_PAGES + f) {
      WantedIsAssigned(rs, f);
    }
  }

  lemma {:induction false} AssignedIsWanted(rs: seq<Request>, idx: seq<Slot>, f: nat)
    requires Assigned(Wanted(rs), idx) == Some(f)
    ensures Requested(rs, f) && idx == PageOf(OFFSET_PAGES + f)
  {
    WantedExactly(rs);
    var j := AssignedIn(Wanted(rs), idx);
    assert Due(rs, Wanted(rs)[j]);
  }

  lemma {:induction false} WantedIsAssigned(rs: seq<Request>, f: nat)
    requires forall i, j :: 0 <= i < j < |Wanted(rs)| ==> Wanted(rs)[i].page != Wanted(rs)[j].page
    requires Requested(rs, f)
    ensures Assigned(Wanted(rs), PageOf(OFFSET_PAGES + f)) == Some(f)
  {
    var j := WantedIndex(rs, f);
    AssignedAt(Wanted(rs), j);
  }

  lemma {:induction false} WantedIndex(rs: seq<Request>, f: nat) returns (j: nat)
    requires Requested(rs, f)
    ensures j < |Wanted(rs)| && Wanted(rs)[j] == Mapping(PageOf(OFFSET_PAGES + f), f)
  {
    WantedExactly(rs);
    j :| 0 <= j < |Wanted(rs)| && Wanted(rs)[j].frame == f;
    assert Due(rs, Wanted(rs)[j]);
  }

  /** The main result of the boot sequence. */
  lemma {:induction false} InitCorrect(s: Sys, a: nat, requests: seq<Request>, kBegin: nat, kEnd: nat, junk: seq<nat>)
    requires Booted(s, a, junk) && kBegin <= kEnd
    requires Plain(KernelList(requests, kBegin, kEnd))
    ensures var (t, err) := Init(s, a, requests, kBegin, kEnd, junk);
            err == None ==> KernelSpace(t, requests + [KernelRequest(kBegin, kEnd)])
  {
    RoundTripCorrect(s, a, TEST_PAGE, junk);
    var (s1, err) := RoundTrip(s, a, TEST_PAGE, junk);
    if err == None {
      NewInactiveCorrect(s1, a);
      var (s2, made) := NewInactive(s1, a);
      if made.Done? && made.value.Some? {
        FillCorrect(s1, s2, a, made.value.value, requests, kBegin, kEnd);
      }
    }
  }

  // ----- failures

  /** The root a is still active and sound, and whatever was translated before still is, in the same way. */
  ghost predicate StillActive(s: Sys, t: Sys, a: nat) {
    && SpaceOk(t, a) && t.cr3 == a && SelfLinked(t.mem, a)
    && forall page: seq<Slot> :: |page| == 4 && Ordinary(page) && Lookup(s.mem, a, page).Some? ==>
         Lookup(t.mem, a, page) == Lookup(s.mem, a, page)
  }

  /** An `init` that answers an error leaves the kernel in the address space of the boot code, with all its
      translations. */
  lemma {:induction false} FailureKeepsBootSpace(s: Sys, a: nat, requests: seq<Request>, kBegin: nat, kEnd: nat,
                                                 junk: seq<nat>)
    requires Booted(s, a, junk) && kBegin <= kEnd && Plain(KernelList(requests, kBegin, kEnd))
    ensures var (t, err) := Init(s, a, requests, kBegin, kEnd, junk);
            err.Some? && err != Some(InitPanic) ==> StillActive(s, t, a)
  {
    RoundTripCorrect(s, a, TEST_PAGE, junk);
    var (s1, err) := RoundTrip(s, a, TEST_PAGE, junk);
    assert StillActive(s, s1, a);
    if err == None {
      BuildFails(s1, a, requests, kBegin, kEnd);
      StillActiveTrans(s, s1, Build(s1, a, requests, kBegin, kEnd).0, a);
    }
  }

  lemma {:induction false} StillActiveTrans(s: Sys, t: Sys, u: Sys, a: nat)
    requires StillActive(s, t, a)
    ensures StillActive(t, u, a) ==> StillActive(s, u, a)
  {
  }

  lemma {:induction false} BuildFails(s: Sys, a: nat, requests: seq<Request>, kBegin: nat, kEnd: nat)
    requires SpaceOk(s, a) && s.cr3 == a && SelfLinked(s.mem, a) && a < MAX_FRAME
    requires kBegin <= kEnd && Plain(KernelList(requests, kBegin, kEnd))
    ensures var (t, err) := Build(s, a, requests, kBegin, kEnd);
            err.Some? && err != Some(InitPanic) ==> StillActive(s, t, a)
  {
    if KernelRange(kBegin, kEnd) {
      NewInactiveCorrect(s, a);
      var (t, made) := NewInactive(s, a);
      if made.Done? && made.value.Some? {
        PreparedActive(s, t, a, made.value.value);
        FillFails(t, a, made.value.value, requests, kBegin, kEnd);
        StillActiveTrans(s, t, Fill(t, a, made.value.value, requests, kBegin, kEnd).0, a);
      }
    }
  }

  lemma {:induction false} PreparedActive(s: Sys, t: Sys, a: nat, q: nat)
    requires SpaceOk(s, a) && s.cr3 == a && SelfLinked(s.mem, a) && Prepared(s, t, a, q)
    ensures StillActive(s, t, a)
  {
    NewPageUnmapped(s.mem, a);
  }

  lemma {:induction false} NewPageUnmapped(m: Memory, a: nat)
    requires SelfLinked(m, a)
    ensures var i := FirstFree(Tab(m, a), 1); i < ENTRIES ==> Lookup(m, a, [i, 1, 1, 1]) == None
  {
    if FirstFree(Tab(m, a), 1) < ENTRIES {
      FreeSlotUnmapped(m, a, FirstFree(Tab(m, a), 1));
    }
  }

  lemma {:induction false} FillFails(s: Sys, a: nat, q: nat, requests: seq<Request>, kBegin: nat, kEnd: nat)
    requires ReadyFor(s, a, q) && kBegin <= kEnd && Plain(KernelList(requests, kBegin, kEnd))
    requires IsFresh(Tab(s.mem, q), q)
    ensures var (t, err) := Fill(s, a, q, requests, kBegin, kEnd);
            err.Some? && err != Some(InitPanic) ==> StillActive(s, t, a)
  {
    FreshAcceptable(s, q, KernelList(requests, kBegin, kEnd));
    WithFails(s, a, q, KernelList(requests, kBegin, kEnd));
  }

  lemma {:induction false} WithFails(s: Sys, a: nat, q: nat, l: seq<Mapping>)
    requires ReadyFor(s, a, q) && Pages(l) && Acceptable(s, q, l)
    ensures With(s, a, q, l).1.Failed? ==> StillActive(s, With(s, a, q, l).0, a)
  {
    var k := WithCorrect(s, a, q, l);
    NewPageUnmapped(s.mem, a);
  }
}
