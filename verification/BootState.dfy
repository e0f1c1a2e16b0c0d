/**
 The tables the boot code leaves behind, with the allocator `new` builds: they
 meet every condition the boot sequence needs, so its main result holds from
 the real starting point.
 */
module BootState {
  import opened Wrappers
  import opened Bits
  import opened Blocks
  import opened BuddySystem
  import opened BuddyCanon
  import opened BuddyCorrect
  import opened BuddyFree
  import opened BuddyCount
  import opened BuddyNew
  import opened PageTables
  import opened PageLink
  import opened PageMap
  import opened PageUnmap
  import opened KernelInit
  import opened PageRun

  const BOOT_ROOT: nat := 1
  const BOOT_LEVEL3: nat := 3

  /** A root with one table, for the upper half, and its recursive slot; the table maps the first gigabyte with
      one huge page. The entry for the lower half is cleared again before the kernel starts. */
  predicate BootTables(m: Memory) {
    && Tab(m, BOOT_ROOT) == ZeroTable()[256 := 0x3003][511 := 0x1003]
    && Tab(m, BOOT_LEVEL3) == ZeroTable()[0 := 0x83]
  }

  lemma {:induction false} BootWords()
    ensures WordOk(0x3003) && WordOk(0x1003) && WordOk(0x83) && WordOk(0)
    ensures IsPresent(0x3003) && !IsHuge(0x3003) && FrameOf(0x3003) == BOOT_LEVEL3
    ensures IsPresent(0x1003) && !IsHuge(0x1003) && FrameOf(0x1003) == BOOT_ROOT
    ensures IsPresent(0x83) && IsHuge(0x83) && FrameOf(0x83) == 0 && !IsPresent(0)
  {
  }

  lemma {:induction false} BootNext(m: Memory, i: Slot)
    requires BootTables(m)
    ensures Next(m, BOOT_ROOT, i) == if i == 256 then Some(BOOT_LEVEL3) else if i == SELF then Some(BOOT_ROOT) else None
    ensures Next(m, BOOT_LEVEL3, i) == None
    ensures WordOk(Entry(m, BOOT_ROOT, i)) && WordOk(Entry(m, BOOT_LEVEL3, i))
  {
    BootWords();
  }

  lemma {:induction false} BootFollow(m: Memory, p: seq<Slot>)
    requires BootTables(m) && Ordinary(p)
    ensures Follow(m, BOOT_ROOT, p) ==
            if p == [] then Some(BOOT_ROOT) else if p == [256] then Some(BOOT_LEVEL3) else None
  {
    if p != [] {
      BootNext(m, p[0]);
      if p[0] == 256 && p[1..] != [] {
        BootNext(m, p[1..][0]);
      }
      assert p[1..] == [] ==> p == [p[0]];
    }
  }

  /** The boot tables are a sound address space, and the page the boot test uses is not behind a huge page. */
  lemma {:induction false} BootSpace(s: Sys)
    requires BootTables(s.mem) && s.cr3 == BOOT_ROOT && PoolOk(s) && BOOT_LEVEL3 < s.base
    ensures Start(s) && Mappable(s, BOOT_ROOT, TEST_PAGE) && Missing(s.mem, BOOT_ROOT, TEST_PAGE[..3]) == 3
  {
    forall a: seq<Slot> | Node(s.mem, BOOT_ROOT, a)
      ensures a == (if At(s.mem, BOOT_ROOT, a) == BOOT_ROOT then [] else [256])
              && At(s.mem, BOOT_ROOT, a) <= BOOT_LEVEL3
    {
      BootFollow(s.mem, a);
    }
    forall a: seq<Slot>, i: Slot | Node(s.mem, BOOT_ROOT, a) ensures WordOk(Entry(s.mem, At(s.mem, BOOT_ROOT, a), i)) {
      BootFollow(s.mem, a);
      BootNext(s.mem, i);
    }
    BootTree(s);
    BootNext(s.mem, SELF);
    BootTestPage(s.mem);
  }

  lemma {:induction false} BootTree(s: Sys)
    requires PoolOk(s)
    requires forall a: seq<Slot> :: Node(s.mem, BOOT_ROOT, a) ==>
               a == (if At(s.mem, BOOT_ROOT, a) == BOOT_ROOT then [] else [256]) && At(s.mem, BOOT_ROOT, a) < s.base
    requires WordsOk(s.mem, BOOT_ROOT)
    ensures SpaceOk(s, BOOT_ROOT)
  {
    forall a: seq<Slot> | Node(s.mem, BOOT_ROOT, a) ensures !FrameFree(s, At(s.mem, BOOT_ROOT, a)) {
    }
  }

  lemma {:induction false} BootTestPage(m: Memory)
    requires BootTables(m)
    ensures Ordinary(TEST_PAGE) && HugeFree(m, BOOT_ROOT, TEST_PAGE[..3]) && Missing(m, BOOT_ROOT, TEST_PAGE[..3]) == 3
  {
    BootNext(m, 0);
    BootWords();
    assert TEST_PAGE[..3][0] == 0;
  }

  /** The kernel's half: the first gigabyte, by one huge page. */
  lemma {:induction false} BootKernelHalf(m: Memory, b: Slot, c: Slot)
    requires BootTables(m)
    ensures Lookup(m, BOOT_ROOT, [256, 0, b, c]) == Some(b as nat * 512 + c as nat)
  {
    BootWords();
    assert [256, 0, b, c][1..] == [0, b, c] && [0, b, c][1..] == [b, c];
  }

  // ----- giving the test frame back

  /** The first frame a new allocator hands out either has no managed buddy, or the next one handed out is its
      buddy. */
  lemma {:induction false} SecondIsBuddy(order: seq<nat>, used: seq<bool>, p1: Pool, h: nat)
    requires |order| == |used| && Allocate(New(order, used), 0) == (p1, Some(h))
    ensures Inv(p1) && Live(p1) == map[h := 0]
    ensures NextIsBuddy(p1, h)
  {
    var p := New(order, used);
    NewCorrect(order, used);
    AllocateCorrect(p, 0);
    var r := BuddyOf(p1, h, 0);
    if r.Some? {
      FreeBuddy(p1, h, r.value);
      StockFromSplit(p, p1, h);
      OnlyBuddy(p1, h, r.value);
    }
  }

  /** With one live frame, its managed buddy is a free block of its own. */
  lemma {:induction false} FreeBuddy(p: Pool, h: nat, b: nat)
    requires Inv(p) && Live(p) == map[h := 0] && BuddyOf(p, h, 0) == Some(b)
    ensures b == Flip(h, 0) && b != h && b in p.lists[0]
  {
    var H := Heads(p);
    assert h in Live(p);
    assert p.SetOrder(h, 0).Mark(h, true) == p;
    BuddyIsHead(p, H, h, 0);
    assert b !in Live(p);
    assert ListExact(p, H, 0);
  }

  /** If order 0 is stocked after the first allocation, it was not before, and the number of frames is even. */
  lemma {:induction false} StockFromSplit(p: Pool, p1: Pool, h: nat)
    requires Inv(p) && Allocate(p, 0) == (p1, Some(h)) && p.counts[0] == |p.lists[0]| == GreedyCount(p.Size(), 0)
             && p1.lists[0] != []
    ensures p.Size() % 2 == 0
  {
    assert Pow2(0) == 1;
    StockShrinks(p, p1, h);
  }

  lemma {:induction false} StockShrinks(p: Pool, p1: Pool, h: nat)
    requires p.Shaped() && Allocate(p, 0) == (p1, Some(h))
    ensures p.lists[0] != [] ==> |p1.lists[0]| == |p.lists[0]| - 1
  {
    if p.lists[0] != [] {
      assert FirstStocked(p, 0) == 0;
      WithoutIn(p.lists[0], h, h);
      assert p1.lists[0] == Without(p.lists[0], h);
    }
  }

  /** With one live frame and an even number of frames, nothing but its buddy is free on its own. */
  lemma {:induction false} OnlyBuddy(p: Pool, h: nat, b: nat)
    requires Inv(p) && Live(p) == map[h := 0] && b == Flip(h, 0) && b in p.lists[0] && p.Size() % 2 == 0
    ensures Allocate(p, 0).1 == Some(b)
  {
    var c := p.lists[0][0];
    assert c in p.lists[0];
    LoneFrame(p, h, c);
    assert FirstStocked(p, 0) == 0;
  }

  lemma {:induction false} LoneFrame(p: Pool, h: nat, c: nat)
    requires Inv(p) && Live(p) == map[h := 0] && p.Size() % 2 == 0 && c in p.lists[0]
    ensures c == Flip(h, 0)
  {
    assert Pow2(0) == 1 && Pow2(1) == 2;
    var H := Heads(p);
    CanonicalForm(p, H, c, 0);
    Buddies(c, 0);
    var lo := Min(c, Flip(c, 0));
    assert !FreeRange(p, lo, 1);
    var y :| InBlock(lo, 1, y) && !FreeAt(p, y);
    assert InBlock(c, 0, c);
    assert y == Flip(c, 0);
    assert ListExact(p, H, 0);
    FreeXorOccupied(p, y);
    var g: nat :| g in Live(p) && InBlock(g, Live(p)[g], y);
    assert g == h == y;
  }

  /** Blocks live after the first table of a `map` was created are live when it is over. */
  lemma {:induction false} MapKeepsLive(s: Sys, s1: Sys, t: Sys, q: nat, idx: seq<Slot>, f: nat)
    requires SpaceOk(s, q) && Mappable(s, q, idx) && Next(s.mem, q, idx[0]).None? && f < MAX_FRAME
    requires CreateNext(s, q, idx[0]).0 == s1 && Map(s, q, idx, f).0 == t && Map(s, q, idx, f).1.Ok?
    ensures Inv(s1.pool) && Inv(t.pool) && forall h :: h in Live(s1.pool) ==> h in Live(t.pool)
  {
    var path, root: seq<Slot> := idx[..3], [];
    DescendMapped(s, q, idx);
    DescendStep(s, q, root, path);
    MapPool(s, q, idx, f, CreateNext(s, q, idx[0]).1);
    RestKeepsLive(s1, q, root + [idx[0]], path[1..]);
  }

  lemma {:induction false} MapPool(s: Sys, q: nat, idx: seq<Slot>, f: nat, next: Option<nat>)
    requires s.pool.Shaped() && |idx| == 4 && next == CreateNext(s, q, idx[0]).1 && Map(s, q, idx, f).1.Ok?
    ensures next.Some? && Map(s, q, idx, f).0.pool ==
             Descend(CreateNext(s, q, idx[0]).0, next.value, idx[..3][1..]).0.pool
  {
  }

  lemma {:induction false} RestKeepsLive(s: Sys, q: nat, p: seq<Slot>, path: seq<Slot>)
    requires SpaceOk(s, q) && Node(s.mem, q, p) && |p| + |path| <= 3 && Ordinary(path)
             && HugeFree(s.mem, At(s.mem, q, p), path)
    ensures var t := Descend(s, At(s.mem, q, p), path).0;
            Inv(t.pool) && forall h :: h in Live(s.pool) ==> h in Live(t.pool)
  {
    DescendCorrect(s, q, p, path);
  }

  /** When the test runs with a new allocator, giving its frame back is always safe. */
  lemma {:induction false} BootReleases(s: Sys, q: nat, idx: seq<Slot>, order: seq<nat>, used: seq<bool>,
                                        junk: seq<nat>)
    requires SpaceOk(s, q) && Mappable(s, q, idx) && Next(s.mem, q, idx[0]).None? && |junk| == ENTRIES
    requires |order| == |used| && s.pool == New(order, used)
    ensures var (u, err) := TestMap(s, q, idx, junk); err == None ==> ReleaseOk(u, q, idx)
  {
    var (u, err) := TestMap(s, q, idx, junk);
    if err == None {
      var s1, s2, f := TestSteps(s, q, idx, junk);
      FrameTaken(s, s1, q, f);
      SecondFrame(s, s1, order, used, f, f - s.base);
      BuddyTaken(s1, s2, q, idx, f, f - s.base);
      TestReleases(s, s1, s2, q, idx, f, junk);
    }
  }

  /** The steps of the mapping half of the test. */
  lemma {:induction false} TestSteps(s: Sys, q: nat, idx: seq<Slot>, junk: seq<nat>) returns (s1: Sys, s2: Sys, f: nat)
    requires s.pool.Shaped() && |idx| == 4 && TestMap(s, q, idx, junk).1 == None
    ensures s1.pool.Shaped() && AllocOne(s) == (s1, Some(f)) && Map(s1, q, idx, f) == (s2, Ok(()))
    ensures TestMap(s, q, idx, junk).0 == s2.(mem := s2.mem[f := junk])
  {
    s1, f := AllocOne(s).0, AllocOne(s).1.value;
    s2 := Map(s1, q, idx, f).0;
  }

  lemma {:induction false} TestReleases(s: Sys, s1: Sys, s2: Sys, q: nat, idx: seq<Slot>, f: nat, junk: seq<nat>)
    requires SpaceOk(s, q) && Mappable(s, q, idx) && |junk| == ENTRIES
    requires AllocOne(s) == (s1, Some(f)) && Map(s1, q, idx, f) == (s2, Ok(())) && s2.pool.Shaped()
    requires f >= s.base ==> OrderMatch(s2.pool, f - s.base, 0)
    ensures ReleaseOk(s2.(mem := s2.mem[f := junk]), q, idx)
  {
    TestedNow(s, s1, s2, q, idx, f, junk);
  }

  /** The buddy of block h, if it is managed, became the first table made for the page. */
  lemma {:induction false} BuddyTaken(s: Sys, t: Sys, q: nat, idx: seq<Slot>, f: nat, h: nat)
    requires SpaceOk(s, q) && Mappable(s, q, idx) && Next(s.mem, q, idx[0]).None? && f < MAX_FRAME
    requires Map(s, q, idx, f) == (t, Ok(())) && NextIsBuddy(s.pool, h)
    ensures OrderMatch(t.pool, h, 0)
  {
    var r := BuddyOf(s.pool, h, 0);
    SameBuddy(s, t, q, idx, f, h);
    if r.Some? {
      TableStaysLive(s, t, q, idx, f, r.value);
      UsedBuddy(t.pool, h, r.value);
    }
  }

  /** The next frame handed out is the buddy of h, unless that is not managed. */
  ghost predicate NextIsBuddy(p: Pool, h: nat)
    requires p.Shaped()
  {
    match BuddyOf(p, h, 0) case None => true case Some(b) => Allocate(p, 0).1 == Some(b)
  }

  lemma {:induction false} SecondFrame(s: Sys, s1: Sys, order: seq<nat>, used: seq<bool>, f: nat, h: nat)
    requires |order| == |used| && s.pool == New(order, used) && AllocOne(s) == (s1, Some(f)) && f == s.base + h
    ensures s1.pool.Shaped() && NextIsBuddy(s1.pool, h)
  {
    SecondIsBuddy(order, used, s1.pool, h);
  }

  lemma {:induction false} SameBuddy(s: Sys, t: Sys, q: nat, idx: seq<Slot>, f: nat, h: nat)
    requires SpaceOk(s, q) && Mappable(s, q, idx) && f < MAX_FRAME && Map(s, q, idx, f) == (t, Ok(()))
    ensures BuddyOf(t.pool, h, 0) == BuddyOf(s.pool, h, 0)
    ensures BuddyOf(t.pool, h, 0).None? ==> OrderMatch(t.pool, h, 0)
  {
    MapsNew(s, t, q, idx, f);
  }

  lemma {:induction false} UsedBuddy(p: Pool, h: nat, b: nat)
    requires Inv(p) && BuddyOf(p, h, 0) == Some(b) && b in Live(p)
    ensures OrderMatch(p, h, 0)
  {
  }

  /** The first table made for a page is a live block when the page is mapped. */
  lemma {:induction false} TableStaysLive(s: Sys, t: Sys, q: nat, idx: seq<Slot>, f: nat, b: nat)
    requires SpaceOk(s, q) && Mappable(s, q, idx) && Next(s.mem, q, idx[0]).None? && f < MAX_FRAME
    requires Map(s, q, idx, f) == (t, Ok(())) && Allocate(s.pool, 0).1 == Some(b)
    ensures Inv(t.pool) && b in Live(t.pool)
  {
    var s1 := CreateNext(s, q, idx[0]).0;
    MapKeepsLive(s, s1, t, q, idx, f);
    TableTaken(s, q, idx[0], s1);
    AllocateCorrect(s.pool, 0);
  }

  lemma {:induction false} TableTaken(s: Sys, q: nat, i: Slot, t: Sys)
    requires s.pool.Shaped() && Next(s.mem, q, i).None? && CreateNext(s, q, i).0 == t
    ensures t.pool == Allocate(s.pool, 0).0
  {
  }

  // ----- the boot sequence from its real beginning

  /** What the boot code and the first part of the kernel's memory initialisation leave behind: the boot tables,
      and a new allocator for frames above them. */
  ghost predicate BootState(s: Sys, order: seq<nat>, used: seq<bool>) {
    && |order| == |used| && s.pool == New(order, used)
    && BootTables(s.mem) && s.cr3 == BOOT_ROOT
    && BOOT_LEVEL3 < s.base && s.base + |order| <= MAX_FRAME
  }

  lemma {:induction false} BootStateIsBooted(s: Sys, order: seq<nat>, used: seq<bool>, junk: seq<nat>)
    requires BootState(s, order, used) && |junk| == ENTRIES
    ensures Booted(s, BOOT_ROOT, junk) && Start(s)
  {
    NewCorrect(order, used);
    BootSpace(s);
    BootNext(s.mem, 0);
    BootReleases(s, BOOT_ROOT, TEST_PAGE, order, used, junk);
  }

  /** The boot sequence from the real boot state, with nothing assumed about the allocator or the tables: if it
      succeeds, the kernel runs in an address space that maps exactly what was requested. */
  lemma {:induction false} BootInit(s: Sys, order: seq<nat>, used: seq<bool>, requests: seq<Request>, kBegin: nat,
                                    kEnd: nat, junk: seq<nat>)
    requires BootState(s, order, used) && |junk| == ENTRIES && kBegin <= kEnd
    requires Plain(KernelList(requests, kBegin, kEnd))
    ensures s.pool.Shaped()
    ensures var (t, err) := Init(s, BOOT_ROOT, requests, kBegin, kEnd, junk);
            err == None ==> KernelSpace(t, requests + [KernelRequest(kBegin, kEnd)])
  {
    BootStateIsBooted(s, order, used, junk);
    InitCorrect(s, BOOT_ROOT, requests, kBegin, kEnd, junk);
  }
}
