/**
 `unmap`, which gives the frame back to the allocator, and the round trip the
 kernel runs at boot: allocate, map, write through the page, unmap.
 */
module PageUnmap {
  import opened Wrappers
  import opened Bits
  import opened Blocks
  import opened BuddySystem
  import opened BuddyCanon
  import opened BuddyCorrect
  import opened BuddyFree
  import opened BuddyCount
  import opened PageTables
  import opened PageLink
  import opened PageMap
  import opened PageOps

  predicate Managed(s: Sys, f: nat) {
    s.base <= f < s.base + s.pool.Size()
  }

  /** The frame `unmap` would give back for the page. */
  function LeafFrame(m: Memory, q: nat, idx: seq<Slot>): (r: Option<nat>)
    requires |idx| == 4
    ensures r.Some? ==> Follow(m, q, idx[..3]).Some?
  {
    match Follow(m, q, idx[..3])
    case None => None
    case Some(t) => var w := Entry(m, t, idx[3]); if IsPresent(w) then Some(FrameOf(w)) else None
  }

  /** `clear_all` on an entry, after the allocator became p. */
  function Erase(s: Sys, p: Pool, t: nat, i: Slot): Sys {
    s.(pool := p, mem := Write(s.mem, t, i, 0))
  }

  /** `unmap`. A frame the allocator does not manage fails its range assertion. */
  function Unmap(s: Sys, q: nat, idx: seq<Slot>): (r: (Sys, Outcome<()>))
    requires s.pool.Shaped() && |idx| == 4
    ensures r.0.pool.Shaped()
  {
    match LeafFrame(s.mem, q, idx)
    case None => (s, Failed(NoEntry))
    case Some(f) => Release(s, f, Follow(s.mem, q, idx[..3]).value, idx[3])
  }

  /** Give frame f back and clear entry i of table t. */
  function Release(s: Sys, f: nat, t: nat, i: Slot): (r: (Sys, Outcome<()>))
    requires s.pool.Shaped()
    ensures r.0.pool.Shaped()
  {
    if !Managed(s, f) then (s, Panicked)
    else
      match Free(s.pool, f - s.base)
      case None => (s, Panicked)
      case Some(p) => (Erase(s, p, t, i), Done(()))
  }

  /** Without huge pages on the way, the leaf is what the page translates to. */
  lemma {:induction false} LeafIsLookup(m: Memory, f: nat, path: seq<Slot>, i: Slot)
    requires |path| <= 3 && HugeFree(m, f, path)
    ensures Lookup(m, f, path + [i]) ==
            match Follow(m, f, path) case None => None
            case Some(t) => if IsPresent(Entry(m, t, i)) then Some(FrameOf(Entry(m, t, i))) else None
    decreases path
  {
    if path != [] {
      assert (path + [i])[1..] == path[1..] + [i];
      if Next(m, f, path[0]).Some? {
        LeafIsLookup(m, Next(m, f, path[0]).value, path[1..], i);
      }
    }
  }

  lemma {:induction false} LeafLookupAt(m: Memory, q: nat, idx: seq<Slot>)
    requires |idx| == 4 && HugeFree(m, q, idx[..3])
    ensures LeafFrame(m, q, idx) == Lookup(m, q, idx)
  {
    assert idx == idx[..3] + [idx[3]];
    LeafIsLookup(m, q, idx[..3], idx[3]);
  }

  /** The block at h holds no table of q. */
  ghost predicate NoTableIn(s: Sys, q: nat, h: nat, o: nat) {
    forall a: seq<Slot> :: Node(s.mem, q, a) ==> !InBlock(h, o, At(s.mem, q, a) - s.base)
  }

  /** Frame f heads a live block without tables whose release is safe. */
  ghost predicate Releasable(s: Sys, q: nat, f: nat)
    requires Inv(s.pool)
  {
    && Managed(s, f) && f - s.base in Live(s.pool)
    && OrderMatch(s.pool, f - s.base, Live(s.pool)[f - s.base])
    && NoTableIn(s, q, f - s.base, Live(s.pool)[f - s.base])
  }

  /** From s to t the page idx was unmapped and the block at h was freed, and nothing else changed. */
  ghost predicate Unmapped(s: Sys, t: Sys, q: nat, idx: seq<Slot>, h: nat)
    requires Inv(s.pool)
  {
    && SpaceOk(t, q) && t.cr3 == s.cr3 && t.base == s.base && t.pool.Size() == s.pool.Size()
    && Entry(t.mem, q, SELF) == Entry(s.mem, q, SELF)
    && h in Live(s.pool) && Live(t.pool) == Live(s.pool) - {h}
    && CountFree(t.pool) == CountFree(s.pool) + Pow2(Live(s.pool)[h])
    && forall page: seq<Slot> :: |page| == 4 && Ordinary(page) ==>
         Lookup(t.mem, q, page) == if page == idx then None else Lookup(s.mem, q, page)
  }

  /** Unmapping a page of a live block whose release is safe: the page becomes unmapped, the block becomes
      free, nothing else changes. A page without entry is reported and nothing happens. */
  lemma {:induction false} UnmapCorrect(s: Sys, q: nat, idx: seq<Slot>)
    requires SpaceOk(s, q) && Mappable(s, q, idx)
    requires Lookup(s.mem, q, idx).Some? ==> Releasable(s, q, Lookup(s.mem, q, idx).value)
    ensures var (t, r) := Unmap(s, q, idx);
            match Lookup(s.mem, q, idx)
            case None => r == Failed(NoEntry) && t == s
            case Some(f) => r == Done(()) && f >= s.base && Unmapped(s, t, q, idx, f - s.base)
  {
    LeafLookupAt(s.mem, q, idx);
    match LeafFrame(s.mem, q, idx) {
      case None =>
      case Some(f) => UnmapPresent(s, q, idx, f);
    }
  }

  /** Its answer for any frame behind the page: a panic exactly for a frame the allocator does not manage, or whose
      release panics. */
  lemma {:induction false} UnmapAnswers(s: Sys, q: nat, idx: seq<Slot>)
    requires SpaceOk(s, q) && Mappable(s, q, idx)
    ensures var r := Unmap(s, q, idx).1; var f := Lookup(s.mem, q, idx);
            && (r == Failed(NoEntry) <==> f == None)
            && (r == Panicked <==> f.Some? && (!Managed(s, f.value) || Free(s.pool, f.value - s.base) == None))
            && (r == Done(()) <==> f.Some? && Managed(s, f.value) && Free(s.pool, f.value - s.base).Some?)
  {
    LeafLookupAt(s.mem, q, idx);
  }

  lemma {:induction false} UnmapPresent(s: Sys, q: nat, idx: seq<Slot>, f: nat)
    requires SpaceOk(s, q) && Mappable(s, q, idx) && LeafFrame(s.mem, q, idx) == Some(f) && Releasable(s, q, f)
    ensures Unmap(s, q, idx).1 == Done(()) && Unmapped(s, Unmap(s, q, idx).0, q, idx, f - s.base)
  {
    var h: nat := f - s.base;
    FreeExactly(s.pool, h);
    var p := Free(s.pool, h).value;
    Releases(s, f, Follow(s.mem, q, idx[..3]).value, idx[3], p);
    UnmapWrites(s, q, idx, p, h);
  }

  lemma {:induction false} Releases(s: Sys, f: nat, t: nat, i: Slot, p: Pool)
    requires s.pool.Shaped() && Managed(s, f) && Free(s.pool, f - s.base) == Some(p)
    ensures Release(s, f, t, i) == (Erase(s, p, t, i), Done(()))
  {
  }

  lemma {:induction false} UnmapWrites(s: Sys, q: nat, idx: seq<Slot>, p: Pool, h: nat)
    requires SpaceOk(s, q) && Mappable(s, q, idx) && Follow(s.mem, q, idx[..3]).Some?
    requires Inv(p) && p.Size() == s.pool.Size() && h in Live(s.pool) && Live(p) == Live(s.pool) - {h}
    requires NoTableIn(s, q, h, Live(s.pool)[h])
    ensures Unmapped(s, Erase(s, p, Follow(s.mem, q, idx[..3]).value, idx[3]), q, idx, h)
  {
    var path, i := idx[..3], idx[3];
    assert idx == path + [i];
    OrdinaryParts(path, i, []);
    assert idx == path + [i] + [];
    assert Node(s.mem, q, path);
    LeafWrite(s, q, path, i, 0);
    var u := s.(mem := Write(s.mem, At(s.mem, q, path), i, 0));
    var t := u.(pool := p);
    BlockBack(s.pool, p, h, Live(s.pool)[h]);
    UnmapSpace(s, u, t, q, h);
    forall page: seq<Slot> | |page| == 4 && Ordinary(page)
      ensures Lookup(t.mem, q, page) == if page == idx then None else Lookup(s.mem, q, page)
    {
      LeafLookup(s.mem, q, path, i, 0, page);
    }
  }

  lemma {:induction false} BlockBack(p: Pool, q: Pool, h: nat, o: nat)
    requires Inv(p) && Inv(q) && q.Size() == p.Size() && h in Live(p) && o == Live(p)[h] && Live(q) == Live(p) - {h}
    ensures CountFree(q) == CountFree(p) + Pow2(o)
    ensures forall y: int :: FreeAt(p, y) <==> FreeAt(q, y) && !InBlock(h, o, y)
  {
    assert Live(p) == Live(q)[h := o];
    OneBlockLess(q, p, h, o);
  }

  /** A block without tables becomes free. */
  lemma {:induction false} UnmapSpace(s: Sys, u: Sys, t: Sys, q: nat, h: nat)
    requires SpaceOk(s, q) && SpaceOk(u, q) && Grows(s, u, q) && u == s.(mem := u.mem) && t == u.(pool := t.pool)
             && PoolOk(t)
    requires h in Live(s.pool) && NoTableIn(s, q, h, Live(s.pool)[h])
    requires forall a: seq<Slot> :: Node(u.mem, q, a) ==> Node(s.mem, q, a)
    requires forall y: int :: FreeAt(s.pool, y) <==> FreeAt(t.pool, y) && !InBlock(h, Live(s.pool)[h], y)
    ensures SpaceOk(t, q)
  {
    forall a: seq<Slot> | Node(t.mem, q, a) ensures !FrameFree(t, At(t.mem, q, a)) {
      assert Node(s.mem, q, a);
    }
  }

  // ----- writes to frames that are no tables

  /** Whatever is written into a frame that is no table of q, its translations stay. */
  lemma {:induction false} ForeignWrite(m: Memory, n: Memory, q: nat, f: nat)
    requires !TableOf(m, q, f) && forall g: nat :: g != f ==> Tab(n, g) == Tab(m, g)
    ensures SameSpace(m, n, q)
  {
    forall a: seq<Slot>, j: Slot | Node(m, q, a) && j != SELF
      ensures Entry(n, At(m, q, a), j) == Entry(m, At(m, q, a), j)
    {
      assert TableOf(m, q, At(m, q, a));
    }
    TablesKept(m, n, q);
  }

  lemma {:induction false} ForeignKeeps(s: Sys, t: Sys, q: nat, f: nat)
    requires SpaceOk(s, q) && !TableOf(s.mem, q, f) && t == s.(mem := t.mem)
    requires forall g: nat :: g != f ==> Tab(t.mem, g) == Tab(s.mem, g)
    ensures SpaceOk(t, q) && SamePages(s.mem, t.mem, q)
    ensures forall a: seq<Slot> :: Node(t.mem, q, a) ==> Node(s.mem, q, a) && At(t.mem, q, a) == At(s.mem, q, a)
  {
    ForeignWrite(s.mem, t.mem, q, f);
    assert SamePages(s.mem, t.mem, q);
    forall a: seq<Slot> | Node(t.mem, q, a)
      ensures Node(s.mem, q, a) && At(t.mem, q, a) == At(s.mem, q, a)
      ensures !FrameFree(t, At(t.mem, q, a)) && Tab(t.mem, At(t.mem, q, a)) == Tab(s.mem, At(t.mem, q, a))
    {
      assert TableOf(s.mem, q, At(s.mem, q, a));
      assert !FrameFree(s, At(s.mem, q, a));
    }
    forall a: seq<Slot>, i: Slot | Node(t.mem, q, a) ensures WordOk(Entry(t.mem, At(t.mem, q, a), i)) {
      assert WordOk(Entry(s.mem, At(s.mem, q, a), i));
    }
  }

  lemma {:induction false} ForeignHugeFree(m: Memory, n: Memory, q: nat, f: nat, a: seq<Slot>, g: nat, r: seq<Slot>)
    requires !TableOf(m, q, f) && forall h: nat :: h != f ==> Tab(n, h) == Tab(m, h)
    requires Follow(m, q, a) == Some(g) && Ordinary(a + r) && |a + r| <= 3 && HugeFree(m, g, r)
    ensures HugeFree(n, g, r)
    decreases r
  {
    if r != [] {
      PrefixStep(a, r);
      assert Node(m, q, a) && At(m, q, a) == g;
      assert TableOf(m, q, g);
      FollowOne(m, q, a, r[0]);
      if IsPresent(Entry(m, g, r[0])) {
        ForeignHugeFree(m, n, q, f, a + [r[0]], FrameOf(Entry(m, g, r[0])), r[1..]);
      }
    }
  }

  // ----- the round trip

  datatype TestError = NoUsableMemory | PageTable(error: Error) | TestPanic

  /** The mapping half of `runtime_test`: allocate a frame, map it at the page, write `junk` through the page. */
  function TestMap(s: Sys, q: nat, idx: seq<Slot>, junk: seq<nat>): (r: (Sys, Option<TestError>))
    requires s.pool.Shaped() && |idx| == 4
    ensures r.0.pool.Shaped()
  {
    var (s1, got) := AllocOne(s);
    match got
    case None => (s1, Some(NoUsableMemory))
    case Some(f) =>
      var (s2, r) := Map(s1, q, idx, f);
      match r
      case Err(e) => (s2, Some(PageTable(e)))
      case Ok(_) => (s2.(mem := s2.mem[f := junk]), None)
  }

  /** The rest of `runtime_test` once the mapping half is over. */
  function TestUnmap(s: Sys, err: Option<TestError>, q: nat, idx: seq<Slot>): (r: (Sys, Option<TestError>))
    requires s.pool.Shaped() && |idx| == 4
    ensures r.0.pool.Shaped()
  {
    if err.Some? then (s, err)
    else
      var (t, u) := Unmap(s, q, idx);
      (t, match u case Done(_) => None case Failed(e) => Some(PageTable(e)) case Panicked => Some(TestPanic))
  }

  /** `runtime_test`. */
  function RoundTrip(s: Sys, q: nat, idx: seq<Slot>, junk: seq<nat>): (r: (Sys, Option<TestError>))
    requires s.pool.Shaped() && |idx| == 4
    ensures r.0.pool.Shaped()
  {
    var (t, err) := TestMap(s, q, idx, junk);
    TestUnmap(t, err, q, idx)
  }

  /** Which error occurs when: one frame for the page itself and one for each missing table. */
  ghost predicate ErrorExact(s: Sys, q: nat, idx: seq<Slot>, err: Option<TestError>)
    requires s.pool.Shaped() && |idx| == 4
  {
    var k, n := Missing(s.mem, q, idx[..3]), CountFree(s.pool);
    && (err == Some(NoUsableMemory) <==> n == 0)
    && (err == Some(PageTable(NoPageTable)) <==> 1 <= n <= k)
    && (err == Some(PageTable(AlreadyMapped)) <==> k < n && Lookup(s.mem, q, idx).Some?)
    && (err == None <==> k < n && Lookup(s.mem, q, idx).None?)
  }

  /** Allocating and mapping, exactly: which error occurs when, and what the mapping leaves behind. */
  lemma {:induction false} TestMapCorrect(s: Sys, q: nat, idx: seq<Slot>, junk: seq<nat>)
    requires SpaceOk(s, q) && Mappable(s, q, idx) && |junk| == ENTRIES
    ensures var (t, err) := TestMap(s, q, idx, junk);
            && SpaceOk(t, q) && t.cr3 == s.cr3 && t.base == s.base && t.pool.Size() == s.pool.Size()
            && Entry(t.mem, q, SELF) == Entry(s.mem, q, SELF)
            && ErrorExact(s, q, idx, err)
            && (err.Some? ==> SamePages(s.mem, t.mem, q))
            && (err == None ==> exists f: nat :: Tested(s, t, q, idx, f))
  {
    AllocOneCorrect(s);
    NoneFree(s.pool);
    var (s1, got) := AllocOne(s);
    if got.Some? {
      var f := got.value;
      AllocKeepsSpace(s, s1, q, f);
      MapCorrect(s1, q, idx, f);
      var (s2, r) := Map(s1, q, idx, f);
      RootSelf(s1, s2, q);
      if r.Ok? {
        TestedNow(s, s1, s2, q, idx, f, junk);
      }
    }
  }

  lemma {:induction false} TestedNow(s: Sys, s1: Sys, s2: Sys, q: nat, idx: seq<Slot>, f: nat, junk: seq<nat>)
    requires SpaceOk(s, q) && Mappable(s, q, idx) && |junk| == ENTRIES
    requires AllocOne(s) == (s1, Some(f)) && Map(s1, q, idx, f) == (s2, Ok(()))
    ensures var t := s2.(mem := s2.mem[f := junk]);
            SpaceOk(t, q) && Tested(s, t, q, idx, f) && Entry(t.mem, q, SELF) == Entry(s2.mem, q, SELF)
  {
    var t := s2.(mem := s2.mem[f := junk]);
    FrameTaken(s, s1, q, f);
    MapsNew(s1, s2, q, idx, f);
    assert SpaceOk(t, q) && SamePages(s2.mem, t.mem, q) && !TableOf(t.mem, q, f) && Mappable(t, q, idx) by {
      JunkKeeps(s, s1, s2, q, idx, f, junk);
    }
    assert Entry(t.mem, q, SELF) == Entry(s2.mem, q, SELF) by {
      JunkElsewhere(s2.mem, q, f, junk);
    }
    assert Tested(s, t, q, idx, f) by {
      TestedFrom(s, s1, s2, t, q, idx, f);
    }
  }

  /** `alloc_one` for an address space. */
  lemma {:induction false} FrameTaken(s: Sys, s1: Sys, q: nat, f: nat)
    requires SpaceOk(s, q) && AllocOne(s) == (s1, Some(f))
    ensures SpaceOk(s1, q) && s1 == s.(pool := s1.pool) && s.base <= f < MAX_FRAME && s1.pool.Size() == s.pool.Size()
    ensures FrameFree(s, f) && !FrameFree(s1, f) && f - s.base !in Live(s.pool)
    ensures Live(s1.pool) == Live(s.pool)[f - s.base := 0] && CountFree(s1.pool) == CountFree(s.pool) - 1
  {
    AllocOneCorrect(s);
    AllocKeepsSpace(s, s1, q, f);
  }

  lemma {:induction false} JunkElsewhere(m: Memory, q: nat, f: nat, junk: seq<nat>)
    requires !TableOf(m[f := junk], q, f)
    ensures Tab(m[f := junk], q) == Tab(m, q)
  {
    RootIsTable(m[f := junk], q);
  }

  /** A successful `map`. */
  ghost predicate MappedNew(s: Sys, t: Sys, q: nat, idx: seq<Slot>, f: nat)
    requires Inv(s.pool) && Inv(t.pool) && |idx| == 4
  {
    && CountFree(t.pool) == CountFree(s.pool) - Missing(s.mem, q, idx[..3])
    && forall page: seq<Slot> :: |page| == 4 && Ordinary(page) ==>
         Lookup(t.mem, q, page) == if page == idx then Some(f) else Lookup(s.mem, q, page)
  }

  lemma {:induction false} MapsNew(s: Sys, t: Sys, q: nat, idx: seq<Slot>, f: nat)
    requires SpaceOk(s, q) && Mappable(s, q, idx) && f < MAX_FRAME && Map(s, q, idx, f) == (t, Ok(()))
    ensures SpaceOk(t, q) && Grows(s, t, q) && MappedNew(s, t, q, idx, f)
  {
    MapCorrect(s, q, idx, f);
  }

  lemma {:induction false} TestedFrom(s: Sys, s1: Sys, s2: Sys, t: Sys, q: nat, idx: seq<Slot>, f: nat)
    requires SpaceOk(s, q) && Inv(s1.pool) && Inv(s2.pool) && s1 == s.(pool := s1.pool) && Grows(s1, s2, q)
    requires FrameFree(s, f) && f >= s.base && f - s.base !in Live(s.pool)
             && Live(s1.pool) == Live(s.pool)[f - s.base := 0]
    requires |idx| == 4 && CountFree(s1.pool) == CountFree(s.pool) - 1 && MappedNew(s1, s2, q, idx, f)
    requires t == s2.(mem := t.mem) && SpaceOk(t, q) && SamePages(s2.mem, t.mem, q) && !TableOf(t.mem, q, f)
             && Mappable(t, q, idx)
    ensures Tested(s, t, q, idx, f)
  {
  }

  /** Editing q keeps the self slot of its root. */
  lemma {:induction false} RootSelf(s: Sys, t: Sys, q: nat)
    requires SpaceOk(s, q) && Inv(t.pool) && Grows(s, t, q)
    ensures Entry(t.mem, q, SELF) == Entry(s.mem, q, SELF)
  {
    assert Follow(s.mem, q, []) == Some(q) && Node(s.mem, q, []) && At(s.mem, q, []) == q;
    assert !FrameFree(s, q);
  }

  lemma {:induction false} RootIsTable(m: Memory, q: nat)
    ensures TableOf(m, q, q)
  {
    assert Follow(m, q, []) == Some(q) && Node(m, q, []) && At(m, q, []) == q;
  }

  /** Frame f was free before, is now a live block of order 0, and is what the page translates to. */
  ghost predicate Tested(s: Sys, t: Sys, q: nat, idx: seq<Slot>, f: nat)
    requires SpaceOk(s, q) && SpaceOk(t, q) && |idx| == 4
  {
    && s.base <= f && f - s.base !in Live(s.pool) && t.base == s.base
    && f - s.base in Live(t.pool) && Live(t.pool)[f - s.base] == 0
    && FrameFree(s, f) && !TableOf(t.mem, q, f)
    && CountFree(t.pool) == CountFree(s.pool) - 1 - Missing(s.mem, q, idx[..3])
    && Mappable(t, q, idx)
    && forall page: seq<Slot> :: |page| == 4 && Ordinary(page) ==>
         Lookup(t.mem, q, page) == if page == idx then Some(f) else Lookup(s.mem, q, page)
  }

  lemma {:induction false} AllocKeepsSpace(s: Sys, s1: Sys, q: nat, f: nat)
    requires SpaceOk(s, q) && PoolOk(s1) && s1 == s.(pool := s1.pool) && s.base <= f
    requires forall g: nat :: FrameFree(s1, g) <==> FrameFree(s, g) && g != f
    ensures SpaceOk(s1, q)
  {
  }

  lemma {:induction false} JunkKeeps(s: Sys, s1: Sys, s2: Sys, q: nat, idx: seq<Slot>, f: nat, junk: seq<nat>)
    requires SpaceOk(s, q) && SpaceOk(s1, q) && SpaceOk(s2, q) && s1 == s.(pool := s1.pool) && Grows(s1, s2, q)
    requires FrameFree(s, f) && !FrameFree(s1, f) && Mappable(s, q, idx) && |junk| == ENTRIES
    ensures var t := s2.(mem := s2.mem[f := junk]);
            SpaceOk(t, q) && SamePages(s2.mem, t.mem, q) && !TableOf(t.mem, q, f) && Mappable(t, q, idx)
  {
    var t := s2.(mem := s2.mem[f := junk]);
    assert !TableOf(s1.mem, q, f);
    assert !TableOf(s2.mem, q, f);
    ForeignKeeps(s2, t, q, f);
    assert forall k :: 0 <= k < 3 ==> idx[..3][k] == idx[k];
    assert [] + idx[..3] == idx[..3] && Follow(s2.mem, q, []) == Some(q);
    ForeignHugeFree(s2.mem, t.mem, q, f, [], q, idx[..3]);
  }

  /** The state u and the answer err of the mapping half, and the state t at the end. */
  ghost predicate RoundTripOk(s: Sys, u: Sys, q: nat, idx: seq<Slot>, t: Sys, err: Option<TestError>)
    requires SpaceOk(s, q) && Inv(u.pool) && |idx| == 4
  {
    && SpaceOk(t, q) && SamePages(s.mem, t.mem, q)
    && t.cr3 == s.cr3 && t.base == s.base && t.pool.Size() == s.pool.Size()
    && Entry(t.mem, q, SELF) == Entry(s.mem, q, SELF)
    && ErrorExact(s, q, idx, err)
    && (err == None ==>
          && Missing(s.mem, q, idx[..3]) <= 3
          && CountFree(t.pool) == CountFree(s.pool) - Missing(s.mem, q, idx[..3])
          && exists f: nat :: GivenBack(s, u, t, f))
  }

  /** The round trip, exactly. If frames suffice and the page is unmapped, and OrderMatch holds for giving the
      frame back, the test succeeds, restores every translation, gives the same frame back to the allocator,
      and costs one frame for each table it had to create, 0 to 3. */
  lemma {:induction false} RoundTripCorrect(s: Sys, q: nat, idx: seq<Slot>, junk: seq<nat>)
    requires SpaceOk(s, q) && Mappable(s, q, idx) && |junk| == ENTRIES
    requires var (u, err) := TestMap(s, q, idx, junk); err == None ==> ReleaseOk(u, q, idx)
    ensures var u := TestMap(s, q, idx, junk).0; var (t, err) := RoundTrip(s, q, idx, junk);
            Inv(u.pool) && RoundTripOk(s, u, q, idx, t, err)
  {
    TestMapCorrect(s, q, idx, junk);
    var (u, err) := TestMap(s, q, idx, junk);
    RoundTripTail(s, u, err, q, idx);
  }

  /** A failed test does not give its frame back: it leaves no frame free when they run out, and otherwise one less than
      the tables cost. */
  lemma {:induction false} FailedTestCost(s: Sys, q: nat, idx: seq<Slot>, junk: seq<nat>)
    requires SpaceOk(s, q) && Mappable(s, q, idx) && |junk| == ENTRIES && TestMap(s, q, idx, junk).1.Some?
    ensures var t := RoundTrip(s, q, idx, junk).0; var n, k := CountFree(s.pool), Missing(s.mem, q, idx[..3]);
            CountFree(t.pool) == if n <= k then 0 else n - 1 - k
  {
    AllocOneCorrect(s);
    NoneFree(s.pool);
    var (s1, got) := AllocOne(s);
    if got.Some? {
      AllocKeepsSpace(s, s1, q, got.value);
      MapCorrect(s1, q, idx, got.value);
    }
  }

  /** What `runtime_test` writes through the page arrives in the frame behind it. */
  lemma {:induction false} TestWrites(s: Sys, q: nat, idx: seq<Slot>, junk: seq<nat>)
    requires SpaceOk(s, q) && Mappable(s, q, idx) && |junk| == ENTRIES && TestMap(s, q, idx, junk).1 == None
    ensures var t := TestMap(s, q, idx, junk).0; var f := Lookup(t.mem, q, idx); f.Some? && Tab(t.mem, f.value) == junk
  {
    var (s1, got) := AllocOne(s);
    TestedNow(s, s1, Map(s1, q, idx, got.value).0, q, idx, got.value, junk);
  }

  /** OrderMatch for the release of the frame behind the page. */
  ghost predicate ReleaseOk(s: Sys, q: nat, idx: seq<Slot>)
    requires s.pool.Shaped() && |idx| == 4
  {
    var f := Lookup(s.mem, q, idx);
    f.Some? && Managed(s, f.value) ==> OrderMatch(s.pool, f.value - s.base, 0)
  }

  lemma {:induction false} RoundTripTail(s: Sys, u: Sys, err: Option<TestError>, q: nat, idx: seq<Slot>)
    requires SpaceOk(s, q) && SpaceOk(u, q) && |idx| == 4 && Ordinary(idx)
    requires u.cr3 == s.cr3 && u.base == s.base && u.pool.Size() == s.pool.Size() && ErrorExact(s, q, idx, err)
    requires Entry(u.mem, q, SELF) == Entry(s.mem, q, SELF)
    requires err.Some? ==> SamePages(s.mem, u.mem, q)
    requires err == None ==> (exists f: nat :: Tested(s, u, q, idx, f)) && ReleaseOk(u, q, idx)
    ensures var (t, e) := TestUnmap(u, err, q, idx); RoundTripOk(s, u, q, idx, t, e)
  {
    if err == None {
      RoundTripDone(s, u, q, idx);
    }
  }

  /** From s to t every translation is restored, at the cost of the tables made; u is the state in between. */
  ghost predicate Restored(s: Sys, u: Sys, t: Sys, q: nat, idx: seq<Slot>)
    requires Inv(s.pool) && Inv(u.pool) && |idx| == 4
  {
    var k := Missing(s.mem, q, idx[..3]);
    && SpaceOk(t, q) && SamePages(s.mem, t.mem, q)
    && Entry(t.mem, q, SELF) == Entry(u.mem, q, SELF)
    && t.cr3 == u.cr3 && t.base == u.base && t.pool.Size() == u.pool.Size()
    && CountFree(t.pool) == CountFree(s.pool) - k && k <= 3
    && exists f: nat :: GivenBack(s, u, t, f)
  }

  lemma {:induction false} RoundTripDone(s: Sys, s1: Sys, q: nat, idx: seq<Slot>)
    requires SpaceOk(s, q) && SpaceOk(s1, q) && |idx| == 4 && Lookup(s.mem, q, idx).None? && Ordinary(idx)
    requires exists f: nat :: Tested(s, s1, q, idx, f)
    requires ReleaseOk(s1, q, idx)
    ensures Unmap(s1, q, idx).1 == Done(()) && Restored(s, s1, Unmap(s1, q, idx).0, q, idx)
  {
    var f: nat :| Tested(s, s1, q, idx, f);
    TestUnmaps(s, s1, q, idx, f);
  }

  /** The frame was free to begin with, and is the only block released between u and t. */
  ghost predicate GivenBack(s: Sys, u: Sys, t: Sys, f: nat)
    requires Inv(s.pool) && Inv(u.pool) && Inv(t.pool)
  {
    && s.base <= f && f - s.base !in Live(s.pool) && f - s.base in Live(u.pool)
    && Live(t.pool) == Live(u.pool) - {f - s.base}
  }

  lemma {:induction false} TestUnmaps(s: Sys, s1: Sys, q: nat, idx: seq<Slot>, f: nat)
    requires SpaceOk(s, q) && SpaceOk(s1, q) && |idx| == 4 && Tested(s, s1, q, idx, f) && Lookup(s.mem, q, idx).None?
    requires Ordinary(idx) && ReleaseOk(s1, q, idx)
    ensures Unmap(s1, q, idx).1 == Done(()) && Restored(s, s1, Unmap(s1, q, idx).0, q, idx)
  {
    MissingBound(s.mem, q, idx[..3]);
    TestedReleasable(s, s1, q, idx, f);
    UnmapCorrect(s1, q, idx);
    PagesRestored(s, s1, Unmap(s1, q, idx).0, q, idx, f);
  }

  lemma {:induction false} PagesRestored(s: Sys, u: Sys, t: Sys, q: nat, idx: seq<Slot>, f: nat)
    requires SpaceOk(s, q) && SpaceOk(u, q) && |idx| == 4 && Tested(s, u, q, idx, f)
    requires f >= u.base && Unmapped(u, t, q, idx, f - u.base) && Lookup(s.mem, q, idx).None?
    ensures SamePages(s.mem, t.mem, q) && CountFree(t.pool) == CountFree(s.pool) - Missing(s.mem, q, idx[..3])
    ensures GivenBack(s, u, t, f)
  {
    assert Pow2(0) == 1;
    forall page: seq<Slot> | |page| == 4 && Ordinary(page) ensures Lookup(t.mem, q, page) == Lookup(s.mem, q, page) {
      PageRestored(s, u, t, q, idx, f, page);
    }
  }

  lemma {:induction false} PageRestored(s: Sys, u: Sys, t: Sys, q: nat, idx: seq<Slot>, f: nat, page: seq<Slot>)
    requires SpaceOk(s, q) && SpaceOk(u, q) && |idx| == 4 && Tested(s, u, q, idx, f)
    requires f >= u.base && Unmapped(u, t, q, idx, f - u.base) && Lookup(s.mem, q, idx).None?
    requires |page| == 4 && Ordinary(page)
    ensures Lookup(t.mem, q, page) == Lookup(s.mem, q, page)
  {
  }

  lemma {:induction false} TestedReleasable(s: Sys, s1: Sys, q: nat, idx: seq<Slot>, f: nat)
    requires SpaceOk(s, q) && SpaceOk(s1, q) && |idx| == 4 && Tested(s, s1, q, idx, f)
    requires Ordinary(idx) && ReleaseOk(s1, q, idx)
    ensures Releasable(s1, q, f) && Mappable(s1, q, idx) && Lookup(s1.mem, q, idx) == Some(f)
  {
    var h: nat := f - s.base;
    LiveInRange(s1.pool, h);
    assert Pow2(0) == 1;
    forall a: seq<Slot> | Node(s1.mem, q, a) ensures !InBlock(h, 0, At(s1.mem, q, a) - s1.base) {
      assert TableOf(s1.mem, q, At(s1.mem, q, a));
    }
  }

  lemma {:induction false} LiveInRange(p: Pool, h: nat)
    requires Inv(p) && h in Live(p)
    ensures h < p.Size()
  {
  }

  lemma {:induction false} MissingBound(m: Memory, f: nat, path: seq<Slot>)
    ensures Missing(m, f, path) <= |path|
    decreases path
  {
    if path != [] && Next(m, f, path[0]).Some? {
      MissingBound(m, Next(m, f, path[0]).value, path[1..]);
    }
  }
}
