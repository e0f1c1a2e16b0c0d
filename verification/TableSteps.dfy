/**
 Facts about single steps of the page-table code, on values: what an address
 leads to while a table is being created, and how a walk, a search or a list of
 mappings continues after one step.
 */
module TableSteps {
  import opened Frames
  import opened Wrappers
  import opened Bits
  import opened BuddySystem
  import opened BuddyCorrect
  import opened PageTables
  import opened PageLink
  import opened PageMap
  import opened PageScan
  import opened PageOps
  import opened PageUnmap
  import opened PageEntry
  import opened RecursiveAddress

  /** Only frame f differs. */
  ghost predicate SameBut(m: Memory, n: Memory, f: nat) {
    forall g: nat :: g != f ==> Tab(n, g) == Tab(m, g)
  }

  /** va leads to frame f, whatever f itself contains. */
  ghost predicate Stable(s: Sys, va: nat, f: nat) {
    forall n: Memory :: SameBut(s.mem, n, f) ==> Mmu(s.(mem := n), va) == Some(f)
  }

  // ----- value-level facts about the steps of a table creation

  /** Once the link is written, the new table is reached at the next address, whatever its frame contains. */
  lemma {:induction false} LinkedIsStable(s: Sys, u: Sys, q: nat, p: seq<Slot>, i: Slot, f: nat)
    requires Creatable(s.mem, q, p, i, f) && Window(s.mem, s.cr3, q) && s.cr3 != f
    requires u.mem == Write(s.mem, At(s.mem, q, p), i, Link(Entry(s.mem, At(s.mem, q, p), i), f)) && u.cr3 == s.cr3
    ensures Stable(u, TableVa(p + [i]), f)
    ensures Next(u.mem, At(s.mem, q, p), i) == Some(f)
    ensures Mmu(u, TableVa(p)) == Some(At(s.mem, q, p))
  {
    var t := At(s.mem, q, p);
    assert TableOf(s.mem, q, t) && t != f;
    LinkZero(f);
    assert WordOk(Entry(s.mem, At(s.mem, q, p), i));
    forall n: Memory | SameBut(u.mem, n, f)
      ensures Mmu(u.(mem := n), TableVa(p + [i])) == Some(f) && Mmu(u.(mem := n), TableVa(p)) == Some(t)
    {
      LinkedResolves(s, u.(mem := n), q, p, i, f);
    }
    assert SameBut(u.mem, u.mem, f) && u.(mem := u.mem) == u;
  }

  lemma {:induction false} LinkedResolves(s: Sys, u: Sys, q: nat, p: seq<Slot>, i: Slot, f: nat)
    requires Creatable(s.mem, q, p, i, f) && Window(s.mem, s.cr3, q) && s.cr3 != f && u.cr3 == s.cr3
    requires var t := At(s.mem, q, p);
             && Next(u.mem, t, i) == Some(f)
             && (forall g: nat :: g != f && g != t ==> Tab(u.mem, g) == Tab(s.mem, g))
             && (forall j: Slot :: j != i ==> Entry(u.mem, t, j) == Entry(s.mem, t, j))
    ensures Mmu(u, TableVa(p + [i])) == Some(f) && Mmu(u, TableVa(p)) == Some(At(s.mem, q, p))
  {
    var t := At(s.mem, q, p);
    RootIsTable(s.mem, q);
    assert q != f;
    forall a: seq<Slot>, j: Slot | Node(s.mem, q, a) && j != SELF && !(a == p && j == i)
      ensures Entry(u.mem, At(s.mem, q, a), j) == Entry(s.mem, At(s.mem, q, a), j)
    {
      assert TableOf(s.mem, q, At(s.mem, q, a));
      assert At(s.mem, q, a) == t ==> a == p;
    }
    PathKept(s.mem, u.mem, q, p, i, p);
    FollowOne(u.mem, q, p, i);
    TableAddressResolves(u, q, p + [i]);
    TableAddressResolves(u, q, p);
  }

  /** `next_level_table_create_mut` in terms of `Linked`. */
  lemma {:induction false} CreateIsLinked(s: Sys, t: nat, i: Slot, s1: Sys, f: nat)
    requires s.pool.Shaped() && Next(s.mem, t, i).None? && AllocOne(s) == (s1, Some(f))
    requires Next(Write(s.mem, t, i, Link(Entry(s.mem, t, i), f)), t, i) == Some(f)
    ensures CreateNext(s, t, i) == (s1.(mem := Linked(s.mem, t, i, f)), Some(f))
  {
  }

  /** Without a free frame nothing is created. */
  lemma {:induction false} CreateStarved(s: Sys, t: nat, i: Slot)
    requires s.pool.Shaped() && Next(s.mem, t, i).None? && AllocOne(s).1.None?
    ensures CreateNext(s, t, i) == (AllocOne(s).0, None)
  {
  }

  /** The number spelled by base-512 digits. */
  ghost function Digits512(p: seq<Slot>): nat {
    if p == [] then 0 else Digits512(p[..|p| - 1]) * 512 + p[|p| - 1] as nat
  }

  lemma {:induction false} AppendDigit(p: seq<Slot>, i: Slot)
    ensures Digits512(p + [i]) == Digits512(p) * 512 + i as nat
    ensures |p| == 3 ==> NumberOf(p + [i]) == Digits512(p) * 512 + i as nat
  {
    assert (p + [i])[..|p|] == p;
    if |p| == 3 {
      assert p[..2][..1][..0] == [];
      assert Digits512(p[..2][..1]) == p[0] as nat;
      assert Digits512(p[..2]) == p[0] as nat * 512 + p[1] as nat;
    }
  }

  lemma {:induction false} FreshHasSelf(m: Memory, f: nat)
    ensures IsFresh(Tab(m, f), f) ==> IsPresent(Entry(m, f, SELF))
  {
    SelfWordPresent(f);
  }

  /** What one level of the search did: r is the slot taken and the address of the new table. */
  ghost predicate Opened(s: Sys, t: Sys, q: nat, p: seq<Slot>, k: nat, count: nat, r: Option<(Slot, nat)>)
    requires SpaceOk(s, q) && SpaceOk(t, q) && Node(s.mem, q, p) && |p| + k == 3 && 0 < k && 1 <= count
  {
    match r
    case None => Probe(s, At(s.mem, q, p), k, count) == (t, None)
    case Some((i, v)) =>
      && Node(t.mem, q, p + [i]) && v == TableVa(p + [i]) && IsPresent(Entry(t.mem, At(t.mem, q, p + [i]), SELF))
      && Probe(s, At(s.mem, q, p), k, count) ==
         var (u, rest) := Probe(t, At(t.mem, q, p + [i]), k - 1, count);
         (u, match rest case None => None case Some(b) => Some([i] + b))
  }

  /** The search from s ends as the search from t, k levels up, with path put before the answer. */
  ghost predicate Resumes(s: Sys, t: Sys, q: nat, path: seq<Slot>, k: nat, count: nat)
    requires s.pool.Shaped() && t.pool.Shaped() && Node(t.mem, q, path) && |path| + k == 3 && 1 <= count
  {
    var (u, rest) := Probe(t, At(t.mem, q, path), k, count);
    ResumesWith(s, q, path, count, u, rest)
  }

  /** `find_empty_pages` in s ends in t and answers with page number r. */
  ghost predicate FoundIs(s: Sys, t: Sys, q: nat, count: nat, r: Option<nat>)
    requires s.pool.Shaped() && 1 <= count
  {
    var (u, found) := PageScan.FindEmptyPages(s, q, count);
    t == u && r == match found case None => None case Some(idx) => Some(NumberOf(idx))
  }

  /** `Resumes`, for the outcome (u, rest) of the search from t. */
  ghost predicate ResumesWith(s: Sys, q: nat, path: seq<Slot>, count: nat, u: Sys, rest: Option<seq<Slot>>)
    requires s.pool.Shaped() && 1 <= count
  {
    PageScan.FindEmptyPages(s, q, count) == (u, match rest case None => None case Some(b) => Some(path + b))
  }

  lemma {:induction false} ResumeStep(s: Sys, s1: Sys, t: Sys, q: nat, path: seq<Slot>, k: nat, count: nat,
                                      r: Option<(Slot, nat)>)
    requires SpaceOk(s, q) && SpaceOk(s1, q) && SpaceOk(t, q) && Node(s1.mem, q, path) && |path| + k == 3 && 0 < k
             && 1 <= count
    requires Resumes(s, s1, q, path, k, count) && Opened(s1, t, q, path, k, count, r)
    ensures match r
            case None => FoundIs(s, t, q, count, None)
            case Some((i, v)) => Resumes(s, t, q, path + [i], k - 1, count)
  {
    match r {
      case None =>
      case Some((i, v)) =>
        var (u, rest) := Probe(t, At(t.mem, q, path + [i]), k - 1, count);
        AnswerBelow(s, q, path, i, count, u, rest);
    }
  }

  lemma {:induction false} AnswerBelow(s: Sys, q: nat, path: seq<Slot>, i: Slot, count: nat, u: Sys,
                                       rest: Option<seq<Slot>>)
    requires s.pool.Shaped() && 1 <= count
    requires ResumesWith(s, q, path, count, u, match rest case None => None case Some(b) => Some([i] + b))
    ensures ResumesWith(s, q, path + [i], count, u, rest)
  {
    if rest.Some? {
      assert path + ([i] + rest.value) == path + [i] + rest.value;
    }
  }

  lemma {:induction false} ResumeEnd(s: Sys, t: Sys, q: nat, path: seq<Slot>, number: nat, count: nat,
                                     last: Option<Slot>, r: Option<nat>)
    requires s.pool.Shaped() && t.pool.Shaped() && Node(t.mem, q, path) && |path| == 3 && 1 <= count
    requires Resumes(s, t, q, path, 0, count) && last == FindFree(Tab(t.mem, At(t.mem, q, path)), count)
    requires number == Digits512(path)
             && r == match last case None => None case Some(i) => Some(number * 512 + i as nat)
    ensures FoundIs(s, t, q, count, r)
  {
    if last.Some? {
      AppendDigit(path, last.value);
      var page := path + [last.value];
      assert PageScan.FindEmptyPages(s, q, count) == (t, Some(page));
      EndsIn(s, q, page, count, t, r.value);
    }
  }

  lemma {:induction false} EndsIn(s: Sys, q: nat, page: seq<Slot>, count: nat, t: Sys, n: nat)
    requires s.pool.Shaped() && 1 <= count && |page| == 4 && NumberOf(page) == n
    requires PageScan.FindEmptyPages(s, q, count) == (t, Some(page))
    ensures FoundIs(s, t, q, count, Some(n))
  {
  }

  lemma {:induction false} SearchStart(s: Sys, q: nat, path: seq<Slot>, count: nat)
    requires SpaceOk(s, q) && Window(s.mem, s.cr3, q) && 1 <= count && path == []
    ensures Node(s.mem, q, path) && TableVa(path) == LEVEL4_TABLE && Digits512(path) == 0
    ensures IsPresent(Entry(s.mem, At(s.mem, q, path), SELF)) && Grows(s, s, q) && Resumes(s, s, q, path, 3, count)
  {
    assert Node(s.mem, q, path) && At(s.mem, q, path) == q;
    RootAddress(path);
    GrowsRefl(s, q);
    ResumeStart(s, q, path, count);
  }

  lemma {:induction false} ResumeStart(s: Sys, q: nat, path: seq<Slot>, count: nat)
    requires s.pool.Shaped() && 1 <= count && path == [] && Node(s.mem, q, path)
    ensures Resumes(s, s, q, path, 3, count)
  {
    var (u, rest) := Probe(s, q, 3, count);
    if rest.Some? {
      assert path + rest.value == rest.value;
    }
  }

  /** The indices of the upper three levels, and that of the last. */
  method PageIndices(page: nat) returns (path: seq<Slot>, d: Slot)
    ensures path == IdxOf(page)[..3] && d == IdxOf(page)[3]
    ensures Ordinary(IdxOf(page)) ==> Ordinary(path) && d != SELF
  {
    IndexBits(page);
    assert IdxOf(page)[0] == Level4Index(page) && IdxOf(page)[1] == Level3Index(page);
    assert IdxOf(page)[2] == Level2Index(page) && IdxOf(page)[3] == Level1Index(page);
    path := [Level4Index(page), Level3Index(page), Level2Index(page)];
    d := Level1Index(page);
  }

  /** The i-th page and frame of a range, from addresses and byte offsets. */
  lemma {:induction false} RangeStep(vBegin: nat, pBegin: nat, offset: nat, i: nat, page: nat, frame: nat)
    requires offset == i * FRAME && page == (vBegin + offset) / FRAME && frame == (pBegin + offset) / FRAME
    ensures page == vBegin / FRAME + i && frame == pBegin / FRAME + i
  {
  }

  lemma {:induction false} RangeItem(v: nat, p: nat, count: nat, i: nat, page: nat, frame: nat)
    requires i < count && page == v + i && frame == p + i
    ensures Range(v, p, count)[i] == Mapping(PageOf(page), frame)
  {
  }

  lemma {:induction false} PageOfAddress(page: nat)
    ensures IdxOf(page * FRAME) == PageOf(page)
  {
    assert page * FRAME / FRAME == page;
  }

  lemma {:induction false} MapFittingIs(s: Sys, q: nat, vBegin: nat, vEnd: nat, pBegin: nat, count2mb: nat,
                                        count4kb: nat)
    requires s.pool.Shaped() && vBegin <= vEnd
    requires count2mb == (vEnd - vBegin) / 0x20_0000 && count4kb == (vEnd - vBegin - count2mb * 0x20_0000) / FRAME
    ensures PageOps.MapFitting(s, q, vBegin, vEnd, pBegin) ==
            if 0 < count2mb then (s, Panicked)
            else
              var (t, r) := MapAll(s, q, Range(vBegin / FRAME, pBegin / FRAME, count4kb));
              (t, match r case Ok(_) => Done(()) case Err(e) => Failed(e))
    ensures count2mb == 0 ==>
              vEnd - vBegin < 0x20_0000
                && Range(vBegin / FRAME, pBegin / FRAME, count4kb) == Fitting(vBegin, vEnd, pBegin)
  {
  }

  lemma {:induction false} MapAllStep(s: Sys, t: Sys, q: nat, l: seq<Mapping>, i: nat, r: Result<()>)
    requires s.pool.Shaped() && t.pool.Shaped() && Pages(l) && i < |l|
    requires (t, r) == PageMap.Map(s, q, l[i].page, l[i].frame)
    ensures Pages(l[i..]) && Pages(l[i + 1..])
    ensures MapAll(s, q, l[i..]) == if r.Err? then (t, r) else MapAll(t, q, l[i + 1..])
  {
    assert l[i..][0] == l[i] && l[i..][1..] == l[i + 1..];
  }

  lemma {:induction false} PathParts(path: seq<Slot>, i: nat)
    requires i < |path|
    ensures path[..i] + [path[i]] + path[i + 1..] == path && path[..i] + [path[i]] == path[..i + 1]
    ensures path[i..][0] == path[i] && path[i..][1..] == path[i + 1..]
  {
  }

  lemma {:induction false} MapStays(s: Sys, t: Sys, q: nat, idx: seq<Slot>, frame: nat, r: Result<()>)
    requires SpaceOk(s, q) && Window(s.mem, s.cr3, q) && !FrameFree(s, s.cr3) && Addressable(s, q, idx)
             && frame < MAX_FRAME
    requires (t, r) == PageMap.Map(s, q, idx, frame)
    ensures SpaceOk(t, q) && Grows(s, t, q) && Window(t.mem, t.cr3, q) && !FrameFree(t, t.cr3)
  {
    MapExactly(s, q, idx, frame);
    WindowKept(s, t, q);
  }

  /** No huge page on a path: none at a step of it, once the steps before lead to a table. */
  lemma {:induction false} HugeFreeStep(m: Memory, f: nat, a: seq<Slot>, g: nat, i: Slot, b: seq<Slot>)
    requires HugeFree(m, f, a + [i] + b) && Follow(m, f, a) == Some(g)
    ensures HugeFree(m, g, [i])
    decreases a
  {
    var r := a + [i] + b;
    if a == [] {
      assert r[0] == i;
      assert [i][1..] == [];
    } else {
      assert r[0] == a[0] && r[1..] == a[1..] + [i] + b;
      HugeFreeStep(m, Next(m, f, a[0]).value, a[1..], g, i, b);
    }
  }

  /** t and r are the state and the answer of `next_level_table_create_mut` in s, for the table at p. */
  ghost predicate Created(s: Sys, t: Sys, q: nat, p: seq<Slot>, i: Slot, r: Option<nat>)
    requires Inv(s.pool) && Inv(t.pool) && Node(s.mem, q, p) && |p| <= 2
  {
    var next := CreateNext(s, At(s.mem, q, p), i).1;
    && t == CreateNext(s, At(s.mem, q, p), i).0
    && r == (if next.Some? then Some(TableVa(p + [i])) else None)
    && Grows(s, t, q)
    && (next.Some? ==> Node(t.mem, q, p + [i]) && At(t.mem, q, p + [i]) == next.value)
  }

  lemma {:induction false} SlotOpened(s: Sys, t: Sys, q: nat, p: seq<Slot>, i: Slot, k: nat, count: nat, r: Option<nat>)
    requires SpaceOk(s, q) && SpaceOk(t, q) && Node(s.mem, q, p) && |p| + k == 3 && 0 < k && 1 <= count && i != SELF
    requires FindFree(Tab(s.mem, At(s.mem, q, p)), 1) == Some(i) && Created(s, t, q, p, i, r)
    ensures Opened(s, t, q, p, k, count, match r case None => None case Some(v) => Some((i, v)))
  {
    ProbeStep(s, q, p, i, k, count);
    if r.Some? {
      FreshHasSelf(t.mem, At(t.mem, q, p + [i]));
    }
  }

  lemma {:induction false} CreateKeepsActive(s: Sys, t: Sys, q: nat, p: seq<Slot>, i: Slot, r: Option<nat>)
    requires SpaceOk(s, q) && Window(s.mem, s.cr3, q) && !FrameFree(s, s.cr3)
    requires Node(s.mem, q, p) && |p| <= 2 && i != SELF && HugeFree(s.mem, At(s.mem, q, p), [i])
    requires t == CreateNext(s, At(s.mem, q, p), i).0
    requires r == if CreateNext(s, At(s.mem, q, p), i).1.Some? then Some(TableVa(p + [i])) else None
    ensures SpaceOk(t, q) && Window(t.mem, t.cr3, q) && !FrameFree(t, t.cr3) && Created(s, t, q, p, i, r)
  {
    CreateNextCorrect(s, q, p, i);
    WindowKept(s, t, q);
    if r.Some? {
      NodeBelow(t.mem, q, p, i, [i]);
    }
  }

  lemma {:induction false} LinkBelow(w: nat, f: nat)
    requires w < NO_EXECUTE && f < MAX_FRAME
    ensures Link(w, f) < NO_EXECUTE
  {
  }

  /** Editing q keeps the recursive slots on the way to it. */
  lemma {:induction false} WindowKept(s: Sys, t: Sys, q: nat)
    requires SpaceOk(s, q) && Inv(t.pool) && Window(s.mem, s.cr3, q) && !FrameFree(s, s.cr3) && Grows(s, t, q)
    ensures Window(t.mem, t.cr3, q) && !FrameFree(t, t.cr3)
  {
    RootSelf(s, t, q);
  }

  /** A walk without creation, from the table after the first i steps. */
  lemma {:induction false} WalkStep(m: Memory, q: nat, path: seq<Slot>, i: nat)
    requires i < |path| <= 3 && Ordinary(path) && Node(m, q, path[..i])
    ensures var next := Next(m, At(m, q, path[..i]), path[i]);
            if next.None? then Follow(m, q, path) == None else Node(m, q, path[..i + 1])
    ensures path[..i] + [path[i]] == path[..i + 1]
  {
    PathParts(path, i);
    FollowAppend(m, q, path[..i], path[i..]);
    assert path[..i] + path[i..] == path;
    FollowOne(m, q, path[..i], path[i]);
  }

  /** The pages `find_empty_pages` answers with can be mapped. */
  lemma {:induction false} FoundAcceptable(s: Sys, t: Sys, q: nat, count: nat, n: nat, frame: nat)
    requires SpaceOk(s, q) && IsPresent(Entry(s.mem, q, SELF)) && 1 <= count <= 256 && frame + count <= MAX_FRAME
    requires FoundIs(s, t, q, count, Some(n))
    ensures Inv(t.pool) && Acceptable(t, q, Range(n, frame, count))
  {
    FindEmptyCorrect(s, q, count);
    FoundRun(t, q, FirstFree(Tab(s.mem, q), 1), count, n, frame);
  }

  lemma {:induction false} FoundRun(t: Sys, q: nat, i: Slot, count: nat, n: nat, frame: nat)
    requires SpaceOk(t, q) && RunBelow(t, q, [i, 1, 1]) && i != SELF && n == NumberOf([i, 1, 1, 1])
    requires 1 <= count <= 256 && frame + count <= MAX_FRAME
    ensures Acceptable(t, q, Range(n, frame, count))
  {
    var l := Range(n, frame, count);
    AutoReady(t, q, i, frame, count, l);
    forall j | 0 <= j < |l| ensures Mappable(t, q, l[j].page) && l[j].frame < MAX_FRAME {
      RunPage(t, q, [i, 1, 1], (1 + j) as Slot);
    }
  }

  /** A found run for 2^order pages: order is at most 8, and once it is mapped `auto_continuous_map` is over. */
  lemma {:induction false} FoundBlock(s: Sys, t: Sys, q: nat, order: nat, n: nat, frame: nat)
    requires SpaceOk(s, q) && IsPresent(Entry(s.mem, q, SELF)) && t.pool.Shaped() && frame + Pow2(order) <= MAX_FRAME
    requires FoundIs(s, t, q, Pow2(order), Some(n))
    ensures Inv(t.pool) && Acceptable(t, q, Range(n, frame, Pow2(order)))
    ensures AutoMap(s, q, frame, order) == PageOps.MapBlock(t, q, n, frame, Pow2(order))
  {
    FindEmptyCorrect(s, q, Pow2(order));
    OrderBound(order);
    FoundAcceptable(s, t, q, Pow2(order), n, frame);
    AutoFrom(s, t, q, order, n, frame);
  }

  lemma {:induction false} AutoFrom(s: Sys, t: Sys, q: nat, order: nat, n: nat, frame: nat)
    requires s.pool.Shaped() && t.pool.Shaped() && FoundIs(s, t, q, Pow2(order), Some(n))
    ensures AutoMap(s, q, frame, order) == PageOps.MapBlock(t, q, n, frame, Pow2(order))
  {
  }

  lemma {:induction false} NumberOfAddress(n: nat)
    ensures n * FRAME / FRAME == n
  {
  }

  lemma {:induction false} BlockEnds(s: Sys, t: Sys, q: nat, n: nat, frame: nat, count: nat, result: Result<()>,
                                     r: Outcome<Option<Region>>)
    requires s.pool.Shaped() && (t, result) == MapAll(s, q, Range(n, frame, count))
    requires r == if result.Err? then Panicked else Done(Some(Region(n * FRAME, n * FRAME + count * FRAME)))
    ensures PageOps.MapBlock(s, q, n, frame, count) == (t, r)
  {
  }

  lemma {:induction false} ReleasePanics(s: Sys, f: nat, t: nat, i: Slot)
    requires s.pool.Shaped() && (Managed(s, f) ==> Free(s.pool, f - s.base).None?)
    ensures Release(s, f, t, i).1 == Panicked
  {
  }
}
