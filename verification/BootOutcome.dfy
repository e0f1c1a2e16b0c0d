/**
 When the boot sequence succeeds: exactly for a page-aligned kernel below 2 MB,
 disjoint requests, and enough frames for every table it needs.
 */
module BootOutcome {
  import opened Frames
  import opened Wrappers
  import opened BuddySystem
  import opened BuddyCorrect
  import opened BuddyNew
  import opened PageTables
  import opened PageLink
  import opened PageMap
  import opened PageScan
  import opened PageOps
  import opened PageUnmap
  import opened PageCost
  import opened AddressSpaces
  import opened KernelInit
  import opened RecursiveAddress
  import opened TableSteps
  import opened SpaceSteps
  import opened BootState

  // ----- slots of the root

  /** At most slot i of table q differs. */
  predicate RootSame(m: Memory, n: Memory, q: nat, i: Slot) {
    Tab(n, q) == Tab(m, q)[i := Entry(n, q, i)]
  }

  /** Creating a table changes one slot of the table above, and no other table. */
  lemma {:induction false} CreateRoot(s: Sys, q: nat, p: seq<Slot>, i: Slot)
    requires SpaceOk(s, q) && Node(s.mem, q, p) && |p| <= 2 && i != SELF && HugeFree(s.mem, At(s.mem, q, p), [i])
    ensures var t := CreateNext(s, At(s.mem, q, p), i).0;
            RootSame(s.mem, t.mem, q, i) && (p != [] ==> Tab(t.mem, q) == Tab(s.mem, q))
  {
    var tab := At(s.mem, q, p);
    if Next(s.mem, tab, i).None? {
      AllocOneCorrect(s);
      var (s1, got) := AllocOne(s);
      if got.Some? {
        CreateLinks(s, q, p, i, s1, got.value);
        FreshFrame(s, q, p, i, got.value);
        LinkRoot(s.mem, q, p, i, got.value);
      }
    }
  }

  lemma {:induction false} LinkRoot(m: Memory, q: nat, p: seq<Slot>, i: Slot, f: nat)
    requires Creatable(m, q, p, i, f)
    ensures var n := Linked(m, At(m, q, p), i, f); RootSame(m, n, q, i) && (p != [] ==> Tab(n, q) == Tab(m, q))
  {
    var root: seq<Slot> := [];
    assert Node(m, q, root) && At(m, q, root) == q && TableOf(m, q, q);
    LinkAgrees(m, q, p, i, f);
    LinkedEntries(m, At(m, q, p), i, f);
  }

  lemma {:induction false} DescendRoot(s: Sys, q: nat, p: seq<Slot>, path: seq<Slot>)
    requires SpaceOk(s, q) && Node(s.mem, q, p) && |p| + |path| <= 3 && Ordinary(path)
    requires HugeFree(s.mem, At(s.mem, q, p), path) && path != []
    ensures var t := Descend(s, At(s.mem, q, p), path).0;
            RootSame(s.mem, t.mem, q, path[0]) && (p != [] ==> Tab(t.mem, q) == Tab(s.mem, q))
    decreases path
  {
    var i, tab := path[0], At(s.mem, q, p);
    DescendStep(s, q, p, path);
    CreateRoot(s, q, p, i);
    var (s1, next) := CreateNext(s, tab, i);
    if next.Some? && path[1..] != [] {
      DescendRoot(s1, q, p + [i], path[1..]);
    }
  }

  /** A leaf of a last-level table is no entry of the root. */
  lemma {:induction false} LeafRoot(m: Memory, q: nat, p: seq<Slot>, i: Slot, w: nat)
    requires NoAlias(m, q) && Node(m, q, p) && p != []
    ensures Tab(Write(m, At(m, q, p), i, w), q) == Tab(m, q)
  {
    var root: seq<Slot> := [];
    assert Node(m, q, root) && At(m, q, root) == q;
  }

  lemma {:induction false} MapRoot(s: Sys, q: nat, idx: seq<Slot>, frame: nat)
    requires SpaceOk(s, q) && Mappable(s, q, idx) && frame < MAX_FRAME
    ensures RootSame(s.mem, Map(s, q, idx, frame).0.mem, q, idx[0])
  {
    var root: seq<Slot> := [];
    DescendMapped(s, q, idx);
    DescendRoot(s, q, root, idx[..3]);
    var (s1, table) := Descend(s, q, idx[..3]);
    if table.Some? {
      LeafRoot(s1.mem, q, idx[..3], idx[3], Link(Entry(s1.mem, table.value, idx[3]), frame));
    }
  }

  lemma {:induction false} UnmapRoot(s: Sys, q: nat, idx: seq<Slot>)
    requires SpaceOk(s, q) && Mappable(s, q, idx)
    ensures Tab(Unmap(s, q, idx).0.mem, q) == Tab(s.mem, q)
  {
    OrdinaryParts(idx[..3], idx[3], []);
    assert idx[..3] + [idx[3]] + [] == idx;
    if Follow(s.mem, q, idx[..3]).Some? {
      LeafRoot(s.mem, q, idx[..3], idx[3], 0);
    }
  }

  lemma {:induction false} ProbeRoot(s: Sys, q: nat, p: seq<Slot>, k: nat, count: nat)
    requires SpaceOk(s, q) && Node(s.mem, q, p) && |p| + k == 3 && 1 <= count
    requires IsPresent(Entry(s.mem, At(s.mem, q, p), SELF))
    ensures var t := Probe(s, At(s.mem, q, p), k, count).0; var i := FirstFree(Tab(s.mem, At(s.mem, q, p)), 1);
            && (p != [] ==> Tab(t.mem, q) == Tab(s.mem, q))
            && (p == [] && i < ENTRIES ==> RootSame(s.mem, t.mem, q, i))
    decreases k
  {
    var tab := At(s.mem, q, p);
    RootScan(s.mem, tab);
    var i := FirstFree(Tab(s.mem, tab), 1);
    if k != 0 && i < SELF {
      ProbeDown(s, q, p, i, k, count);
      var (s1, next) := CreateNext(s, tab, i);
      if next.Some? {
        ProbeRoot(s1, q, p + [i as Slot], k - 1, count);
      }
    }
  }

  /** One level of the search. */
  lemma {:induction false} ProbeDown(s: Sys, q: nat, p: seq<Slot>, i: Slot, k: nat, count: nat)
    requires SpaceOk(s, q) && Node(s.mem, q, p) && |p| + k == 3 && 1 <= count && 0 < k && i != SELF
    requires FindFree(Tab(s.mem, At(s.mem, q, p)), 1) == Some(i)
    ensures var (s1, next) := CreateNext(s, At(s.mem, q, p), i); var t := Probe(s, At(s.mem, q, p), k, count).0;
            && SpaceOk(s1, q) && RootSame(s.mem, s1.mem, q, i) && (p != [] ==> Tab(s1.mem, q) == Tab(s.mem, q))
            && (next.None? ==> t == s)
            && (next.Some? ==>
                  && Node(s1.mem, q, p + [i]) && At(s1.mem, q, p + [i]) == next.value
                  && IsPresent(Entry(s1.mem, next.value, SELF)) && t == Probe(s1, next.value, k - 1, count).0)
  {
    ProbeStep(s, q, p, i, k, count);
    FreeSlotNoHuge(s.mem, At(s.mem, q, p), i);
    CreateRoot(s, q, p, i);
    var (s1, next) := CreateNext(s, At(s.mem, q, p), i);
    if next.Some? {
      FreshHasSelf(s1.mem, next.value);
    }
  }

  lemma {:induction false} KeepRoot(s: Sys, a: nat, f: nat)
    requires SpaceOk(s, a) && SelfLinked(s.mem, a) && f < MAX_FRAME
    ensures var (t, found, _) := Keep(s, a, f); var i := FirstFree(Tab(s.mem, a), 1);
            found.Some? ==> i < ENTRIES && RootSame(s.mem, t.mem, a, i)
  {
    var root: seq<Slot> := [];
    assert Node(s.mem, a, root) && At(s.mem, a, root) == a;
    var (s1, found) := FindEmptyPages(s, a, 1);
    if found.Some? {
      var i := FirstFree(Tab(s.mem, a), 1);
      assert i < SELF && SpaceOk(s1, a) && found.value == [i, 1, 1, 1] && RunBelow(s1, a, [i, 1, 1]) by {
        FindEmptyCorrect(s, a, 1);
      }
      assert RootSame(s.mem, s1.mem, a, i) by {
        ProbeRoot(s, a, root, 3, 1);
      }
      KeptMapRoot(s1, a, i, found.value, f);
      KeepUnfolds(s, s1, a, f, found.value);
    }
  }

  lemma {:induction false} KeptMapRoot(s: Sys, a: nat, i: Slot, page: seq<Slot>, f: nat)
    requires SpaceOk(s, a) && RunBelow(s, a, [i, 1, 1]) && page == [i, 1, 1, 1] && i != SELF && f < MAX_FRAME
    ensures RootSame(s.mem, Map(s, a, page, f).0.mem, a, i)
  {
    var path: seq<Slot> := [i, 1, 1];
    RunPage(s, a, path, 1);
    assert path + [1] == page;
    MapRoot(s, a, page, f);
  }

  lemma {:induction false} KeepUnfolds(s: Sys, s1: Sys, a: nat, f: nat, page: seq<Slot>)
    requires s.pool.Shaped() && |page| == 4 && FindEmptyPages(s, a, 1) == (s1, Some(page))
    ensures Keep(s, a, f).0 == Map(s1, a, page, f).0
  {
  }

  /** `InActivePageTable::new` takes one slot of the active root. */
  lemma {:induction false} NewRoot(s: Sys, a: nat, f: nat)
    requires SpaceOk(s, a) && s.cr3 == a && SelfLinked(s.mem, a) && NewInactive(s, a).1 == Done(Some(f))
    ensures var i := FirstFree(Tab(s.mem, a), 1); i < ENTRIES && RootSame(s.mem, NewInactive(s, a).0.mem, a, i)
  {
    NewTakes(s, a);
    var (s1, got) := AllocOne(s);
    var (s2, found, r) := Keep(s1, a, got.value);
    NewPrepares(s, s1, s2, a, got.value, found.value);
    AllocOneCorrect(s);
    KeepRoot(s1, a, got.value);
    KeptFrame(s, s1, s2, a, got.value, FirstFree(Tab(s.mem, a), 1), found.value);
    PrepareIs(s2, found.value, got.value);
    RootIsTable(s2.mem, a);
  }

  /** The boot test leaves all slots of the root alone but that of its page. */
  lemma {:induction false} RoundTripRoot(s: Sys, q: nat, idx: seq<Slot>, junk: seq<nat>)
    requires SpaceOk(s, q) && Mappable(s, q, idx) && |junk| == ENTRIES && TestMap(s, q, idx, junk).1 == None
    ensures RootSame(s.mem, RoundTrip(s, q, idx, junk).0.mem, q, idx[0])
  {
    var (s1, got) := AllocOne(s);
    var f := got.value;
    AllocOneCorrect(s);
    AllocKeepsSpace(s, s1, q, f);
    MapRoot(s1, q, idx, f);
    var (s2, r) := Map(s1, q, idx, f);
    JunkRoot(s, s1, s2, q, idx, f, junk);
    UnmapRoot(s2.(mem := s2.mem[f := junk]), q, idx);
  }

  lemma {:induction false} JunkRoot(s: Sys, s1: Sys, s2: Sys, q: nat, idx: seq<Slot>, f: nat, junk: seq<nat>)
    requires SpaceOk(s, q) && Mappable(s, q, idx) && SpaceOk(s1, q) && |junk| == ENTRIES && AllocOne(s) == (s1, Some(f))
    requires Map(s1, q, idx, f).0 == s2
    ensures var u := s2.(mem := s2.mem[f := junk]);
            SpaceOk(u, q) && Mappable(u, q, idx) && Tab(u.mem, q) == Tab(s2.mem, q)
  {
    AllocOneCorrect(s);
    MapCorrect(s1, q, idx, f);
    JunkKeeps(s, s1, s2, q, idx, f, junk);
    JunkElsewhere(s2.mem, q, f, junk);
  }

  // ----- with

  lemma {:induction false} LackingSame(s: Sys, t: Sys, q: nat, l: seq<Mapping>)
    requires Pages(l) && Acceptable(s, q, l) && SameSpace(s.mem, t.mem, q)
    ensures Lacking(t.mem, q, TablePaths(l)) == Lacking(s.mem, q, TablePaths(l))
    ensures NoSelf(l) ==> (AllNew(t.mem, q, l) <==> AllNew(s.mem, q, l))
  {
    forall p | p in TablePaths(l) ensures Follow(t.mem, q, p) == Follow(s.mem, q, p) {
      var j, k :| 0 <= j < |l| && 1 <= k <= 3 && p == l[j].page[..k];
      assert Addressable(s, q, l[j].page) && p == l[j].page[..3][..k];
    }
    if NoSelf(l) {
      AllOrdinary(s, q, l);
      assert forall j :: 0 <= j < |l| ==> Lookup(t.mem, q, l[j].page) == Lookup(s.mem, q, l[j].page);
    }
  }

  /** `with` succeeds exactly when it finds a page for the way back, in the canonical half, and the list can be made
      with the frames that are left then. */
  lemma {:induction false} WithExactly(s: Sys, a: nat, q: nat, l: seq<Mapping>)
    requires ReadyFor(s, a, q) && Pages(l) && Acceptable(s, q, l)
    ensures With(s, a, q, l).1.Done? <==>
            && 3 <= CountFree(s.pool) && FirstFree(Tab(s.mem, a), 1) < 256
            && NoSelf(l) && AllNew(s.mem, q, l) && |Lacking(s.mem, q, TablePaths(l))| <= CountFree(s.pool) - 3
  {
    OverrideCorrect(s, a, q);
    var (s1, kept) := Override(s, a, q);
    var k := WithCorrect(s, a, q, l);
    if kept.Ok? {
      AcceptableKept(s, s1, q, l);
      ListAfter(s, s1, q, l);
      var (u, r) := MapAll(s1, q, l);
      WithEnds(s, s1, u, a, q, l, kept.value, r);
    }
  }

  /** Where the list stops depends on the space and the number of free frames alone. */
  lemma {:induction false} StopsSame(s: Sys, t: Sys, q: nat, l: seq<Mapping>, n: int, k: nat, r: Outcome<()>, left: int)
    requires Pages(l) && Acceptable(s, q, l) && SameSpace(s.mem, t.mem, q) && ListStops(t.mem, q, l, n, k, r, left)
    ensures ListStops(s.mem, q, l, n, k, r, left)
  {
    StopsAtSame(s, t, q, l, n, k);
    OutcomeSame(s, t, q, l, n, k, r, left);
  }

  lemma {:induction false} StopsAtSame(s: Sys, t: Sys, q: nat, l: seq<Mapping>, n: int, k: nat)
    requires Pages(l) && Acceptable(s, q, l) && SameSpace(s.mem, t.mem, q) && StopsAt(t.mem, q, l, n, k)
    ensures StopsAt(s.mem, q, l, n, k)
  {
    forall j | 0 <= j < |l| ensures Passes(s.mem, q, l, n, j) <==> Passes(t.mem, q, l, n, j) {
      PassesSame(s, t, q, l, n, j);
    }
  }

  lemma {:induction false} OutcomeSame(s: Sys, t: Sys, q: nat, l: seq<Mapping>, n: int, k: nat, r: Outcome<()>,
                                       left: int)
    requires Pages(l) && Acceptable(s, q, l) && SameSpace(s.mem, t.mem, q) && k <= |l| && r != Panicked
    ensures var o := if r.Done? then Ok(()) else Err(r.error);
            StopOutcome(t.mem, q, l, n, k, o, left) == StopOutcome(s.mem, q, l, n, k, o, left)
  {
    TablesSame(s, t, q, l, k);
    if k < |l| {
      TablesSame(s, t, q, l, k + 1);
    }
    OutcomeBy(s.mem, t.mem, q, l, n, k, if r.Done? then Ok(()) else Err(r.error), left);
  }

  lemma {:induction false} OutcomeBy(m: Memory, m1: Memory, q: nat, l: seq<Mapping>, n: int, k: nat, o: Result<()>,
                                     left: int)
    requires Pages(l) && k <= |l| && TablesFor(m, q, l, k) == TablesFor(m1, q, l, k)
    requires k < |l| ==> TablesFor(m, q, l, k + 1) == TablesFor(m1, q, l, k + 1)
    ensures StopOutcome(m1, q, l, n, k, o, left) == StopOutcome(m, q, l, n, k, o, left)
  {
  }

  lemma {:induction false} PassesSame(s: Sys, t: Sys, q: nat, l: seq<Mapping>, n: int, j: nat)
    requires Pages(l) && Acceptable(s, q, l) && SameSpace(s.mem, t.mem, q) && j < |l|
    ensures Passes(s.mem, q, l, n, j) <==> Passes(t.mem, q, l, n, j)
  {
    BlockedSame(s, t, q, l, j);
    TablesSame(s, t, q, l, j + 1);
  }

  lemma {:induction false} TablesSame(s: Sys, t: Sys, q: nat, l: seq<Mapping>, k: nat)
    requires Pages(l) && Acceptable(s, q, l) && SameSpace(s.mem, t.mem, q) && k <= |l|
    ensures TablesFor(s.mem, q, l, k) == TablesFor(t.mem, q, l, k)
  {
    LackingSame(s, t, q, l[..k]);
  }

  lemma {:induction false} BlockedSame(s: Sys, t: Sys, q: nat, l: seq<Mapping>, j: nat)
    requires Pages(l) && Acceptable(s, q, l) && SameSpace(s.mem, t.mem, q) && j < |l|
    ensures Blocked(s.mem, q, l, j) <==> Blocked(t.mem, q, l, j)
  {
    assert Addressable(s, q, l[j].page);
    OrdinaryIs(l[j].page);
  }

  /** Where the closure stops decides what `with` answers, and what is left of the frames: three less than before, and
      the tables for all pages tried. */
  lemma {:induction false} WithStops(s: Sys, a: nat, q: nat, l: seq<Mapping>, n: int)
    requires ReadyFor(s, a, q) && Pages(l) && Acceptable(s, q, l)
    requires n == CountFree(s.pool) - 3 && 0 <= n && FirstFree(Tab(s.mem, a), 1) < 256
    ensures exists k: nat ::
              ListStops(s.mem, q, l, n, k, With(s, a, q, l).1, CountFree(With(s, a, q, l).0.pool))
  {
    OverrideCorrect(s, a, q);
    var (s1, kept) := Override(s, a, q);
    AcceptableKept(s, s1, q, l);
    MapAllStops(s1, q, l);
    var k: nat :| Stops(s1, q, l, k);
    var i := WithCorrect(s, a, q, l);
    WithClosed(s, s1, a, q, l, kept.value);
    StopsSame(s, s1, q, l, n, k, With(s, a, q, l).1, CountFree(With(s, a, q, l).0.pool));
  }

  /** After the closure only the recursive slot changes. */
  lemma {:induction false} WithClosed(s: Sys, s1: Sys, a: nat, q: nat, l: seq<Mapping>, idx: seq<Slot>)
    requires ReadyFor(s, a, q) && Override(s, a, q) == (s1, Ok(idx)) && |idx| == 4 && Overridden(s, s1, a, q, idx)
    requires Pages(l) && Acceptable(s1, q, l) && !With(s, a, q, l).1.Panicked?
    ensures var (t, o) := With(s, a, q, l); var (u, r) := MapAll(s1, q, l);
            t.pool == u.pool && o == match r case Ok(_) => Done(()) case Err(e) => Failed(e)
  {
    var (u, r) := MapAll(s1, q, l);
    WithEnds(s, s1, u, a, q, l, idx, r);
    RestoredIs(u, idx, r);
  }

  lemma {:induction false} RestoredIs(u: Sys, idx: seq<Slot>, r: Result<()>)
    requires u.pool.Shaped() && |idx| == 4
    ensures var (t, o) := WithRestored(u, idx, r);
            t.pool == u.pool && (!o.Panicked? ==> o == match r case Ok(_) => Done(()) case Err(e) => Failed(e))
  {
  }

  /** Which error `with` answers, for a list that can be tried. */
  lemma {:induction false} WithAnswers(s: Sys, a: nat, q: nat, l: seq<Mapping>, n: int)
    requires ReadyFor(s, a, q) && Pages(l) && Acceptable(s, q, l)
    requires n == CountFree(s.pool) - 3 && 0 <= n && FirstFree(Tab(s.mem, a), 1) < 256
    ensures ErrorsExact(s.mem, q, l, n, With(s, a, q, l).1)
  {
    WithStops(s, a, q, l, n);
    ListAnswers(s.mem, q, l, n, With(s, a, q, l).1, CountFree(With(s, a, q, l).0.pool));
  }

  /** Each error of a list, tried with n free frames, exactly if its condition holds. */
  ghost predicate ErrorsExact(m: Memory, q: nat, l: seq<Mapping>, n: int, r: Outcome<()>)
    requires Pages(l)
  {
    && (r == Failed(AlreadyMapped) <==> Refusal(m, q, l, n))
    && (r == Failed(NoPageTable) <==> Shortage(m, q, l, n))
    && r != Failed(NoEntry) && !r.Panicked?
  }

  lemma {:induction false} ListAnswers(m: Memory, q: nat, l: seq<Mapping>, n: int, r: Outcome<()>, left: int)
    requires Pages(l) && exists k: nat :: ListStops(m, q, l, n, k, r, left)
    ensures ErrorsExact(m, q, l, n, r)
  {
    var k: nat :| ListStops(m, q, l, n, k, r, left);
    StopReason(m, q, l, n, k);
  }

  /** The list, in a state in which the space is the same and three frames less are free. */
  lemma {:induction false} ListAfter(s: Sys, s1: Sys, q: nat, l: seq<Mapping>)
    requires SpaceOk(s1, q) && Inv(s.pool) && Pages(l) && Acceptable(s, q, l) && Acceptable(s1, q, l)
    requires SameSpace(s.mem, s1.mem, q) && CountFree(s1.pool) == CountFree(s.pool) - 3
    ensures MapAll(s1, q, l).1.Ok? <==>
            NoSelf(l) && AllNew(s.mem, q, l) && |Lacking(s.mem, q, TablePaths(l))| <= CountFree(s.pool) - 3
  {
    MapAllExactly(s1, q, l);
    LackingSame(s, s1, q, l);
  }

  // ----- disjoint requests

  predicate Covers(r: Request, f: nat) {
    r.frame <= f < r.frame + r.count
  }

  /** No frame is requested twice. */
  ghost predicate DisjointRequests(rs: seq<Request>) {
    forall i, j, f: nat :: 0 <= i < j < |rs| && Covers(rs[i], f) ==> !Covers(rs[j], f)
  }

  predicate FramesDiffer(l: seq<Mapping>) {
    forall i, j :: 0 <= i < j < |l| ==> l[i].frame != l[j].frame
  }

  /** Below 2^36 frames, different frames are at different pages. */
  lemma {:induction false} PagesDiffer(f: nat, g: nat)
    requires f < MAX_FRAME && g < MAX_FRAME && PageOf(OFFSET_PAGES + f) == PageOf(OFFSET_PAGES + g)
    ensures f == g
  {
    NumberOfPage(OFFSET_PAGES + f);
    NumberOfPage(OFFSET_PAGES + g);
    SameResidue(OFFSET_PAGES, f, g);
  }

  lemma {:induction false} FramesDifferCons(a: seq<Mapping>, b: seq<Mapping>)
    requires Pages(a) && Pages(b)
    ensures FramesDiffer(Joined(a, b)) <==>
            && FramesDiffer(a) && FramesDiffer(b)
            && forall i, j :: 0 <= i < |a| && 0 <= j < |b| ==> a[i].frame != b[j].frame
  {
    var l := Joined(a, b);
    if FramesDiffer(l) {
      forall i, j | 0 <= i < j < |a| ensures a[i].frame != a[j].frame {
        assert l[i] == a[i] && l[j] == a[j];
      }
      forall i, j | 0 <= i < j < |b| ensures b[i].frame != b[j].frame {
        assert l[|a| + i] == b[i] && l[|a| + j] == b[j];
      }
      forall i, j | 0 <= i < |a| && 0 <= j < |b| ensures a[i].frame != b[j].frame {
        assert l[i] == a[i] && l[|a| + j] == b[j];
      }
    }
  }

  /** The wanted frames differ exactly when the requests are disjoint. */
  lemma {:induction false} WantedDiffer(rs: seq<Request>)
    ensures FramesDiffer(Wanted(rs)) <==> DisjointRequests(rs)
    decreases rs
  {
    if rs != [] {
      WantedDiffer(rs[1..]);
      var a, b := RequestPages(rs[0]), Wanted(rs[1..]);
      FramesDifferCons(a, b);
      FirstDisjoint(rs);
      DisjointCons(rs);
    }
  }

  /** The frames of the first request occur among the others exactly when it overlaps one of them. */
  lemma {:induction false} FirstDisjoint(rs: seq<Request>)
    requires rs != []
    ensures var a, b := RequestPages(rs[0]), Wanted(rs[1..]);
            (forall i, j :: 0 <= i < |a| && 0 <= j < |b| ==> a[i].frame != b[j].frame) <==>
            forall f: nat :: Covers(rs[0], f) ==> !Requested(rs[1..], f)
  {
    var a, b := RequestPages(rs[0]), Wanted(rs[1..]);
    WantedExactly(rs[1..]);
    if f: nat :| Covers(rs[0], f) && Requested(rs[1..], f) {
      var j :| 0 <= j < |b| && b[j].frame == f;
      assert a[f - rs[0].frame].frame == b[j].frame;
    }
    if forall f: nat :: Covers(rs[0], f) ==> !Requested(rs[1..], f) {
      forall i, j | 0 <= i < |a| && 0 <= j < |b| ensures a[i].frame != b[j].frame {
        assert Due(rs[1..], b[j]) && Covers(rs[0], a[i].frame);
      }
    }
  }

  lemma {:induction false} DisjointCons(rs: seq<Request>)
    requires rs != []
    ensures DisjointRequests(rs) <==>
            DisjointRequests(rs[1..]) && forall f: nat :: Covers(rs[0], f) ==> !Requested(rs[1..], f)
  {
    var tail := rs[1..];
    if DisjointRequests(rs) {
      forall i, j, f: nat | 0 <= i < j < |tail| && Covers(tail[i], f) ensures !Covers(tail[j], f) {
        assert tail[i] == rs[i + 1] && tail[j] == rs[j + 1];
      }
      forall f: nat | Covers(rs[0], f) ensures !Requested(tail, f) {
        if Requested(tail, f) {
          var j :| 0 <= j < |tail| && tail[j].frame <= f < tail[j].frame + tail[j].count;
          assert tail[j] == rs[j + 1] && Covers(rs[j + 1], f);
          assert false;
        }
      }
    }
    if DisjointRequests(tail) && forall f: nat :: Covers(rs[0], f) ==> !Requested(tail, f) {
      forall i, j, f: nat | 0 <= i < j < |rs| && Covers(rs[i], f) ensures !Covers(rs[j], f) {
        assert tail[j - 1] == rs[j];
        if 0 < i {
          assert tail[i - 1] == rs[i];
        }
      }
    }
  }

  /** In an empty address space the wanted pages are new exactly when the requests are disjoint, ... */
  lemma {:induction false} FreshNew(m: Memory, q: nat, rs: seq<Request>)
    requires IsFresh(Tab(m, q), q) && Plain(Wanted(rs))
    ensures AllNew(m, q, Wanted(rs)) <==> DisjointRequests(rs)
  {
    var l := Wanted(rs);
    WantedDiffer(rs);
    forall i, j | 0 <= i < j < |l| ensures l[i].page == l[j].page <==> l[i].frame == l[j].frame {
      WantedPages(rs, i, j);
    }
    forall j | 0 <= j < |l| ensures Lookup(m, q, l[j].page) == None {
      assert l[j].page[0] == l[j].page[..3][0];
      FreshLookup(m, q, l[j].page);
    }
  }

  lemma {:induction false} WantedPages(rs: seq<Request>, i: nat, j: nat)
    requires Plain(Wanted(rs)) && i < j < |Wanted(rs)|
    ensures var l := Wanted(rs); l[i].page == l[j].page <==> l[i].frame == l[j].frame
  {
    var l := Wanted(rs);
    WantedExactly(rs);
    assert Due(rs, l[i]) && Due(rs, l[j]);
    if l[i].page == l[j].page {
      PagesDiffer(l[i].frame, l[j].frame);
    }
  }

  lemma {:induction false} FreshLookup(m: Memory, q: nat, page: seq<Slot>)
    requires IsFresh(Tab(m, q), q) && |page| == 4 && page[0] != SELF
    ensures Lookup(m, q, page) == None && Next(m, q, page[0]).None?
  {
    FreshSlots(Tab(m, q), q);
  }

  /** ... and all their tables are lacking. */
  lemma {:induction false} FreshLacking(m: Memory, q: nat, l: seq<Mapping>)
    requires IsFresh(Tab(m, q), q) && Pages(l) && Plain(l)
    ensures Lacking(m, q, TablePaths(l)) == TablePaths(l)
  {
    forall p | p in TablePaths(l) ensures Follow(m, q, p).None? {
      var j, k :| 0 <= j < |l| && 1 <= k <= 3 && p == l[j].page[..k];
      assert p[0] == l[j].page[..3][0] != SELF;
      FreshLookup(m, q, l[j].page);
    }
  }

  // ----- the boot sequence

  /** The frames the boot sequence takes before it fills the new address space: three tables for the test page, the
      new root and three for the page it is prepared through, and three for the way back kept by `with`. */
  const BOOT_FRAMES: nat := 10

  /** No wanted page has the last index of a self slot: the kernel offset is a multiple of 512 pages. */
  ghost predicate AvoidsSelf(rs: seq<Request>) {
    forall f: nat :: Requested(rs, f) ==> f % 512 != 511
  }

  lemma {:induction false} NoSelfWanted(rs: seq<Request>)
    ensures NoSelf(Wanted(rs)) <==> AvoidsSelf(rs)
  {
    var l := Wanted(rs);
    WantedExactly(rs);
    forall j | 0 <= j < |l| ensures Requested(rs, l[j].frame) && l[j].page[3] == l[j].frame % 512 {
      assert Due(rs, l[j]);
      LastIndex(l[j].frame);
    }
    forall f: nat | Requested(rs, f) ensures exists j :: 0 <= j < |l| && l[j].frame == f {
    }
  }

  lemma {:induction false} LastIndex(f: nat)
    ensures PageOf(OFFSET_PAGES + f)[3] == f % 512
  {
    IndicesFour(OFFSET_PAGES + f);
  }

  // ----- which error the boot sequence answers

  /** The j-th wanted frame cannot be mapped: its page would have the last index of a self slot, or it was wanted
      before. */
  predicate Unwelcome(l: seq<Mapping>, j: nat)
    requires j < |l|
  {
    l[j].frame % 512 == 511 || exists i :: 0 <= i < j && l[i].frame == l[j].frame
  }

  /** The j-th wanted frame cannot be mapped, and n frames suffice for the tables to find out. */
  predicate RefusedFrame(l: seq<Mapping>, n: int, j: nat)
    requires Pages(l) && j < |l|
  {
    Unwelcome(l, j) && |TablePaths(l[..j + 1])| <= n
  }

  /** n frames do not suffice for the tables of the first j + 1 wanted frames, the first j of which can be mapped. */
  predicate StarvedFrame(l: seq<Mapping>, n: int, j: nat)
    requires Pages(l) && j < |l|
  {
    n < |TablePaths(l[..j + 1])| && forall i :: 0 <= i < j ==> !Unwelcome(l, i)
  }

  predicate Refuses(l: seq<Mapping>, n: int)
    requires Pages(l)
  {
    exists j :: 0 <= j < |l| && RefusedFrame(l, n, j)
  }

  predicate Starves(l: seq<Mapping>, n: int)
    requires Pages(l)
  {
    exists j :: 0 <= j < |l| && StarvedFrame(l, n, j)
  }

  lemma {:induction false} FreshTables(m: Memory, q: nat, l: seq<Mapping>, k: nat)
    requires IsFresh(Tab(m, q), q) && Pages(l) && Plain(l) && k <= |l|
    ensures TablesFor(m, q, l, k) == |TablePaths(l[..k])|
  {
    FreshLacking(m, q, l[..k]);
  }

  lemma {:induction false} FreshBlocked(m: Memory, q: nat, rs: seq<Request>, j: nat)
    requires IsFresh(Tab(m, q), q) && Plain(Wanted(rs)) && j < |Wanted(rs)|
    ensures Blocked(m, q, Wanted(rs), j) <==> Unwelcome(Wanted(rs), j)
  {
    var l := Wanted(rs);
    WantedExactly(rs);
    assert Due(rs, l[j]);
    LastIndex(l[j].frame);
    assert l[j].page[0] == l[j].page[..3][0];
    FreshLookup(m, q, l[j].page);
    forall i | 0 <= i < j ensures l[i].page == l[j].page <==> l[i].frame == l[j].frame {
      WantedPages(rs, i, j);
    }
  }

  /** In an empty address space the wanted frames decide where the list stops. */
  lemma {:induction false} FreshReasons(m: Memory, q: nat, rs: seq<Request>, n: int)
    requires IsFresh(Tab(m, q), q) && Plain(Wanted(rs))
    ensures Refusal(m, q, Wanted(rs), n) <==> Refuses(Wanted(rs), n)
    ensures Shortage(m, q, Wanted(rs), n) <==> Starves(Wanted(rs), n)
  {
    var l := Wanted(rs);
    forall j | 0 <= j < |l|
      ensures RefusedAt(m, q, l, n, j) <==> RefusedFrame(l, n, j)
      ensures ShortAt(m, q, l, n, j) <==> StarvedFrame(l, n, j)
    {
      FreshReason(m, q, rs, n, j);
    }
  }

  lemma {:induction false} FreshReason(m: Memory, q: nat, rs: seq<Request>, n: int, j: nat)
    requires IsFresh(Tab(m, q), q) && Plain(Wanted(rs)) && j < |Wanted(rs)|
    ensures RefusedAt(m, q, Wanted(rs), n, j) <==> RefusedFrame(Wanted(rs), n, j)
    ensures ShortAt(m, q, Wanted(rs), n, j) <==> StarvedFrame(Wanted(rs), n, j)
  {
    FreshTables(m, q, Wanted(rs), j + 1);
    forall i | 0 <= i <= j ensures Blocked(m, q, Wanted(rs), i) <==> Unwelcome(Wanted(rs), i) {
      FreshBlocked(m, q, rs, i);
    }
  }

  /** Whether the boot sequence succeeds. */
  ghost predicate Succeeds(n: int, rs: seq<Request>, kBegin: nat, kEnd: nat)
    requires kBegin <= kEnd
  {
    && KernelRange(kBegin, kEnd) && Fits2MB(kBegin, kEnd)
    && AvoidsSelf(rs + [KernelRequest(kBegin, kEnd)])
    && DisjointRequests(rs + [KernelRequest(kBegin, kEnd)])
    && BOOT_FRAMES + |TablePaths(Wanted(rs + [KernelRequest(kBegin, kEnd)]))| <= n
  }

  /** The test, from the boot state: it needs four frames, and then costs three. */
  lemma {:induction false} BootTest(s: Sys, order: seq<nat>, used: seq<bool>, junk: seq<nat>)
    requires BootState.BootState(s, order, used) && |junk| == ENTRIES
    ensures var (t, err) := RoundTrip(s, BOOT_ROOT, TEST_PAGE, junk);
            && (err == None <==> 4 <= |order|)
            && (err == Some(NoUsableMemory) <==> |order| == 0)
            && (err == Some(PageTable(NoPageTable)) <==> 1 <= |order| <= 3)
            && (err == None ==>
                  && SpaceOk(t, BOOT_ROOT) && t.cr3 == BOOT_ROOT && SelfLinked(t.mem, BOOT_ROOT)
                  && CountFree(t.pool) == |order| - 3 && FirstFree(Tab(t.mem, BOOT_ROOT), 1) == 1
                  && Entry(t.mem, BOOT_ROOT, 2) == 0)
  {
    BootStateIsBooted(s, order, used, junk);
    NewCorrect(order, used);
    BootSpace(s);
    RoundTripCorrect(s, BOOT_ROOT, TEST_PAGE, junk);
    TestPageUnmapped(s.mem);
    if RoundTrip(s, BOOT_ROOT, TEST_PAGE, junk).1 == None {
      RoundTripRoot(s, BOOT_ROOT, TEST_PAGE, junk);
    }
  }

  lemma {:induction false} TestPageUnmapped(m: Memory)
    requires BootTables(m)
    ensures Lookup(m, BOOT_ROOT, TEST_PAGE) == None
    ensures forall j :: 0 <= j < 256 ==> Entry(m, BOOT_ROOT, j) == 0
  {
  }

  /** The new address space after the test: it needs four more frames, and the next slot of the root is free. */
  lemma {:induction false} BootNew(s: Sys)
    requires SpaceOk(s, BOOT_ROOT) && s.cr3 == BOOT_ROOT && SelfLinked(s.mem, BOOT_ROOT)
    requires FirstFree(Tab(s.mem, BOOT_ROOT), 1) == 1 && Entry(s.mem, BOOT_ROOT, 2) == 0
    ensures var (t, r) := NewInactive(s, BOOT_ROOT);
            && ((r.Done? && r.value.Some?) <==> 4 <= CountFree(s.pool))
            && (r.Panicked? <==> 1 <= CountFree(s.pool) <= 3)
            && (r.Done? && r.value.Some? ==>
                  && Prepared(s, t, BOOT_ROOT, r.value.value) && CountFree(t.pool) == CountFree(s.pool) - 4
                  && FirstFree(Tab(t.mem, BOOT_ROOT), 1) <= 2)
  {
    NewInactiveCorrect(s, BOOT_ROOT);
    var (t, r) := NewInactive(s, BOOT_ROOT);
    if r.Done? && r.value.Some? {
      NewRoot(s, BOOT_ROOT, r.value.value);
    }
  }

  /** Filling the new address space: what `with` answers, and what it leaves of n free frames. */
  ghost predicate Filled(n: int, l: seq<Mapping>, r: Outcome<()>, left: int)
    requires Pages(l)
  {
    && (r == Failed(NoEntry) <==> n < 3)
    && (r == Failed(AlreadyMapped) <==> 3 <= n && Refuses(l, n - 3))
    && (r == Failed(NoPageTable) <==> 3 <= n && Starves(l, n - 3))
    && !r.Panicked?
    && (r.Done? ==> left == n - 3 - |TablePaths(l)|)
  }

  /** `with` in the state t has the outcome r and leaves that many frames. */
  ghost predicate WithLeaves(t: Sys, q: nat, l: seq<Mapping>, r: Outcome<()>, left: int)
    requires t.pool.Shaped() && Pages(l)
  {
    r == With(t, BOOT_ROOT, q, l).1 && left == CountFree(With(t, BOOT_ROOT, q, l).0.pool)
  }

  lemma {:induction false} WithFilled(s: Sys, t: Sys, q: nat, all: seq<Request>, n: int, r: Outcome<()>, left: int)
    requires Inv(s.pool) && Prepared(s, t, BOOT_ROOT, q) && t.cr3 == BOOT_ROOT && n == CountFree(t.pool)
    requires FirstFree(Tab(t.mem, BOOT_ROOT), 1) <= 2 && Plain(Wanted(all)) && WithLeaves(t, q, Wanted(all), r, left)
    ensures Filled(n, Wanted(all), r, left)
  {
    WithTried(s, t, q, all, n - 3, r, left);
    FilledEither(t.mem, q, all, n, r, left);
  }

  lemma {:induction false} FilledEither(m: Memory, q: nat, all: seq<Request>, n: int, r: Outcome<()>, left: int)
    requires IsFresh(Tab(m, q), q) && Plain(Wanted(all)) && TriedOrStarved(m, q, Wanted(all), n - 3, r, left)
    ensures Filled(n, Wanted(all), r, left)
  {
    if 3 <= n {
      StopsFilled(m, q, all, n - 3, r, left);
    }
  }

  /** The list was tried with n frames, or there were less than none. */
  ghost predicate TriedOrStarved(m: Memory, q: nat, l: seq<Mapping>, n: int, r: Outcome<()>, left: int)
    requires Pages(l)
  {
    if 0 <= n then exists k: nat :: ListStops(m, q, l, n, k, r, left) else r == Failed(NoEntry)
  }

  lemma {:induction false} WithTried(s: Sys, t: Sys, q: nat, all: seq<Request>, n: int, r: Outcome<()>, left: int)
    requires Inv(s.pool) && Prepared(s, t, BOOT_ROOT, q) && t.cr3 == BOOT_ROOT && n == CountFree(t.pool) - 3
    requires FirstFree(Tab(t.mem, BOOT_ROOT), 1) <= 2 && Plain(Wanted(all)) && WithLeaves(t, q, Wanted(all), r, left)
    ensures TriedOrStarved(t.mem, q, Wanted(all), n, r, left)
  {
    FreshAcceptable(t, q, Wanted(all));
    if 0 <= n {
      WithStops(t, BOOT_ROOT, q, Wanted(all), n);
    } else {
      WithStarved(t, q, Wanted(all));
    }
  }

  lemma {:induction false} StopsFilled(m: Memory, q: nat, all: seq<Request>, n: nat, r: Outcome<()>, left: int)
    requires IsFresh(Tab(m, q), q) && Plain(Wanted(all)) && exists k: nat :: ListStops(m, q, Wanted(all), n, k, r, left)
    ensures Filled(n + 3, Wanted(all), r, left)
  {
    ListAnswers(m, q, Wanted(all), n, r, left);
    var k: nat :| ListStops(m, q, Wanted(all), n, k, r, left);
    AllTables(m, q, Wanted(all), n, k, r, left);
    ErrorsFilled(m, q, all, n, r, left);
  }

  lemma {:induction false} ErrorsFilled(m: Memory, q: nat, all: seq<Request>, n: nat, r: Outcome<()>, left: int)
    requires IsFresh(Tab(m, q), q) && Plain(Wanted(all)) && ErrorsExact(m, q, Wanted(all), n, r)
    requires r.Done? ==> left == n - |TablePaths(Wanted(all))|
    ensures Filled(n + 3, Wanted(all), r, left)
  {
    FreshReasons(m, q, all, n);
  }

  lemma {:induction false} AllTables(m: Memory, q: nat, l: seq<Mapping>, n: int, k: nat, r: Outcome<()>, left: int)
    requires IsFresh(Tab(m, q), q) && Pages(l) && Plain(l) && ListStops(m, q, l, n, k, r, left)
    ensures r.Done? ==> left == n - |TablePaths(l)|
  {
    FreshTables(m, q, l, |l|);
    assert l[..|l|] == l;
  }

  lemma {:induction false} WithStarved(t: Sys, q: nat, l: seq<Mapping>)
    requires ReadyFor(t, BOOT_ROOT, q) && Pages(l) && Acceptable(t, q, l) && CountFree(t.pool) < 3
    ensures With(t, BOOT_ROOT, q, l).1 == Failed(NoEntry)
  {
    var k := WithCorrect(t, BOOT_ROOT, q, l);
  }

  /** What `init` answers once the new root is there: from the outcome of `with`. */
  lemma {:induction false} FillAnswers(s: Sys, q: nat, rs: seq<Request>, kBegin: nat, kEnd: nat)
    requires s.pool.Shaped() && kBegin <= kEnd
    ensures var (u, err) := KernelInit.Fill(s, BOOT_ROOT, q, rs, kBegin, kEnd);
            var (t, r) := With(s, BOOT_ROOT, q, KernelList(rs, kBegin, kEnd));
            EndsAs(r, Fits2MB(kBegin, kEnd), err) && u.pool == t.pool
  {
  }

  /** Filling it and switching to it, when n frames were free before the test. */
  lemma {:induction false} BootFill(s: Sys, t: Sys, q: nat, rs: seq<Request>, kBegin: nat, kEnd: nat, n: nat)
    requires Inv(s.pool) && Prepared(s, t, BOOT_ROOT, q) && t.cr3 == BOOT_ROOT && KernelRange(kBegin, kEnd)
    requires FirstFree(Tab(t.mem, BOOT_ROOT), 1) <= 2 && Plain(KernelList(rs, kBegin, kEnd))
    requires n == CountFree(t.pool) + 7 && 7 <= n
    ensures var (u, err) := KernelInit.Fill(t, BOOT_ROOT, q, rs, kBegin, kEnd);
            BootAnswers(n, rs, kBegin, kEnd, err, CountFree(u.pool))
  {
    var all := Asked(rs, kBegin, kEnd);
    FillAnswers(t, q, rs, kBegin, kEnd);
    var (v, r) := With(t, BOOT_ROOT, q, Wanted(all));
    var (u, err) := KernelInit.Fill(t, BOOT_ROOT, q, rs, kBegin, kEnd);
    WithFilled(s, t, q, all, n - 7, r, CountFree(v.pool));
    WithFresh(s, t, q, all, n - 7);
    AnswersFilled(n, rs, kBegin, kEnd, r, CountFree(v.pool), err);
  }

  /** The answer of the boot sequence, and the frames it leaves after a success. */
  ghost predicate BootAnswers(n: int, rs: seq<Request>, kBegin: nat, kEnd: nat, err: Option<InitError>, left: int)
    requires kBegin <= kEnd
  {
    && Answers(n, rs, kBegin, kEnd, err)
    && (err == None ==> left == n - BOOT_FRAMES - |TablePaths(KernelList(rs, kBegin, kEnd))|)
  }

  /** The answer of `init` from that of `with`. */
  predicate EndsAs(r: Outcome<()>, fits: bool, err: Option<InitError>) {
    match r
    case Failed(e) => err == Some(Tables(e))
    case Panicked => err == Some(InitPanic)
    case Done(_) => err == if fits then None else Some(InitPanic)
  }

  lemma {:induction false} AnswersFilled(n: nat, rs: seq<Request>, kBegin: nat, kEnd: nat, r: Outcome<()>, left: int,
                                         err: Option<InitError>)
    requires 7 <= n && KernelRange(kBegin, kEnd) && Filled(n - 7, KernelList(rs, kBegin, kEnd), r, left)
    requires var all := Asked(rs, kBegin, kEnd);
             r.Done? <==> AvoidsSelf(all) && DisjointRequests(all) && BOOT_FRAMES + |TablePaths(Wanted(all))| <= n
    requires EndsAs(r, Fits2MB(kBegin, kEnd), err)
    ensures BootAnswers(n, rs, kBegin, kEnd, err, left)
  {
  }

  lemma {:induction false} WithFresh(s: Sys, t: Sys, q: nat, all: seq<Request>, f: nat)
    requires Inv(s.pool) && Prepared(s, t, BOOT_ROOT, q) && t.cr3 == BOOT_ROOT && f == CountFree(t.pool)
    requires FirstFree(Tab(t.mem, BOOT_ROOT), 1) <= 2 && Plain(Wanted(all))
    ensures With(t, BOOT_ROOT, q, Wanted(all)).1.Done? <==>
            AvoidsSelf(all) && DisjointRequests(all) && 3 + |TablePaths(Wanted(all))| <= f
  {
    FreshAcceptable(t, q, Wanted(all));
    WithExactly(t, BOOT_ROOT, q, Wanted(all));
    NoSelfWanted(all);
    FreshNew(t.mem, q, all);
    FreshLacking(t.mem, q, Wanted(all));
  }

  /** What the boot sequence answers with n frames, every answer exactly if its condition holds. */
  ghost predicate Answers(n: int, rs: seq<Request>, kBegin: nat, kEnd: nat, err: Option<InitError>)
    requires kBegin <= kEnd
  {
    var l, filling := KernelList(rs, kBegin, kEnd), KernelRange(kBegin, kEnd) && BOOT_FRAMES <= n;
    && (err == Some(NoMemory) <==> n == 0)
    && (err == Some(Tables(NoEntry)) <==> KernelRange(kBegin, kEnd) && 7 <= n <= 9)
    && (err == Some(Tables(NoPageTable)) <==> 1 <= n <= 3 || (filling && Starves(l, n - BOOT_FRAMES)))
    && (err == Some(Tables(AlreadyMapped)) <==> filling && Refuses(l, n - BOOT_FRAMES))
    && (err == Some(InitPanic) <==>
          || (4 <= n && !KernelRange(kBegin, kEnd)) || 4 <= n <= 6
          || (filling && !Fits2MB(kBegin, kEnd) && AvoidsSelf(rs) && DisjointRequests(rs)
              && BOOT_FRAMES + |TablePaths(Wanted(rs))| <= n))
    && (err == None <==> Succeeds(n, rs, kBegin, kEnd))
  }

  /** The boot tables, and a new allocator for n frames. */
  ghost predicate Ready(s: Sys, n: nat) {
    exists order: seq<nat>, used: seq<bool> :: |order| == n && BootState.BootState(s, order, used)
  }

  /** From the boot state: each error exactly if its condition holds. The test needs a frame and three tables; the
      range of the kernel is checked; the new root needs four frames; the way back needs three; then the wanted frames
      are mapped in turn, until the frames run out or one is refused, and in the end `map_fitting` panics from 2 MB
      on. */
  lemma {:induction false} InitAnswers(s: Sys, n: nat, rs: seq<Request>, kBegin: nat, kEnd: nat, junk: seq<nat>)
    requires Ready(s, n) && |junk| == ENTRIES && kBegin <= kEnd && Plain(KernelList(rs, kBegin, kEnd))
    ensures s.pool.Shaped()
    ensures var (t, err) := Init(s, BOOT_ROOT, rs, kBegin, kEnd, junk);
            BootAnswers(n, rs, kBegin, kEnd, err, CountFree(t.pool))
  {
    var order: seq<nat>, used: seq<bool> :| |order| == n && BootState.BootState(s, order, used);
    BootTest(s, order, used, junk);
    var (s1, err) := RoundTrip(s, BOOT_ROOT, TEST_PAGE, junk);
    match err
    case None => BuildAnswers(s1, n, rs, kBegin, kEnd);
    case Some(e) => TestAnswers(n, rs, kBegin, kEnd, e, CountFree(s1.pool));
  }

  /** A failed test ends it all. */
  lemma {:induction false} TestAnswers(n: nat, rs: seq<Request>, kBegin: nat, kEnd: nat, e: TestError, left: int)
    requires kBegin <= kEnd && n <= 3 && (e == NoUsableMemory <==> n == 0) && (e == PageTable(NoPageTable) <==> 1 <= n)
    ensures BootAnswers(n, rs, kBegin, kEnd, Some(TestFailure(e)), left)
  {
  }

  /** After the test. */
  lemma {:induction false} BuildAnswers(s: Sys, n: nat, rs: seq<Request>, kBegin: nat, kEnd: nat)
    requires SpaceOk(s, BOOT_ROOT) && s.cr3 == BOOT_ROOT && SelfLinked(s.mem, BOOT_ROOT)
    requires FirstFree(Tab(s.mem, BOOT_ROOT), 1) == 1 && Entry(s.mem, BOOT_ROOT, 2) == 0
    requires CountFree(s.pool) == n - 3 && 4 <= n && kBegin <= kEnd && Plain(KernelList(rs, kBegin, kEnd))
    ensures var (t, err) := Build(s, BOOT_ROOT, rs, kBegin, kEnd);
            BootAnswers(n, rs, kBegin, kEnd, err, CountFree(t.pool))
  {
    if KernelRange(kBegin, kEnd) {
      BootNew(s);
      var (t, made) := NewInactive(s, BOOT_ROOT);
      if made.Done? && made.value.Some? {
        BootFill(s, t, made.value.value, rs, kBegin, kEnd, n);
      }
    }
  }

  /** From the boot state the boot sequence succeeds exactly when the kernel is page-aligned, not empty and below
      2 MB, no wanted page has the last index of a self slot, no frame is requested twice, and the frames suffice:
      ten, and one for each table on the way to a wanted page. */
  lemma {:induction false} InitExactly(s: Sys, order: seq<nat>, used: seq<bool>, rs: seq<Request>, kBegin: nat,
                                       kEnd: nat, junk: seq<nat>)
    requires BootState.BootState(s, order, used) && |junk| == ENTRIES && kBegin <= kEnd
    requires Plain(KernelList(rs, kBegin, kEnd))
    ensures s.pool.Shaped()
    ensures Init(s, BOOT_ROOT, rs, kBegin, kEnd, junk).1 == None <==> Succeeds(|order|, rs, kBegin, kEnd)
  {
    InitAnswers(s, |order|, rs, kBegin, kEnd, junk);
  }

  // ----- the kernel where it is linked

  /** KERNEL_ADDR_PHYSICAL_BEGIN of the linker script. */
  const LINKED_BEGIN: nat := 0x10_0000

  lemma {:induction false} LowPage(f: nat)
    requires f < 0x4_0000
    ensures PageOf(OFFSET_PAGES + f) == [256, 0, f / 512, f % 512]
  {
    IndicesFour(OFFSET_PAGES + f);
    assert (OFFSET_PAGES + f) / 512 == OFFSET_PAGES / 512 + f / 512;
    assert (OFFSET_PAGES / 512 + f / 512) / 512 == OFFSET_PAGES / 512 / 512;
  }

  lemma {:induction false} LinkedPage(kEnd: nat, j: nat)
    requires LINKED_BEGIN <= kEnd && Fits2MB(LINKED_BEGIN, kEnd)
    requires j < |Wanted([KernelRequest(LINKED_BEGIN, kEnd)])|
    ensures var l := Wanted([KernelRequest(LINKED_BEGIN, kEnd)]);
            l[j].frame < 768 && Requested([KernelRequest(LINKED_BEGIN, kEnd)], l[j].frame)
            && l[j].page == [256, 0, l[j].frame / 512, l[j].frame % 512]
  {
    var rs := [KernelRequest(LINKED_BEGIN, kEnd)];
    WantedExactly(rs);
    assert Due(rs, Wanted(rs)[j]);
    LowPage(Wanted(rs)[j].frame);
  }

  /** A kernel linked at 1 MB, without further requests, boots exactly if it is page-aligned, not empty, ends at or
      before 0x1FF000, and thirteen frames are there: from one byte more on, its pages include one with the last index
      of a self slot. */
  lemma {:induction false} LinkedKernelExactly(s: Sys, order: seq<nat>, used: seq<bool>, kEnd: nat, junk: seq<nat>)
    requires BootState.BootState(s, order, used) && |junk| == ENTRIES && LINKED_BEGIN <= kEnd
    ensures s.pool.Shaped()
    ensures Init(s, BOOT_ROOT, [], LINKED_BEGIN, kEnd, junk).1 == None <==>
            LINKED_BEGIN < kEnd <= 0x1F_F000 && kEnd % FRAME == 0 && 13 <= |order|
    ensures LinkedFails(|order|, kEnd, Init(s, BOOT_ROOT, [], LINKED_BEGIN, kEnd, junk).1)
  {
    LinkedPlain(kEnd);
    InitExactly(s, order, used, [], LINKED_BEGIN, kEnd, junk);
    LinkedSucceeds(|order|, kEnd);
    InitAnswers(s, |order|, [], LINKED_BEGIN, kEnd, junk);
    LinkedAnswers(|order|, kEnd, Init(s, BOOT_ROOT, [], LINKED_BEGIN, kEnd, junk).1);
  }

  /** Its answer otherwise: a page-aligned kernel that is not empty is refused as mapped from one byte behind 0x1FF000
      on, and from 0x300000, 2 MB behind its beginning, on it panics. */
  predicate LinkedFails(n: nat, kEnd: nat, err: Option<InitError>) {
    var range := LINKED_BEGIN < kEnd && kEnd % FRAME == 0;
    && (err == Some(NoMemory) <==> n == 0)
    && (err == Some(Tables(NoEntry)) <==> range && 7 <= n <= 9)
    && (err == Some(Tables(NoPageTable)) <==> 1 <= n <= 3 || (range && 10 <= n <= 12 && kEnd < 0x30_0000))
    && (err == Some(Tables(AlreadyMapped)) <==> range && 13 <= n && 0x1F_F000 < kEnd < 0x30_0000)
    && (err == Some(InitPanic) <==> (4 <= n && !range) || 4 <= n <= 6 || (range && 10 <= n && 0x30_0000 <= kEnd))
  }

  lemma {:induction false} LinkedAnswers(n: nat, kEnd: nat, err: Option<InitError>)
    requires LINKED_BEGIN <= kEnd && Answers(n, [], LINKED_BEGIN, kEnd, err)
    ensures LinkedFails(n, kEnd, err)
  {
    if !KernelRange(LINKED_BEGIN, kEnd) || n < BOOT_FRAMES {
    } else if Fits2MB(LINKED_BEGIN, kEnd) {
      assert [] + [KernelRequest(LINKED_BEGIN, kEnd)] == [KernelRequest(LINKED_BEGIN, kEnd)];
      LinkedStops(kEnd, n - BOOT_FRAMES);
    } else {
      NothingAsked(n - BOOT_FRAMES);
    }
  }

  lemma {:induction false} NothingAsked(m: nat)
    ensures !Refuses(Wanted([]), m) && !Starves(Wanted([]), m)
    ensures AvoidsSelf([]) && DisjointRequests([]) && |TablePaths(Wanted([]))| == 0
  {
    assert TablePaths(Wanted([])) == {};
  }

  /** The frames of the kernel in turn: the first 256 share three tables, the 256th is refused. */
  lemma {:induction false} LinkedStops(kEnd: nat, m: nat)
    requires KernelRange(LINKED_BEGIN, kEnd) && Fits2MB(LINKED_BEGIN, kEnd)
    ensures var l := Wanted([KernelRequest(LINKED_BEGIN, kEnd)]);
            (Refuses(l, m) <==> 3 <= m && 0x1F_F000 < kEnd) && (Starves(l, m) <==> m < 3)
  {
    var l := Wanted([KernelRequest(LINKED_BEGIN, kEnd)]);
    LinkedFrames(kEnd);
    LinkedPrefix(kEnd, 0);
    if 0x1F_F000 < kEnd {
      LinkedPrefix(kEnd, 255);
      assert 3 <= m ==> RefusedFrame(l, m, 255);
    }
    assert m < 3 ==> StarvedFrame(l, m, 0);
    forall j | 0 <= j < |l|
      ensures RefusedFrame(l, m, j) ==> j == 255 && 3 <= m
      ensures StarvedFrame(l, m, j) ==> m < 3
    {
      LinkedPrefix(kEnd, j);
      if 255 < j {
        LinkedPrefix(kEnd, 255);
      }
    }
  }

  lemma {:induction false} LinkedFrames(kEnd: nat)
    requires KernelRange(LINKED_BEGIN, kEnd) && Fits2MB(LINKED_BEGIN, kEnd)
    ensures var l := Wanted([KernelRequest(LINKED_BEGIN, kEnd)]);
            |l| == kEnd / FRAME - 256 && 1 <= |l| < 512 && forall j :: 0 <= j < |l| ==> l[j].frame == 256 + j
    ensures 0x1F_F000 < kEnd <==> 512 <= kEnd / FRAME
  {
    var r := KernelRequest(LINKED_BEGIN, kEnd);
    assert [r][1..] == [];
    assert r == Request(256, kEnd / FRAME - 256);
  }

  lemma {:induction false} LinkedPrefix(kEnd: nat, j: nat)
    requires KernelRange(LINKED_BEGIN, kEnd) && Fits2MB(LINKED_BEGIN, kEnd)
    requires j < |Wanted([KernelRequest(LINKED_BEGIN, kEnd)])|
    ensures var l := Wanted([KernelRequest(LINKED_BEGIN, kEnd)]);
            && (Unwelcome(l, j) <==> j == 255)
            && 3 <= |TablePaths(l[..j + 1])| && (j <= 255 ==> |TablePaths(l[..j + 1])| == 3)
  {
    var l := Wanted([KernelRequest(LINKED_BEGIN, kEnd)]);
    LinkedFrames(kEnd);
    if j <= 255 {
      FirstTables(kEnd, j);
    } else {
      FirstTables(kEnd, 255);
      PathsGrow(l, 256, j + 1);
    }
  }

  lemma {:induction false} FirstTables(kEnd: nat, j: nat)
    requires KernelRange(LINKED_BEGIN, kEnd) && Fits2MB(LINKED_BEGIN, kEnd)
    requires j <= 255 && j < |Wanted([KernelRequest(LINKED_BEGIN, kEnd)])|
    ensures |TablePaths(Wanted([KernelRequest(LINKED_BEGIN, kEnd)])[..j + 1])| == 3
  {
    var l := Wanted([KernelRequest(LINKED_BEGIN, kEnd)]);
    var page: seq<Slot> := [256, 0, 0, 0];
    LinkedFrames(kEnd);
    var a := l[..j + 1];
    forall x | 0 <= x < |a| ensures a[x].page[..3] == page[..3] {
      LinkedPage(kEnd, x);
    }
    SamePaths(a, page, 0);
    DeeperSize(page, 0);
    assert PagePaths(page) == Deeper(page, 0);
  }

  lemma {:induction false} LinkedSucceeds(n: int, kEnd: nat)
    requires LINKED_BEGIN <= kEnd
    ensures Succeeds(n, [], LINKED_BEGIN, kEnd) <==> LINKED_BEGIN < kEnd <= 0x1F_F000 && kEnd % FRAME == 0 && 13 <= n
  {
    var rs := [KernelRequest(LINKED_BEGIN, kEnd)];
    assert [] + rs == rs;
    if KernelRange(LINKED_BEGIN, kEnd) && Fits2MB(LINKED_BEGIN, kEnd) {
      LinkedAvoids(kEnd);
      LinkedDisjoint(rs);
      if kEnd <= 0x1F_F000 {
        LinkedTables(kEnd);
      }
    }
  }

  lemma {:induction false} LinkedPlain(kEnd: nat)
    requires LINKED_BEGIN <= kEnd
    ensures Plain(KernelList([], LINKED_BEGIN, kEnd))
  {
    if Fits2MB(LINKED_BEGIN, kEnd) {
      var rs := [KernelRequest(LINKED_BEGIN, kEnd)];
      assert [] + rs == rs;
      forall j | 0 <= j < |Wanted(rs)| ensures Ordinary(Wanted(rs)[j].page[..3]) && Wanted(rs)[j].frame < MAX_FRAME {
        LinkedPage(kEnd, j);
      }
    }
  }

  lemma {:induction false} LinkedAvoids(kEnd: nat)
    requires KernelRange(LINKED_BEGIN, kEnd) && Fits2MB(LINKED_BEGIN, kEnd)
    ensures AvoidsSelf([KernelRequest(LINKED_BEGIN, kEnd)]) <==> kEnd <= 0x1F_F000
  {
    var rs := [KernelRequest(LINKED_BEGIN, kEnd)];
    assert rs[0].frame == 256 && rs[0].count == kEnd / FRAME - 256;
    assert 0x1F_F000 < kEnd ==> Requested(rs, 511);
  }

  lemma {:induction false} LinkedDisjoint(rs: seq<Request>)
    requires |rs| == 1
    ensures DisjointRequests(rs)
  {
  }

  lemma {:induction false} LinkedTables(kEnd: nat)
    requires KernelRange(LINKED_BEGIN, kEnd) && kEnd <= 0x1F_F000
    ensures |TablePaths(Wanted([KernelRequest(LINKED_BEGIN, kEnd)]))| == 3
  {
    var l := Wanted([KernelRequest(LINKED_BEGIN, kEnd)]);
    LinkedFrames(kEnd);
    FirstTables(kEnd, |l| - 1);
    assert l[..|l|] == l;
  }

  /** If all pages share their first three indices, so do their tables. */
  lemma {:induction false} SamePaths(l: seq<Mapping>, page: seq<Slot>, i: nat)
    requires Pages(l) && |page| == 4 && i < |l| && forall j :: 0 <= j < |l| ==> l[j].page[..3] == page[..3]
    ensures TablePaths(l) == PagePaths(page)
  {
    forall p ensures p in TablePaths(l) <==> p in PagePaths(page) {
      if p in TablePaths(l) {
        var j, k :| 0 <= j < |l| && 1 <= k <= 3 && p == l[j].page[..k];
        assert p == l[j].page[..3][..k] == page[..3][..k] == page[..k];
      }
      if p in PagePaths(page) {
        var k :| 1 <= k <= 3 && p == page[..k];
        assert p == page[..3][..k] == l[i].page[..3][..k] == l[i].page[..k];
      }
    }
  }
}
