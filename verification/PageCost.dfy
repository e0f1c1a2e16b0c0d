/**
 What a list of mappings costs: it is made completely exactly when its pages
 are free and different, and the tables that are missing for all of them
 together can be had.
 */
module PageCost {
  import opened Frames
  import opened Wrappers
  import opened BuddySystem
  import opened PageTables
  import opened PageLink
  import opened PageMap
  import opened PageOps
  import opened RecursiveAddress

  // ----- the tables a list of mappings needs

  /** The paths of the tables on the way to one page. */
  function PagePaths(page: seq<Slot>): set<seq<Slot>>
    requires |page| == 4
  {
    set k | 1 <= k <= 3 :: page[..k]
  }

  /** ... and to all pages of a list. */
  function TablePaths(l: seq<Mapping>): set<seq<Slot>>
    requires Pages(l)
  {
    set j, k | 0 <= j < |l| && 1 <= k <= 3 :: l[j].page[..k]
  }

  /** Those where there is no table. */
  function Lacking(m: Memory, q: nat, paths: set<seq<Slot>>): set<seq<Slot>> {
    set p | p in paths && Follow(m, q, p).None?
  }

  lemma {:induction false} TablePathsCons(l: seq<Mapping>)
    requires Pages(l) && l != []
    ensures TablePaths(l) == PagePaths(l[0].page) + TablePaths(l[1..])
  {
    forall p ensures p in TablePaths(l) <==> p in PagePaths(l[0].page) + TablePaths(l[1..]) {
      if p in TablePaths(l) {
        var j, k :| 0 <= j < |l| && 1 <= k <= 3 && p == l[j].page[..k];
        assert 0 < j ==> l[1..][j - 1] == l[j];
      }
      if p in TablePaths(l[1..]) {
        var j, k :| 0 <= j < |l[1..]| && 1 <= k <= 3 && p == l[1..][j].page[..k];
        assert l[j + 1] == l[1..][j];
      }
    }
  }

  /** Along a path the tables exist down to some depth. */
  lemma {:induction false} MissingDepth(m: Memory, f: nat, path: seq<Slot>, k: nat)
    requires k <= |path|
    ensures Missing(m, f, path) <= |path|
    ensures Follow(m, f, path[..k]).Some? <==> k <= |path| - Missing(m, f, path)
    decreases path
  {
    if path != [] {
      if Next(m, f, path[0]).Some? {
        MissingDepth(m, Next(m, f, path[0]).value, path[1..], if k == 0 then 0 else k - 1);
      }
      if k != 0 {
        assert path[..k][0] == path[0] && path[..k][1..] == path[1..][..k - 1];
      }
    }
  }

  /** The prefixes of a page's path that are longer than d. */
  function Deeper(page: seq<Slot>, d: nat): set<seq<Slot>>
    requires |page| == 4 && d <= 3
  {
    set k | d < k <= 3 :: page[..k]
  }

  lemma {:induction false} DeeperSize(page: seq<Slot>, d: nat)
    requires |page| == 4 && d <= 3
    ensures |Deeper(page, d)| == 3 - d
    decreases 3 - d
  {
    if d < 3 {
      DeeperSize(page, d + 1);
      var x := page[..d + 1];
      assert forall k :: d + 1 < k <= 3 ==> |page[..k]| != |x|;
      assert Deeper(page, d) == Deeper(page, d + 1) + {x};
    } else {
      assert Deeper(page, d) == {};
    }
  }

  /** `Missing` counts the tables that are lacking for a page. */
  lemma {:induction false} MissingIsLacking(m: Memory, q: nat, page: seq<Slot>)
    requires |page| == 4
    ensures |Lacking(m, q, PagePaths(page))| == Missing(m, q, page[..3])
  {
    MissingDepth(m, q, page[..3], 0);
    var d: nat := 3 - Missing(m, q, page[..3]);
    forall k | 1 <= k <= 3 ensures Follow(m, q, page[..k]).None? <==> d < k {
      assert page[..3][..k] == page[..k];
      MissingDepth(m, q, page[..3], k);
    }
    assert Lacking(m, q, PagePaths(page)) == Deeper(page, d);
    DeeperSize(page, d);
  }

  // ----- which tables an operation adds

  /** One step down adds at most the table below. */
  lemma {:induction false} CreateNodes(s: Sys, q: nat, p: seq<Slot>, i: Slot, r: seq<Slot>)
    requires SpaceOk(s, q) && Node(s.mem, q, p) && |p| <= 2 && i != SELF && HugeFree(s.mem, At(s.mem, q, p), [i])
    requires Node(CreateNext(s, At(s.mem, q, p), i).0.mem, q, r)
    ensures Node(s.mem, q, r) || r == p + [i]
  {
    var tab := At(s.mem, q, p);
    if Next(s.mem, tab, i).None? {
      AllocOneCorrect(s);
      var (s1, got) := AllocOne(s);
      if got.Some? {
        CreateLinks(s, q, p, i, s1, got.value);
        FreshFrame(s, q, p, i, got.value);
        LinkedFollow(s.mem, q, p, i, got.value, r);
      }
    }
  }

  lemma {:induction false} OnThePath(p: seq<Slot>, path: seq<Slot>, r: seq<Slot>)
    requires path != []
    ensures p + [path[0]] <= p + path
    ensures r <= (p + [path[0]]) + path[1..] ==> r <= p + path
  {
    PrefixStep(p, path);
  }

  /** The way down along a path adds only tables on that path. */
  lemma {:induction false} DescendNodes(s: Sys, q: nat, p: seq<Slot>, path: seq<Slot>, r: seq<Slot>)
    requires SpaceOk(s, q) && Node(s.mem, q, p) && |p| + |path| <= 3 && Ordinary(path)
    requires HugeFree(s.mem, At(s.mem, q, p), path) && Node(Descend(s, At(s.mem, q, p), path).0.mem, q, r)
    ensures Node(s.mem, q, r) || r <= p + path
    decreases path
  {
    if path != [] {
      var i, tab := path[0], At(s.mem, q, p);
      DescendStep(s, q, p, path);
      var (s1, next) := CreateNext(s, tab, i);
      if next.Some? {
        DescendNodes(s1, q, p + [i], path[1..], r);
      }
      if Node(s1.mem, q, r) {
        CreateNodes(s, q, p, i, r);
      }
      OnThePath(p, path, r);
    }
  }

  /** After a successful `map` the tables are those from before and those on the way to the page. */
  lemma {:induction false} MapNodes(s: Sys, q: nat, idx: seq<Slot>, frame: nat, p: seq<Slot>)
    requires SpaceOk(s, q) && Mappable(s, q, idx) && frame < MAX_FRAME && Map(s, q, idx, frame).1.Ok?
    requires Ordinary(p) && |p| <= 3
    ensures Follow(Map(s, q, idx, frame).0.mem, q, p).Some? <==> Follow(s.mem, q, p).Some? || p <= idx[..3]
  {
    var t := Map(s, q, idx, frame).0;
    MapCorrect(s, q, idx, frame);
    MapTable(s, q, idx, frame);
    if Node(s.mem, q, p) {
      assert Node(t.mem, q, p);
    } else if p <= idx[..3] {
      assert idx[..3] == p + idx[..3][|p|..];
      FollowAppend(t.mem, q, p, idx[..3][|p|..]);
    } else if Node(t.mem, q, p) {
      MapAddsOn(s, q, idx, frame, p);
    }
  }

  /** The table of the page exists afterwards. */
  lemma {:induction false} MapTable(s: Sys, q: nat, idx: seq<Slot>, frame: nat)
    requires SpaceOk(s, q) && Mappable(s, q, idx) && frame < MAX_FRAME && Map(s, q, idx, frame).1.Ok?
    ensures Follow(Map(s, q, idx, frame).0.mem, q, idx[..3]).Some?
  {
    OrdinaryIs(idx);
    DescendMapped(s, q, idx);
    var (s1, table) := Descend(s, q, idx[..3]);
    var w := Link(Entry(s1.mem, table.value, idx[3]), frame);
    LeafNodes(s1.mem, q, idx[..3], idx[3], w);
  }

  lemma {:induction false} MapAddsOn(s: Sys, q: nat, idx: seq<Slot>, frame: nat, p: seq<Slot>)
    requires SpaceOk(s, q) && Mappable(s, q, idx) && frame < MAX_FRAME && Map(s, q, idx, frame).1.Ok?
    requires Node(Map(s, q, idx, frame).0.mem, q, p)
    ensures Node(s.mem, q, p) || p <= idx[..3]
  {
    var root: seq<Slot> := [];
    OrdinaryIs(idx);
    DescendMapped(s, q, idx);
    var (s1, table) := Descend(s, q, idx[..3]);
    var w := Link(Entry(s1.mem, table.value, idx[3]), frame);
    LeafNodes(s1.mem, q, idx[..3], idx[3], w);
    DescendNodes(s, q, root, idx[..3], p);
    assert root + idx[..3] == idx[..3];
  }

  // ----- the cost of a list

  /** The first mapping takes its own missing tables; what is missing for the rest is what is left. */
  lemma {:induction false} LackingAfter(s: Sys, t: Sys, q: nat, l: seq<Mapping>)
    requires SpaceOk(s, q) && Pages(l) && Acceptable(s, q, l) && l != []
    requires Map(s, q, l[0].page, l[0].frame).0 == t && Map(s, q, l[0].page, l[0].frame).1.Ok?
    ensures var a, b := Lacking(s.mem, q, TablePaths(l)), Lacking(s.mem, q, PagePaths(l[0].page));
            b <= a && Lacking(t.mem, q, TablePaths(l[1..])) == a - b
  {
    TablePathsCons(l);
    MapFirst(s, q, l);
    assert Addressable(s, q, l[0].page);
    forall p | p in TablePaths(l[1..])
      ensures Follow(t.mem, q, p).None? <==> Follow(s.mem, q, p).None? && p !in PagePaths(l[0].page)
    {
      PathOrdinary(s, q, l, p);
      MapNodes(s, q, l[0].page, l[0].frame, p);
      PrefixIsPath(l[0].page, p);
    }
  }

  lemma {:induction false} PathOrdinary(s: Sys, q: nat, l: seq<Mapping>, p: seq<Slot>)
    requires Pages(l) && Acceptable(s, q, l) && l != [] && p in TablePaths(l[1..])
    ensures Ordinary(p) && 1 <= |p| <= 3
  {
    var j, k :| 0 <= j < |l[1..]| && 1 <= k <= 3 && p == l[1..][j].page[..k];
    assert l[j + 1] == l[1..][j];
    assert Addressable(s, q, l[j + 1].page) && p == l[j + 1].page[..3][..k];
  }

  lemma {:induction false} PrefixIsPath(page: seq<Slot>, p: seq<Slot>)
    requires |page| == 4 && 1 <= |p| <= 3
    ensures p in PagePaths(page) <==> p <= page[..3]
  {
    if p <= page[..3] {
      assert p == page[..|p|];
    }
  }

  /** A list of mappings is made completely exactly when no page has the last index of a self slot, the pages are
      unmapped and different, and the tables lacking for all of them together do not outnumber the free frames; it
      then takes exactly those. */
  lemma {:induction false} MapAllExactly(s: Sys, q: nat, l: seq<Mapping>)
    requires SpaceOk(s, q) && Acceptable(s, q, l) && Pages(l)
    ensures var (t, r) := MapAll(s, q, l); var cost := |Lacking(s.mem, q, TablePaths(l))|;
            && (r.Ok? <==> NoSelf(l) && AllNew(s.mem, q, l) && cost <= CountFree(s.pool))
            && (r.Ok? ==> CountFree(t.pool) == CountFree(s.pool) - cost)
  {
    if NoSelf(l) {
      OrdinaryExactly(s, q, l);
    } else {
      SelfFails(s, q, l);
    }
  }

  /** A page with the last index of a self slot stops a list, wherever it stands. */
  lemma {:induction false} SelfFails(s: Sys, q: nat, l: seq<Mapping>)
    requires SpaceOk(s, q) && Acceptable(s, q, l) && Pages(l) && !NoSelf(l)
    ensures MapAll(s, q, l).1.Err?
    decreases l
  {
    MapFirst(s, q, l);
    OrdinaryIs(l[0].page);
    var (t, r) := Map(s, q, l[0].page, l[0].frame);
    if r.Ok? {
      var j :| 0 <= j < |l| && l[j].page[3] == SELF;
      assert l[1..][j - 1] == l[j];
      SelfFails(t, q, l[1..]);
    }
  }

  /** Without such pages. */
  lemma {:induction false} OrdinaryExactly(s: Sys, q: nat, l: seq<Mapping>)
    requires SpaceOk(s, q) && Acceptable(s, q, l) && Pages(l) && NoSelf(l)
    ensures var (t, r) := MapAll(s, q, l); var cost := |Lacking(s.mem, q, TablePaths(l))|;
            && (r.Ok? <==> AllNew(s.mem, q, l) && cost <= CountFree(s.pool))
            && (r.Ok? ==> CountFree(t.pool) == CountFree(s.pool) - cost)
    decreases l
  {
    NoneFree(s.pool);
    if l == [] {
      assert Lacking(s.mem, q, TablePaths(l)) == {};
    } else {
      AllOrdinary(s, q, l);
      FirstExactly(s, q, l);
      var (t, r) := Map(s, q, l[0].page, l[0].frame);
      if r.Ok? {
        MapFirst(s, q, l);
        LackingAfter(s, t, q, l);
        OrdinaryExactly(t, q, l[1..]);
        NewAfter(s.mem, t.mem, q, l);
      }
    }
  }

  lemma {:induction false} AllOrdinary(s: Sys, q: nat, l: seq<Mapping>)
    requires Acceptable(s, q, l) && Pages(l) && NoSelf(l)
    ensures forall j :: 0 <= j < |l| ==> Ordinary(l[j].page)
    ensures l != [] ==> NoSelf(l[1..])
  {
    forall j | 0 <= j < |l| ensures Ordinary(l[j].page) {
      assert Addressable(s, q, l[j].page);
      OrdinaryIs(l[j].page);
    }
  }

  /** The first mapping alone. */
  lemma {:induction false} FirstExactly(s: Sys, q: nat, l: seq<Mapping>)
    requires SpaceOk(s, q) && Acceptable(s, q, l) && Pages(l) && l != [] && Ordinary(l[0].page)
    ensures var (t, r) := Map(s, q, l[0].page, l[0].frame);
            var cost := |Lacking(s.mem, q, PagePaths(l[0].page))|;
            && cost <= |Lacking(s.mem, q, TablePaths(l))|
            && (r.Ok? <==> cost <= CountFree(s.pool) && Lookup(s.mem, q, l[0].page).None?)
            && (r.Ok? ==> CountFree(t.pool) == CountFree(s.pool) - cost)
  {
    assert Addressable(s, q, l[0].page);
    MapCorrect(s, q, l[0].page, l[0].frame);
    MissingIsLacking(s.mem, q, l[0].page);
    TablePathsCons(l);
    SubsetSize(Lacking(s.mem, q, PagePaths(l[0].page)), Lacking(s.mem, q, TablePaths(l)));
  }

  lemma {:induction false} SubsetSize(a: set<seq<Slot>>, b: set<seq<Slot>>)
    requires a <= b
    ensures |a| <= |b| && |b - a| == |b| - |a|
  {
    assert b == a + (b - a);
  }

  /** After the first mapping the rest is new exactly when the whole list was. */
  lemma {:induction false} NewAfter(m: Memory, n: Memory, q: nat, l: seq<Mapping>)
    requires Pages(l) && l != [] && Lookup(m, q, l[0].page).None?
    requires forall j :: 0 <= j < |l| ==> Ordinary(l[j].page)
    requires forall page: seq<Slot> :: |page| == 4 && Ordinary(page) ==>
               Lookup(n, q, page) == if page == l[0].page then Some(l[0].frame) else Lookup(m, q, page)
    ensures AllNew(n, q, l[1..]) <==> AllNew(m, q, l)
  {
    if AllNew(n, q, l[1..]) {
      forall j | 0 <= j < |l| ensures Lookup(m, q, l[j].page) == None && (0 < j ==> l[0].page != l[j].page) {
        if 0 < j {
          assert l[1..][j - 1] == l[j];
          assert Lookup(n, q, l[1..][j - 1].page) == None;
        }
      }
      forall i, j | 0 <= i < j < |l| ensures l[i].page != l[j].page {
        if 0 < i {
          assert l[1..][i - 1] == l[i] && l[1..][j - 1] == l[j];
        }
      }
    }
    if AllNew(m, q, l) {
      forall j | 0 <= j < |l[1..]| ensures Lookup(n, q, l[1..][j].page) == None {
        assert l[1..][j] == l[j + 1];
        assert l[0].page != l[j + 1].page;
      }
    }
  }

  // ----- where a list stops

  /** Page k of l will be refused as mapped: it has the last index of a self slot, it is mapped already, or it occurs
      earlier in the list. */
  ghost predicate Blocked(m: Memory, q: nat, l: seq<Mapping>, k: nat)
    requires Pages(l) && k < |l|
  {
    l[k].page[3] == SELF || Lookup(m, q, l[k].page).Some? || exists i :: 0 <= i < k && l[i].page == l[k].page
  }

  /** How many tables are lacking for the first k pages together. */
  function TablesFor(m: Memory, q: nat, l: seq<Mapping>, k: nat): nat
    requires Pages(l) && k <= |l|
  {
    |Lacking(m, q, TablePaths(l[..k]))|
  }

  ghost predicate Passes(m: Memory, q: nat, l: seq<Mapping>, n: int, k: nat)
    requires Pages(l) && k < |l|
  {
    !Blocked(m, q, l, k) && TablesFor(m, q, l, k + 1) <= n
  }

  /** With n free frames the first k mappings can be made, but not one more. */
  ghost predicate StopsAt(m: Memory, q: nat, l: seq<Mapping>, n: int, k: nat)
    requires Pages(l)
  {
    k <= |l| && (forall j :: 0 <= j < k ==> Passes(m, q, l, n, j)) && (k < |l| ==> !Passes(m, q, l, n, k))
  }

  /** What a list that stops at page k answers, and how many of n free frames it leaves. */
  ghost predicate StopOutcome(m: Memory, q: nat, l: seq<Mapping>, n: int, k: nat, r: Result<()>, left: int)
    requires Pages(l) && k <= |l|
  {
    if k == |l| then r == Ok(()) && left == n - TablesFor(m, q, l, k)
    else if n < TablesFor(m, q, l, k + 1) then r == Err(NoPageTable) && left == 0
    else r == Err(AlreadyMapped) && left == n - TablesFor(m, q, l, k + 1)
  }

  /** Where a list of mappings stops, why, and what it has taken by then: the tables for all pages tried, the last one
      included. */
  lemma {:induction false} MapAllStops(s: Sys, q: nat, l: seq<Mapping>)
    requires SpaceOk(s, q) && Acceptable(s, q, l) && Pages(l)
    ensures exists k: nat :: Stops(s, q, l, k)
    decreases l
  {
    if l == [] {
      NothingStops(s, q, l);
    } else if Map(s, q, l[0].page, l[0].frame).1.Ok? {
      var t := FirstMakes(s, q, l);
      MapAllStops(t, q, l[1..]);
      var k: nat :| Stops(t, q, l[1..], k);
      RestStops(s, t, q, l, k);
    } else {
      FirstFails(s, q, l);
    }
  }

  /** With n free frames the list stops at page k, and an operation around it has the outcome r and leaves that many. */
  ghost predicate ListStops(m: Memory, q: nat, l: seq<Mapping>, n: int, k: nat, r: Outcome<()>, left: int)
    requires Pages(l)
  {
    && StopsAt(m, q, l, n, k)
    && match r
       case Done(_) => StopOutcome(m, q, l, n, k, Ok(()), left)
       case Failed(e) => StopOutcome(m, q, l, n, k, Err(e), left)
       case Panicked => false
  }

  /** The list stops at page k, with the answer and the cost of that. */
  ghost predicate Stops(s: Sys, q: nat, l: seq<Mapping>, k: nat)
    requires s.pool.Shaped() && Pages(l)
  {
    var (t, r) := MapAll(s, q, l);
    StopsAt(s.mem, q, l, CountFree(s.pool), k) && StopOutcome(s.mem, q, l, CountFree(s.pool), k, r, CountFree(t.pool))
  }

  lemma {:induction false} FirstFails(s: Sys, q: nat, l: seq<Mapping>)
    requires SpaceOk(s, q) && Acceptable(s, q, l) && Pages(l) && l != []
    requires Map(s, q, l[0].page, l[0].frame).1.Err?
    ensures Stops(s, q, l, 0)
  {
    FirstStops(s, q, l);
  }

  lemma {:induction false} FirstMakes(s: Sys, q: nat, l: seq<Mapping>) returns (t: Sys)
    requires SpaceOk(s, q) && Acceptable(s, q, l) && Pages(l) && l != []
    requires Map(s, q, l[0].page, l[0].frame).1.Ok?
    ensures FirstMade(s, t, q, l) && SpaceOk(t, q) && Acceptable(t, q, l[1..]) && Pages(l[1..])
  {
    FirstStops(s, q, l);
    MapFirst(s, q, l);
    t := Map(s, q, l[0].page, l[0].frame).0;
  }

  lemma {:induction false} RestStops(s: Sys, t: Sys, q: nat, l: seq<Mapping>, k: nat)
    requires FirstMade(s, t, q, l) && Stops(t, q, l[1..], k)
    ensures Stops(s, q, l, k + 1)
  {
    FirstStops(s, q, l);
    StopLater(s, t, q, l, k);
    var (u, r) := MapAll(t, q, l[1..]);
    OutcomeLater(s, t, q, l, k, r, CountFree(u.pool));
  }

  lemma {:induction false} NothingStops(s: Sys, q: nat, l: seq<Mapping>)
    requires s.pool.Shaped() && Pages(l) && l == []
    ensures Stops(s, q, l, 0)
  {
    assert Lacking(s.mem, q, TablePaths(l[..0])) == {};
  }

  /** The first mapping alone. */
  lemma {:induction false} FirstStops(s: Sys, q: nat, l: seq<Mapping>)
    requires SpaceOk(s, q) && Acceptable(s, q, l) && Pages(l) && l != []
    ensures var (t, r) := Map(s, q, l[0].page, l[0].frame); var n := CountFree(s.pool);
            && (r.Ok? <==> Passes(s.mem, q, l, n, 0)) && (r.Ok? ==> Ordinary(l[0].page))
            && (r.Ok? ==> CountFree(t.pool) == n - TablesFor(s.mem, q, l, 1))
            && (r.Err? ==> StopOutcome(s.mem, q, l, n, 0, r, CountFree(t.pool)))
  {
    assert Addressable(s, q, l[0].page);
    MapExactly(s, q, l[0].page, l[0].frame);
    OrdinaryIs(l[0].page);
    MissingIsLacking(s.mem, q, l[0].page);
    TablePathsCons(l[..1]);
    assert TablePaths(l[..1][1..]) == {};
    assert TablePaths(l[..1]) == PagePaths(l[0].page);
  }

  /** From s to t the first mapping of l was made. */
  ghost predicate FirstMade(s: Sys, t: Sys, q: nat, l: seq<Mapping>) {
    && SpaceOk(s, q) && Acceptable(s, q, l) && Pages(l) && l != []
    && Map(s, q, l[0].page, l[0].frame) == (t, Ok(()))
    && t.pool.Shaped() && CountFree(t.pool) == CountFree(s.pool) - TablesFor(s.mem, q, l, 1)
  }

  /** After the first mapping the rest stops where the whole list does. */
  lemma {:induction false} StopLater(s: Sys, t: Sys, q: nat, l: seq<Mapping>, k: nat)
    requires FirstMade(s, t, q, l) && Passes(s.mem, q, l, CountFree(s.pool), 0)
    requires StopsAt(t.mem, q, l[1..], CountFree(t.pool), k)
    ensures StopsAt(s.mem, q, l, CountFree(s.pool), k + 1)
  {
    var n := CountFree(s.pool);
    forall j | 0 <= j < k + 1 ensures Passes(s.mem, q, l, n, j) {
      if 0 < j {
        PassesAfter(s, t, q, l, j - 1);
      }
    }
    if k < |l[1..]| {
      PassesAfter(s, t, q, l, k);
    }
  }

  lemma {:induction false} PassesAfter(s: Sys, t: Sys, q: nat, l: seq<Mapping>, j: nat)
    requires FirstMade(s, t, q, l) && j < |l| - 1
    ensures Passes(t.mem, q, l[1..], CountFree(t.pool), j) <==> Passes(s.mem, q, l, CountFree(s.pool), j + 1)
  {
    BlockedAfter(s, t, q, l, j);
    TablesAfter(s, t, q, l, j + 1);
  }

  lemma {:induction false} OutcomeLater(s: Sys, t: Sys, q: nat, l: seq<Mapping>, k: nat, r: Result<()>, left: int)
    requires FirstMade(s, t, q, l) && k < |l| && StopOutcome(t.mem, q, l[1..], CountFree(t.pool), k, r, left)
    ensures StopOutcome(s.mem, q, l, CountFree(s.pool), k + 1, r, left)
  {
    TablesAfter(s, t, q, l, k);
    if k + 1 < |l| {
      TablesAfter(s, t, q, l, k + 1);
    }
  }

  lemma {:induction false} TablesAfter(s: Sys, t: Sys, q: nat, l: seq<Mapping>, k: nat)
    requires SpaceOk(s, q) && Acceptable(s, q, l) && Pages(l) && l != [] && k < |l|
    requires Map(s, q, l[0].page, l[0].frame) == (t, Ok(()))
    ensures TablesFor(t.mem, q, l[1..], k) == TablesFor(s.mem, q, l, k + 1) - TablesFor(s.mem, q, l, 1)
  {
    var a := l[..k + 1];
    assert a[0] == l[0] && a[1..] == l[1..][..k];
    LackingAfter(s, t, q, a);
    TablePathsCons(l[..1]);
    assert TablePaths(l[..1][1..]) == {};
    assert TablePaths(l[..1]) == PagePaths(l[0].page);
    SubsetSize(Lacking(s.mem, q, PagePaths(l[0].page)), Lacking(s.mem, q, TablePaths(a)));
  }

  lemma {:induction false} BlockedAfter(s: Sys, t: Sys, q: nat, l: seq<Mapping>, j: nat)
    requires SpaceOk(s, q) && Acceptable(s, q, l) && Pages(l) && l != [] && j < |l| - 1
    requires Map(s, q, l[0].page, l[0].frame) == (t, Ok(()))
    ensures Blocked(t.mem, q, l[1..], j) <==> Blocked(s.mem, q, l, j + 1)
  {
    MapFirst(s, q, l);
    var page := l[1..][j].page;
    assert page == l[j + 1].page && Addressable(s, q, l[j + 1].page);
    OrdinaryIs(page);
    if i :| 0 <= i < j + 1 && l[i].page == page {
      assert 0 < i ==> l[1..][i - 1].page == page;
    }
    if i :| 0 <= i < j && l[1..][i].page == page {
      assert l[i + 1].page == page;
    }
  }

  lemma {:induction false} PathsGrow(l: seq<Mapping>, i: nat, j: nat)
    requires Pages(l) && i <= j <= |l|
    ensures TablePaths(l[..i]) <= TablePaths(l[..j]) && |TablePaths(l[..i])| <= |TablePaths(l[..j])|
  {
    var a, b := TablePaths(l[..i]), TablePaths(l[..j]);
    forall p | p in a ensures p in b {
      var x, k :| 0 <= x < |l[..i]| && 1 <= k <= 3 && p == l[..i][x].page[..k];
      assert l[..j][x] == l[..i][x];
    }
    SubsetSize(a, b);
  }

  lemma {:induction false} TablesGrow(m: Memory, q: nat, l: seq<Mapping>, i: nat, j: nat)
    requires Pages(l) && i <= j <= |l|
    ensures TablesFor(m, q, l, i) <= TablesFor(m, q, l, j)
  {
    PathsGrow(l, i, j);
    SubsetSize(Lacking(m, q, TablePaths(l[..i])), Lacking(m, q, TablePaths(l[..j])));
  }

  /** Some page of l is refused before the frames run out. */
  ghost predicate Refusal(m: Memory, q: nat, l: seq<Mapping>, n: int)
    requires Pages(l)
  {
    exists j :: 0 <= j < |l| && RefusedAt(m, q, l, n, j)
  }

  ghost predicate RefusedAt(m: Memory, q: nat, l: seq<Mapping>, n: int, j: nat)
    requires Pages(l) && j < |l|
  {
    Blocked(m, q, l, j) && TablesFor(m, q, l, j + 1) <= n
  }

  /** The frames run out before any page of l is refused. */
  ghost predicate Shortage(m: Memory, q: nat, l: seq<Mapping>, n: int)
    requires Pages(l)
  {
    exists j :: 0 <= j < |l| && ShortAt(m, q, l, n, j)
  }

  ghost predicate ShortAt(m: Memory, q: nat, l: seq<Mapping>, n: int, j: nat)
    requires Pages(l) && j < |l|
  {
    n < TablesFor(m, q, l, j + 1) && forall i :: 0 <= i < j ==> !Blocked(m, q, l, i)
  }

  /** Which error a list answers. */
  lemma {:induction false} MapAllAnswers(s: Sys, q: nat, l: seq<Mapping>)
    requires SpaceOk(s, q) && Acceptable(s, q, l) && Pages(l)
    ensures var r := MapAll(s, q, l).1; var n := CountFree(s.pool);
            && (r == Err(AlreadyMapped) <==> Refusal(s.mem, q, l, n))
            && (r == Err(NoPageTable) <==> Shortage(s.mem, q, l, n))
            && r != Err(NoEntry)
  {
    MapAllStops(s, q, l);
    var k: nat :| Stops(s, q, l, k);
    StopReason(s.mem, q, l, CountFree(s.pool), k);
  }

  lemma {:induction false} StopReason(m: Memory, q: nat, l: seq<Mapping>, n: int, k: nat)
    requires Pages(l) && StopsAt(m, q, l, n, k)
    ensures Refusal(m, q, l, n) <==> k < |l| && TablesFor(m, q, l, k + 1) <= n
    ensures Shortage(m, q, l, n) <==> k < |l| && n < TablesFor(m, q, l, k + 1)
  {
    if Refusal(m, q, l, n) {
      var j :| 0 <= j < |l| && RefusedAt(m, q, l, n, j);
      RefusedLater(m, q, l, n, k, j);
    }
    if Shortage(m, q, l, n) {
      var j :| 0 <= j < |l| && ShortAt(m, q, l, n, j);
      ShortLater(m, q, l, n, k, j);
    }
    if k < |l| {
      StoppedBy(m, q, l, n, k);
    }
  }

  lemma {:induction false} RefusedLater(m: Memory, q: nat, l: seq<Mapping>, n: int, k: nat, j: nat)
    requires Pages(l) && StopsAt(m, q, l, n, k) && j < |l| && RefusedAt(m, q, l, n, j)
    ensures k <= j && TablesFor(m, q, l, k + 1) <= n
  {
    assert j < k ==> Passes(m, q, l, n, j);
    TablesGrow(m, q, l, k + 1, j + 1);
  }

  lemma {:induction false} ShortLater(m: Memory, q: nat, l: seq<Mapping>, n: int, k: nat, j: nat)
    requires Pages(l) && StopsAt(m, q, l, n, k) && j < |l| && ShortAt(m, q, l, n, j)
    ensures k <= j && n < TablesFor(m, q, l, k + 1)
  {
    assert j < k ==> Passes(m, q, l, n, j);
  }

  lemma {:induction false} StoppedBy(m: Memory, q: nat, l: seq<Mapping>, n: int, k: nat)
    requires Pages(l) && StopsAt(m, q, l, n, k) && k < |l|
    ensures if n < TablesFor(m, q, l, k + 1) then ShortAt(m, q, l, n, k) else RefusedAt(m, q, l, n, k)
  {
    assert !Passes(m, q, l, n, k);
    forall i | 0 <= i < k ensures !Blocked(m, q, l, i) {
      assert Passes(m, q, l, n, i);
    }
  }

  // ----- ranges

  lemma {:induction false} NumberOfPage(n: nat)
    ensures NumberOf(PageOf(n)) == n % MAX_FRAME
  {
    var a := n / 512;
    var b := a / 512;
    var c := b / 512;
    IndicesFour(n);
    assert n == a * 512 + n % 512 && a == b * 512 + a % 512 && b == c * 512 + b % 512;
    assert c == c / 512 * 512 + c % 512;
    assert n == c / 512 * MAX_FRAME + NumberOf(PageOf(n));
  }

  lemma {:induction false} SameResidue(o: nat, f: nat, g: nat)
    requires f < MAX_FRAME && g < MAX_FRAME && (o + f) % MAX_FRAME == (o + g) % MAX_FRAME
    ensures f == g
  {
  }

  /** The pages of a range are all different. */
  lemma {:induction false} RangeDiffers(v: nat, p: nat, count: nat, i: nat, j: nat)
    requires i < j < count < MAX_FRAME
    ensures Range(v, p, count)[i].page != Range(v, p, count)[j].page
  {
    NumberOfPage(v + i);
    NumberOfPage(v + j);
    if PageOf(v + i) == PageOf(v + j) {
      SameResidue(v, i, j);
    }
  }

  /** `map_fitting` succeeds exactly below 2 MB, when no page of the range is mapped or has the last index of a self
      slot, and the tables lacking for all of them do not outnumber the free frames. */
  lemma {:induction false} MapFittingExactly(s: Sys, q: nat, vBegin: nat, vEnd: nat, pBegin: nat)
    requires SpaceOk(s, q) && vBegin <= vEnd
    requires vEnd - vBegin < 0x20_0000 ==> Acceptable(s, q, Fitting(vBegin, vEnd, pBegin))
    ensures var l := Fitting(vBegin, vEnd, pBegin);
            MapFitting(s, q, vBegin, vEnd, pBegin).1.Done? <==>
            && vEnd - vBegin < 0x20_0000 && NoSelf(l) && AllFree(s.mem, q, l)
            && |Lacking(s.mem, q, TablePaths(l))| <= CountFree(s.pool)
  {
    if vEnd - vBegin < 0x20_0000 {
      RangeNew(s.mem, q, vBegin / FRAME, pBegin / FRAME, (vEnd - vBegin) / FRAME);
      MapAllExactly(s, q, Fitting(vBegin, vEnd, pBegin));
    }
  }

  /** Where `map_fitting` stops below 2 MB, with which answer and at what cost. */
  lemma {:induction false} MapFittingStops(s: Sys, q: nat, vBegin: nat, vEnd: nat, pBegin: nat)
    requires SpaceOk(s, q) && vBegin <= vEnd < vBegin + 0x20_0000 && Acceptable(s, q, Fitting(vBegin, vEnd, pBegin))
    ensures var (t, r) := MapFitting(s, q, vBegin, vEnd, pBegin);
            exists k: nat ::
              ListStops(s.mem, q, Fitting(vBegin, vEnd, pBegin), CountFree(s.pool), k, r, CountFree(t.pool))
  {
    var l := Fitting(vBegin, vEnd, pBegin);
    MapAllStops(s, q, l);
    var k: nat :| Stops(s, q, l, k);
    var (t, r) := MapFitting(s, q, vBegin, vEnd, pBegin);
    assert ListStops(s.mem, q, l, CountFree(s.pool), k, r, CountFree(t.pool));
  }

  ghost predicate AllFree(m: Memory, q: nat, l: seq<Mapping>)
    requires Pages(l)
  {
    forall j :: 0 <= j < |l| ==> Lookup(m, q, l[j].page) == None
  }

  lemma {:induction false} RangeNew(m: Memory, q: nat, v: nat, p: nat, count: nat)
    requires count < 512
    ensures AllNew(m, q, Range(v, p, count)) <==> AllFree(m, q, Range(v, p, count))
  {
    forall i, j | 0 <= i < j < count ensures Range(v, p, count)[i].page != Range(v, p, count)[j].page {
      RangeDiffers(v, p, count, i, j);
    }
  }
}
