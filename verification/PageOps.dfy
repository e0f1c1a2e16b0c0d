/**
 Mapping many pages, mapping a whole block at a free place, unmapping, and the
 map/unmap round trip the kernel runs at boot.
 */
module PageOps {
  import Bits
  import opened Frames
  import opened Wrappers
  import opened BuddySystem
  import opened BuddyCorrect
  import opened PageTables
  import opened PageLink
  import opened PageMap
  import opened PageScan

  // ----- lists of mappings

  datatype Mapping = Mapping(page: seq<Slot>, frame: nat)

  predicate Pages(l: seq<Mapping>) {
    forall j :: 0 <= j < |l| ==> |l[j].page| == 4
  }

  /** `map` each in turn, up to the first failure. */
  function MapAll(s: Sys, q: nat, l: seq<Mapping>): (r: (Sys, Result<()>))
    requires s.pool.Shaped() && Pages(l)
    ensures r.0.pool.Shaped()
    decreases l
  {
    if l == [] then (s, Ok(()))
    else
      var (s1, r) := Map(s, q, l[0].page, l[0].frame);
      if r.Err? then (s1, r) else MapAll(s1, q, l[1..])
  }

  /** The frame the list assigns to a page. */
  function Assigned(l: seq<Mapping>, page: seq<Slot>): Option<nat>
    decreases l
  {
    if l == [] then None
    else if l[0].page == page then Some(l[0].frame)
    else Assigned(l[1..], page)
  }

  /** The translations of q after the mappings of l were added to those of m. */
  ghost predicate Extends(m: Memory, n: Memory, q: nat, l: seq<Mapping>) {
    forall page: seq<Slot> :: |page| == 4 && Ordinary(page) ==>
      Lookup(n, q, page) == match Assigned(l, page) case Some(f) => Some(f) case None => Lookup(m, q, page)
  }

  /** No page of l was mapped before, and none occurs twice. */
  ghost predicate AllNew(m: Memory, q: nat, l: seq<Mapping>)
    requires Pages(l)
  {
    && (forall j :: 0 <= j < |l| ==> Lookup(m, q, l[j].page) == None)
    && (forall i, j :: 0 <= i < j < |l| ==> l[i].page != l[j].page)
  }

  /** The pages of l may be asked for: only their last index may be that of a self slot. */
  ghost predicate Acceptable(s: Sys, q: nat, l: seq<Mapping>) {
    forall j :: 0 <= j < |l| ==> Addressable(s, q, l[j].page) && l[j].frame < MAX_FRAME
  }

  /** No page of l has the last index of a self slot. */
  predicate NoSelf(l: seq<Mapping>)
    requires Pages(l)
  {
    forall j :: 0 <= j < |l| ==> l[j].page[3] != SELF
  }

  lemma {:induction false} AssignedIn(l: seq<Mapping>, page: seq<Slot>) returns (j: nat)
    requires Assigned(l, page).Some?
    ensures j < |l| && l[j].page == page && l[j].frame == Assigned(l, page).value
    decreases l
  {
    if l[0].page == page {
      j := 0;
    } else {
      j := AssignedIn(l[1..], page);
      j := j + 1;
    }
  }

  lemma {:induction false} MapKeepsAcceptable(s: Sys, t: Sys, q: nat, l: seq<Mapping>)
    requires SpaceOk(s, q) && Inv(t.pool) && Grows(s, t, q) && Acceptable(s, q, l)
    ensures Acceptable(t, q, l)
  {
    forall j | 0 <= j < |l| ensures Addressable(t, q, l[j].page) {
      assert Addressable(s, q, l[j].page);
      if l[j].page[3] == SELF {
        LoopedKept(s, t, q);
      }
    }
  }

  /** From s to t the first k mappings of l were made, on ordinary pages that were unmapped and occur once, and every
      other ordinary page is unchanged; all of l exactly when r is Ok. */
  ghost predicate PrefixMade(s: Sys, t: Sys, q: nat, l: seq<Mapping>, k: nat, r: Result<()>)
    requires Inv(s.pool) && Pages(l)
  {
    && SpaceOk(t, q) && Grows(s, t, q)
    && k <= |l| && (r.Ok? <==> k == |l|)
    && (forall j :: 0 <= j < k ==> Ordinary(l[j].page))
    && Extends(s.mem, t.mem, q, l[..k]) && AllNew(s.mem, q, l[..k])
  }

  /** The mappings made are exactly a prefix of the list: all of it when the result is Ok. */
  lemma {:induction false} MapAllCorrect(s: Sys, q: nat, l: seq<Mapping>) returns (k: nat)
    requires SpaceOk(s, q) && Acceptable(s, q, l) && Pages(l)
    ensures PrefixMade(s, MapAll(s, q, l).0, q, l, k, MapAll(s, q, l).1)
    decreases l
  {
    k := 0;
    if l == [] {
      GrowsRefl(s, q);
      PrefixNone(s, s, q, l, Ok(()));
    } else {
      MapFirst(s, q, l);
      var (s1, r1) := Map(s, q, l[0].page, l[0].frame);
      if r1.Ok? {
        k := MapAllCorrect(s1, q, l[1..]);
        var (t, r) := MapAll(s1, q, l[1..]);
        PrefixMore(s, s1, t, q, l, k, r);
        k := k + 1;
      } else {
        PrefixNone(s, s1, q, l, r1);
      }
    }
  }

  lemma {:induction false} PrefixNone(s: Sys, t: Sys, q: nat, l: seq<Mapping>, r: Result<()>)
    requires Inv(s.pool) && SpaceOk(t, q) && Grows(s, t, q) && Pages(l) && SamePages(s.mem, t.mem, q)
    requires r.Ok? <==> l == []
    ensures PrefixMade(s, t, q, l, 0, r)
  {
    assert l[..0] == [];
  }

  lemma {:induction false} PrefixMore(s: Sys, s1: Sys, t: Sys, q: nat, l: seq<Mapping>, k: nat, r: Result<()>)
    requires Inv(s.pool) && SpaceOk(s1, q) && Grows(s, s1, q) && l != [] && Pages(l) && Ordinary(l[0].page)
    requires Lookup(s.mem, q, l[0].page) == None
    requires forall page: seq<Slot> :: |page| == 4 && Ordinary(page) ==>
               Lookup(s1.mem, q, page) == if page == l[0].page then Some(l[0].frame) else Lookup(s.mem, q, page)
    requires PrefixMade(s1, t, q, l[1..], k, r)
    ensures PrefixMade(s, t, q, l, k + 1, r)
  {
    GrowsTrans(s, s1, t, q);
    ExtendsCons(s.mem, s1.mem, t.mem, q, l, k);
    forall j | 0 <= j < k + 1 ensures Ordinary(l[j].page) {
      assert 0 < j ==> l[1..][j - 1] == l[j];
    }
  }

  lemma {:induction false} MapFirst(s: Sys, q: nat, l: seq<Mapping>)
    requires SpaceOk(s, q) && Acceptable(s, q, l) && Pages(l) && l != []
    ensures var (t, r) := Map(s, q, l[0].page, l[0].frame);
            && SpaceOk(t, q) && Grows(s, t, q) && Acceptable(t, q, l[1..])
            && (r.Err? ==> SamePages(s.mem, t.mem, q))
            && (r.Ok? ==> Ordinary(l[0].page) && Lookup(s.mem, q, l[0].page) == None)
            && (r.Ok? ==> forall page: seq<Slot> :: |page| == 4 && Ordinary(page) ==>
              Lookup(t.mem, q, page) == if page == l[0].page then Some(l[0].frame) else Lookup(s.mem, q, page))
  {
    assert Addressable(s, q, l[0].page);
    OrdinaryIs(l[0].page);
    MapExactly(s, q, l[0].page, l[0].frame);
    assert Acceptable(s, q, l[1..]);
    MapKeepsAcceptable(s, Map(s, q, l[0].page, l[0].frame).0, q, l[1..]);
  }

  lemma {:induction false} ExtendsCons(m: Memory, m1: Memory, n: Memory, q: nat, l: seq<Mapping>, k: nat)
    requires l != [] && Pages(l) && k <= |l[1..]| && Ordinary(l[0].page)
    requires forall j :: 0 <= j < k ==> Ordinary(l[1..][j].page)
    requires Lookup(m, q, l[0].page) == None
    requires forall page: seq<Slot> :: |page| == 4 && Ordinary(page) ==>
               Lookup(m1, q, page) == if page == l[0].page then Some(l[0].frame) else Lookup(m, q, page)
    requires Extends(m1, n, q, l[1..][..k]) && AllNew(m1, q, l[1..][..k])
    ensures Extends(m, n, q, l[..k + 1]) && AllNew(m, q, l[..k + 1])
  {
    var a, b := l[..k + 1], l[1..][..k];
    assert a == [l[0]] + b && a[1..] == b;
    forall page: seq<Slot> | |page| == 4 && Ordinary(page)
      ensures Lookup(n, q, page) == match Assigned(a, page) case Some(f) => Some(f) case None => Lookup(m, q, page)
    {
      if page == l[0].page && Assigned(b, page).Some? {
        var j := AssignedIn(b, page);
        assert false;
      }
    }
    forall j | 0 <= j < |a| ensures Lookup(m, q, a[j].page) == None && (0 < j ==> a[0].page != a[j].page) {
      if 0 < j {
        assert a[j] == b[j - 1];
        assert Lookup(m1, q, b[j - 1].page) == None;
      }
    }
    forall i, j | 0 <= i < j < |a| ensures a[i].page != a[j].page {
      if 0 < i {
        assert a[i] == b[i - 1] && a[j] == b[j - 1];
      }
    }
  }

  // ----- page numbers and ranges

  /** The lowest k base-512 digits of n, most significant first. */
  function Indices(n: nat, k: nat): (p: seq<Slot>)
    ensures |p| == k
  {
    if k == 0 then [] else Indices(n / 512, k - 1) + [n % 512]
  }

  /** The four indices of a page number. */
  function PageOf(n: nat): (p: seq<Slot>)
    ensures |p| == 4
  {
    Indices(n, 4)
  }

  /** `count` consecutive pages onto consecutive frames. */
  function Range(v: nat, p: nat, count: nat): (l: seq<Mapping>)
    ensures |l| == count && Pages(l)
    ensures forall j :: 0 <= j < count ==> l[j] == Mapping(PageOf(v + j), p + j)
  {
    if count == 0 then [] else Range(v, p, count - 1) + [Mapping(PageOf(v + count - 1), p + count - 1)]
  }

  datatype Outcome<+T> = Done(value: T) | Failed(error: Error) | Panicked

  /** `map_fitting`; ranges of 2 MB and more are not implemented and panic. */
  function MapFitting(s: Sys, q: nat, vBegin: nat, vEnd: nat, pBegin: nat): (r: (Sys, Outcome<()>))
    requires s.pool.Shaped() && vBegin <= vEnd
    ensures r.0.pool.Shaped()
  {
    var size: nat := vEnd - vBegin;
    if 0 < size / 0x20_0000 then (s, Panicked)
    else
      var (t, r) := MapAll(s, q, Range(vBegin / FRAME, pBegin / FRAME, size / FRAME));
      (t, match r case Ok(_) => Done(()) case Err(e) => Failed(e))
  }

  /** The mappings `map_fitting` makes. */
  function Fitting(vBegin: nat, vEnd: nat, pBegin: nat): (l: seq<Mapping>)
    requires vBegin <= vEnd
    ensures Pages(l)
  {
    Range(vBegin / FRAME, pBegin / FRAME, (vEnd - vBegin) / FRAME)
  }

  /** From 2 MB on `map_fitting` panics before it does anything. Below, Ok makes the whole range linear; a failure
      leaves exactly a prefix of it mapped. All other ordinary pages are unchanged, and the range was unmapped
      before. */
  lemma {:induction false} MapFittingCorrect(s: Sys, q: nat, vBegin: nat, vEnd: nat, pBegin: nat) returns (k: nat)
    requires SpaceOk(s, q) && vBegin <= vEnd
    requires vEnd - vBegin < 0x20_0000 ==> Acceptable(s, q, Fitting(vBegin, vEnd, pBegin))
    ensures var (t, r) := MapFitting(s, q, vBegin, vEnd, pBegin); var l := Fitting(vBegin, vEnd, pBegin);
            && SpaceOk(t, q) && Grows(s, t, q)
            && (r.Panicked? <==> 0x20_0000 <= vEnd - vBegin) && (r.Panicked? ==> t == s)
            && (!r.Panicked? ==> k <= |l| && (r.Done? <==> k == |l|) && PrefixMapped(s.mem, t.mem, q, l, k))
  {
    k := 0;
    if vEnd - vBegin < 0x20_0000 {
      var l := Fitting(vBegin, vEnd, pBegin);
      k := MapAllCorrect(s, q, l);
      PrefixIsMapped(s, MapAll(s, q, l).0, q, l, k);
    } else {
      GrowsRefl(s, q);
    }
  }

  /** The first k mappings of l were made, on pages that were unmapped, and nothing else changed. */
  ghost predicate PrefixMapped(m: Memory, n: Memory, q: nat, l: seq<Mapping>, k: nat)
    requires k <= |l| && Pages(l)
  {
    && (forall j :: 0 <= j < k ==> Lookup(n, q, l[j].page) == Some(l[j].frame) && Lookup(m, q, l[j].page) == None)
    && (forall page: seq<Slot> :: |page| == 4 && Ordinary(page) && (forall j :: 0 <= j < k ==> page != l[j].page)
          ==> Lookup(n, q, page) == Lookup(m, q, page))
  }

  lemma {:induction false} PrefixIsMapped(s: Sys, t: Sys, q: nat, l: seq<Mapping>, k: nat)
    requires k <= |l| && Pages(l) && forall j :: 0 <= j < k ==> Ordinary(l[j].page)
    requires Extends(s.mem, t.mem, q, l[..k]) && AllNew(s.mem, q, l[..k])
    ensures PrefixMapped(s.mem, t.mem, q, l, k)
  {
    var a := l[..k];
    forall j | 0 <= j < k
      ensures Lookup(t.mem, q, l[j].page) == Some(l[j].frame) && Lookup(s.mem, q, l[j].page) == None
    {
      AssignedAt(a, j);
      assert a[j] == l[j] && Ordinary(l[j].page);
    }
    forall page: seq<Slot> | |page| == 4 && Ordinary(page) && (forall j :: 0 <= j < k ==> page != l[j].page)
      ensures Lookup(t.mem, q, page) == Lookup(s.mem, q, page)
    {
      if Assigned(a, page).Some? {
        var j := AssignedIn(a, page);
      }
    }
  }

  /** A list without repeated pages assigns each page its own frame. */
  lemma {:induction false} AssignedAt(l: seq<Mapping>, j: nat)
    requires j < |l| && forall i, k :: 0 <= i < k < |l| ==> l[i].page != l[k].page
    ensures Assigned(l, l[j].page) == Some(l[j].frame)
    decreases l
  {
    if 0 < j {
      assert l[1..][j - 1] == l[j];
      AssignedAt(l[1..], j - 1);
    }
  }

  // ----- a block at a free place

  /** The page number of four indices. */
  function NumberOf(idx: seq<Slot>): nat
    requires |idx| == 4
  {
    idx[0] as nat * 512 * 512 * 512 + idx[1] as nat * 512 * 512 + idx[2] as nat * 512 + idx[3] as nat
  }

  lemma {:induction false} NumberPage(idx: seq<Slot>, j: nat)
    requires |idx| == 4 && idx[3] as nat + j < 512
    ensures PageOf(NumberOf(idx) + j) == [idx[0], idx[1], idx[2], idx[3] + j]
  {
    Digits(NumberOf(idx) + j, idx[0], idx[1], idx[2], idx[3] as nat + j);
  }

  lemma {:induction false} Digits(n: nat, a: nat, b: nat, c: nat, d: nat)
    requires a < 512 && b < 512 && c < 512 && d < 512
    requires n == a * 0x800_0000 + b * 0x4_0000 + c * 512 + d
    ensures Indices(n, 4) == [a, b, c, d]
  {
    var x, y := a * 0x4_0000 + b * 512 + c, a * 512 + b;
    assert n / 512 == x && n % 512 == d;
    assert x / 512 == y && x % 512 == c;
    assert y / 512 == a && y % 512 == b;
    assert Indices(a, 1) == [a];
    assert Indices(y, 2) == [a, b];
    assert Indices(x, 3) == [a, b, c];
  }

  datatype Region = Region(begin: nat, end: nat)

  /** `auto_continuous_map` of a block of order `order` at frame `frame`. */
  ghost function AutoMap(s: Sys, q: nat, frame: nat, order: nat): (Sys, Outcome<Option<Region>>)
    requires s.pool.Shaped()
  {
    var count := Bits.Pow2(order);
    var (s1, found) := FindEmptyPages(s, q, count);
    match found
    case None => (s1, Done(None))
    case Some(idx) => MapBlock(s1, q, NumberOf(idx), frame, count)
  }

  /** ... from page number n on, once it was found. A failure to map is a panic. */
  function MapBlock(s: Sys, q: nat, n: nat, frame: nat, count: nat): (Sys, Outcome<Option<Region>>)
    requires s.pool.Shaped()
  {
    var (t, r) := MapAll(s, q, Range(n, frame, count));
    (t, if r.Err? then Panicked else Done(Some(Region(n * FRAME, n * FRAME + count * FRAME))))
  }

  /** l maps consecutive slots, from i on, of the table at path to consecutive frames, and all are free. */
  ghost predicate RunReady(s: Sys, q: nat, path: seq<Slot>, i: nat, l: seq<Mapping>) {
    && SpaceOk(s, q) && Node(s.mem, q, path) && |path| == 3 && i + |l| <= 511 && Pages(l)
    && (forall j :: 0 <= j < |l| ==> l[j].page == path + [(i + j) as Slot] && l[j].frame < MAX_FRAME)
    && (forall j :: 0 <= j < |l| ==> Lookup(s.mem, q, l[j].page) == None)
  }

  /** Once the tables exist and the slots are free, mapping a run succeeds without taking a frame. */
  lemma {:induction false} MapRun(s: Sys, q: nat, path: seq<Slot>, i: nat, l: seq<Mapping>)
    requires RunReady(s, q, path, i, l)
    ensures RunMapped(s, MapAll(s, q, l).0, q, l, MapAll(s, q, l).1)
    decreases l
  {
    if l == [] {
      GrowsRefl(s, q);
    } else {
      RunFirst(s, q, path, i, l);
      var (s1, _) := Map(s, q, l[0].page, l[0].frame);
      RunRest(s, s1, q, path, i, l);
      MapRun(s1, q, path, i + 1, l[1..]);
      RunAdds(s, s1, MapAll(s1, q, l[1..]).0, q, path, i, l, MapAll(s1, q, l[1..]).1);
    }
  }

  lemma {:induction false} RunAdds(s: Sys, s1: Sys, t: Sys, q: nat, path: seq<Slot>, i: nat, l: seq<Mapping>,
                                   r: Result<()>)
    requires Inv(s.pool) && l != [] && Pages(l) && Ordinary(l[0].page) && RunReady(s1, q, path, i + 1, l[1..])
    requires Grows(s, s1, q) && CountFree(s1.pool) == CountFree(s.pool)
    requires forall page: seq<Slot> :: |page| == 4 && Ordinary(page) ==>
               Lookup(s1.mem, q, page) == if page == l[0].page then Some(l[0].frame) else Lookup(s.mem, q, page)
    requires RunMapped(s1, t, q, l[1..], r)
    ensures RunMapped(s, t, q, l, r)
  {
    RunExtends(s.mem, s1.mem, t.mem, q, l);
    GrowsTrans(s, s1, t, q);
  }

  /** All of l was mapped, without taking a frame. */
  ghost predicate RunMapped(s: Sys, t: Sys, q: nat, l: seq<Mapping>, r: Result<()>)
    requires Inv(s.pool)
  {
    && r == Ok(()) && SpaceOk(t, q) && Grows(s, t, q) && CountFree(t.pool) == CountFree(s.pool)
    && Extends(s.mem, t.mem, q, l)
  }

  lemma {:induction false} RunFirst(s: Sys, q: nat, path: seq<Slot>, i: nat, l: seq<Mapping>)
    requires RunReady(s, q, path, i, l) && l != []
    ensures var (t, r) := Map(s, q, l[0].page, l[0].frame);
            && r == Ok(()) && SpaceOk(t, q) && Grows(s, t, q)
            && CountFree(t.pool) == CountFree(s.pool)
            && Ordinary(l[0].page)
            && forall page: seq<Slot> :: |page| == 4 && Ordinary(page) ==>
                 Lookup(t.mem, q, page) == if page == l[0].page then Some(l[0].frame) else Lookup(s.mem, q, page)
  {
    var slot: Slot := i;
    var page := l[0].page;
    assert page == path + [slot] && page[..3] == path;
    RunPage(s, q, path, slot);
    MapCorrect(s, q, page, l[0].frame);
    NoneFree(s.pool);
  }

  lemma {:induction false} RunRest(s: Sys, t: Sys, q: nat, path: seq<Slot>, i: nat, l: seq<Mapping>)
    requires RunReady(s, q, path, i, l) && l != [] && SpaceOk(t, q) && Grows(s, t, q)
    requires forall page: seq<Slot> :: |page| == 4 && Ordinary(page) ==>
               Lookup(t.mem, q, page) == if page == l[0].page then Some(l[0].frame) else Lookup(s.mem, q, page)
    ensures RunReady(t, q, path, i + 1, l[1..])
  {
    forall j | 0 <= j < |l| - 1
      ensures l[1..][j].page == path + [(i + 1 + j) as Slot] && l[1..][j].frame < MAX_FRAME
      ensures Lookup(t.mem, q, l[1..][j].page) == None
    {
      assert l[1..][j] == l[j + 1];
      SlotsDiffer(path, i, (i + 1 + j) as Slot);
      RunPage(s, q, path, (i + 1 + j) as Slot);
    }
  }

  lemma {:induction false} SlotsDiffer(path: seq<Slot>, i: Slot, j: Slot)
    requires i != j
    ensures path + [i] != path + [j]
  {
    assert (path + [i])[|path|] != (path + [j])[|path|];
  }

  lemma {:induction false} RunPage(s: Sys, q: nat, path: seq<Slot>, slot: Slot)
    requires Node(s.mem, q, path) && |path| == 3 && slot != SELF
    ensures Mappable(s, q, path + [slot]) && Missing(s.mem, q, path) == 0
  {
    OrdinaryParts(path, slot, []);
    assert path + [slot] + [] == path + [slot];
    assert (path + [slot])[..3] == path;
    FollowedPath(s.mem, q, path);
  }

  /** A path whose tables all exist has none missing and no huge page on it. */
  lemma {:induction false} FollowedPath(m: Memory, f: nat, path: seq<Slot>)
    requires Follow(m, f, path).Some?
    ensures HugeFree(m, f, path) && Missing(m, f, path) == 0
    decreases path
  {
    if path != [] {
      FollowedPath(m, Next(m, f, path[0]).value, path[1..]);
    }
  }

  lemma {:induction false} RunExtends(m: Memory, m1: Memory, n: Memory, q: nat, l: seq<Mapping>)
    requires l != [] && Pages(l) && Ordinary(l[0].page)
    requires forall page: seq<Slot> :: |page| == 4 && Ordinary(page) ==>
               Lookup(m1, q, page) == if page == l[0].page then Some(l[0].frame) else Lookup(m, q, page)
    requires Extends(m1, n, q, l[1..]) && forall j :: 0 <= j < |l| - 1 ==> Lookup(m1, q, l[1..][j].page) == None
    ensures Extends(m, n, q, l)
  {
    forall page: seq<Slot> | |page| == 4 && Ordinary(page)
      ensures Lookup(n, q, page) == match Assigned(l, page) case Some(f) => Some(f) case None => Lookup(m, q, page)
    {
      if page == l[0].page && Assigned(l[1..], page).Some? {
        var j := AssignedIn(l[1..], page);
        assert false;
      }
    }
  }

  /** `count` frames from `frame` on appear at the region, in the new tables below root slot i. */
  ghost predicate AutoMapped(s: Sys, t: Sys, q: nat, i: Slot, frame: nat, count: nat, region: Region)
    requires s.pool.Shaped() && t.pool.Shaped()
  {
    && CountFree(t.pool) == CountFree(s.pool) - 3
    && region.begin == NumberOf([i, 1, 1, 1]) * FRAME
    && region.end == region.begin + count * FRAME
    && forall page: seq<Slot> :: |page| == 4 && Ordinary(page) ==>
         Lookup(t.mem, q, page) ==
         if page[..3] == [i, 1, 1] && 1 <= page[3] <= count then Some(frame + page[3] - 1) else Lookup(s.mem, q, page)
  }

  /** `auto_continuous_map` never panics. It succeeds exactly for blocks of order at most 8 with a free
      root slot and three free frames, takes exactly three frames, and maps the block linearly. A failure takes the
      three frames, or as many as there are, unless no root slot is free. */
  lemma {:induction false} AutoMapCorrect(s: Sys, q: nat, frame: nat, order: nat)
    requires SpaceOk(s, q) && IsPresent(Entry(s.mem, q, SELF)) && frame + Bits.Pow2(order) <= MAX_FRAME
    ensures var (t, r) := AutoMap(s, q, frame, order); var i := FirstFree(Tab(s.mem, q), 1);
            && SpaceOk(t, q) && Grows(s, t, q)
            && r.Done? && (r.value.Some? <==> i < SELF && 3 <= CountFree(s.pool) && order <= 8)
            && CountFree(t.pool) == (if SELF <= i then CountFree(s.pool)
                                     else if 3 <= CountFree(s.pool) then CountFree(s.pool) - 3 else 0)
            && (r.value.None? ==> SamePages(s.mem, t.mem, q))
            && (r.value.Some? ==> AutoMapped(s, t, q, i, frame, Bits.Pow2(order), r.value.value))
  {
    var count := Bits.Pow2(order);
    OrderBound(order);
    FindEmptyCorrect(s, q, count);
    if FindEmptyPages(s, q, count).1.Some? {
      AutoFound(s, q, FirstFree(Tab(s.mem, q), 1), frame, order);
    }
  }

  lemma {:induction false} AutoFound(s: Sys, q: nat, i: Slot, frame: nat, order: nat)
    requires SpaceOk(s, q) && order <= 8 && frame + Bits.Pow2(order) <= MAX_FRAME && i != SELF
    requires var (s1, found) := FindEmptyPages(s, q, Bits.Pow2(order));
             && SpaceOk(s1, q) && Grows(s, s1, q) && SamePages(s.mem, s1.mem, q)
             && found == Some([i, 1, 1, 1]) && RunBelow(s1, q, [i, 1, 1]) && CountFree(s1.pool) == CountFree(s.pool) - 3
    ensures var (t, r) := AutoMap(s, q, frame, order);
            && SpaceOk(t, q) && Grows(s, t, q) && r.Done? && r.value.Some?
            && AutoMapped(s, t, q, i, frame, Bits.Pow2(order), r.value.value)
  {
    OrderBound(order);
    AutoRun(s, FindEmptyPages(s, q, Bits.Pow2(order)).0, q, i, frame, Bits.Pow2(order));
  }

  lemma {:induction false} OrderBound(order: nat)
    ensures Bits.Pow2(order) <= 510 <==> order <= 8
    ensures order <= 8 ==> Bits.Pow2(order) <= 256
  {
    assert Bits.Pow2(8) == 256 && Bits.Pow2(9) == 512;
    if order <= 8 {
      Bits.Pow2Mono(order, 8);
    } else {
      Bits.Pow2Mono(9, order);
    }
  }

  lemma {:induction false} AutoRun(s: Sys, s1: Sys, q: nat, i: Slot, frame: nat, count: nat)
    requires Inv(s.pool) && SpaceOk(s1, q) && Grows(s, s1, q) && SamePages(s.mem, s1.mem, q)
             && RunBelow(s1, q, [i, 1, 1])
    requires 1 <= count <= 256 && frame + count <= MAX_FRAME && i != SELF
    ensures var (t, r) := MapAll(s1, q, Range(NumberOf([i, 1, 1, 1]), frame, count));
            && r == Ok(()) && SpaceOk(t, q) && Grows(s, t, q) && CountFree(t.pool) == CountFree(s1.pool)
            && forall page: seq<Slot> :: |page| == 4 && Ordinary(page) ==>
                 Lookup(t.mem, q, page) ==
                 if page[..3] == [i, 1, 1] && 1 <= page[3] <= count then Some(frame + page[3] - 1)
                 else Lookup(s.mem, q, page)
  {
    var path: seq<Slot> := [i, 1, 1];
    var l := Range(NumberOf([i, 1, 1, 1]), frame, count);
    AutoReady(s1, q, i, frame, count, l);
    MapRun(s1, q, path, 1, l);
    var t := MapAll(s1, q, l).0;
    GrowsTrans(s, s1, t, q);
    forall page: seq<Slot> | |page| == 4 && Ordinary(page)
      ensures Lookup(t.mem, q, page) ==
              if page[..3] == path && 1 <= page[3] <= count then Some(frame + page[3] - 1) else Lookup(s.mem, q, page)
    {
      RunAssigned(l, path, frame, count, page);
    }
  }

  lemma {:induction false} AutoReady(s: Sys, q: nat, i: Slot, frame: nat, count: nat, l: seq<Mapping>)
    requires SpaceOk(s, q) && RunBelow(s, q, [i, 1, 1])
    requires 1 <= count <= 256 && frame + count <= MAX_FRAME && i != SELF
    requires l == Range(NumberOf([i, 1, 1, 1]), frame, count)
    ensures RunReady(s, q, [i, 1, 1], 1, l)
    ensures forall j :: 0 <= j < count ==> l[j] == Mapping([i, 1, 1] + [(1 + j) as Slot], frame + j)
  {
    var path: seq<Slot> := [i, 1, 1];
    forall j | 0 <= j < count
      ensures l[j] == Mapping(path + [(1 + j) as Slot], frame + j) && Lookup(s.mem, q, l[j].page) == None
    {
      NumberPage([i, 1, 1, 1], j);
      LookupAppend(s.mem, q, path, At(s.mem, q, path), [(1 + j) as Slot]);
    }
  }

  lemma {:induction false} RunAssigned(l: seq<Mapping>, path: seq<Slot>, frame: nat, count: nat, page: seq<Slot>)
    requires |path| == 3 && count <= 256 && |l| == count && |page| == 4
    requires forall j :: 0 <= j < count ==> l[j] == Mapping(path + [(1 + j) as Slot], frame + j)
    ensures Assigned(l, page) == if page[..3] == path && 1 <= page[3] <= count then Some(frame + page[3] - 1) else None
  {
    if page[..3] == path && 1 <= page[3] <= count {
      var j: nat := page[3] - 1;
      assert page == page[..3] + [page[3]];
      assert l[j].page == page;
      assert forall k :: 0 <= k < count ==> l[k].page[3] == 1 + k;
      AssignedAt(l, j);
    } else if Assigned(l, page).Some? {
      var j := AssignedIn(l, page);
      assert false;
    }
  }
}
