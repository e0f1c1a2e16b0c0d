/**
 Facts about single steps of the code that handles several address spaces, on
 values: the page kept for another root, what its address leads to, and lists
 of mappings run one request after the other.
 */
module SpaceSteps {
  import opened Frames
  import opened Wrappers
  import opened BuddyCorrect
  import opened PageTables
  import opened PageMap
  import opened PageScan
  import opened PageOps
  import opened PageUnmap
  import opened AddressSpaces
  import opened RecursiveAddress
  import opened PageEntry
  import opened KernelInit
  import opened TableSteps

  // ----- addresses of pages found

  /** An address made from a page number faults exactly when `Deref` does, and leads to the same frame. */
  lemma {:induction false} PageDeref(s: Sys, idx: seq<Slot>, n: nat)
    requires |idx| == 4 && n == NumberOf(idx)
    ensures IdxOf(n * FRAME) == idx && Mmu(s, n * FRAME) == Deref(s, idx)
  {
    NumberBound(idx);
    NumberPage(idx, 0);
    NumberOfAddress(n);
  }

  /** An address of q that leads to a frame which is no table of q leads there whatever that frame contains. */
  lemma {:induction false} ForeignStable(s: Sys, q: nat, va: nat, f: nat)
    requires s.cr3 == q && !TableOf(s.mem, q, f) && Ordinary(IdxOf(va)) && Mmu(s, va) == Some(f)
    ensures Stable(s, va, f)
  {
    forall n: Memory | SameBut(s.mem, n, f) ensures Mmu(s.(mem := n), va) == Some(f) {
      ForeignWrite(s.mem, n, q, f);
    }
  }

  // ----- the page kept for a root

  /** `Keep` in s ends in t; page is the number of the page, if one was found. */
  ghost predicate KeptAs(s: Sys, t: Sys, a: nat, f: nat, page: Option<nat>, r: Result<()>)
    requires s.pool.Shaped()
  {
    var (u, found, e) := Keep(s, a, f);
    t == u && r == e && page == match found case None => None case Some(idx) => Some(NumberOf(idx))
  }

  lemma {:induction false} KeepStarts(s: Sys, t: Sys, a: nat, n: nat)
    requires SpaceOk(s, a) && IsPresent(Entry(s.mem, a, SELF)) && FoundIs(s, t, a, 1, Some(n))
    ensures Inv(t.pool) && Addressable(t, a, IdxOf(n * FRAME))
    ensures FindEmptyPages(s, a, 1) == (t, Some(IdxOf(n * FRAME))) && NumberOf(IdxOf(n * FRAME)) == n
  {
    FindEmptyCorrect(s, a, 1);
    var page := FindEmptyPages(s, a, 1).1.value;
    PageDeref(t, page, n);
    FoundMappable(t, a, FirstFree(Tab(s.mem, a), 1), page);
  }

  lemma {:induction false} FoundMappable(t: Sys, a: nat, i: Slot, page: seq<Slot>)
    requires RunBelow(t, a, [i, 1, 1]) && page == [i, 1, 1, 1]
    ensures Mappable(t, a, page) && Addressable(t, a, page)
  {
    OrdinaryIs(page);
    var path: seq<Slot> := [i, 1, 1];
    RunPage(t, a, path, 1);
    assert path + [1] == page;
  }

  lemma {:induction false} KeepEnds(s: Sys, s1: Sys, t: Sys, a: nat, f: nat, n: nat, idx: seq<Slot>, r: Result<()>)
    requires s.pool.Shaped() && s1.pool.Shaped() && |idx| == 4 && FindEmptyPages(s, a, 1) == (s1, Some(idx))
             && NumberOf(idx) == n
    requires (t, r) == Map(s1, a, idx, f)
    ensures KeptAs(s, t, a, f, Some(n), r)
  {
  }

  lemma {:induction false} KeepMisses(s: Sys, t: Sys, a: nat, f: nat)
    requires s.pool.Shaped() && FoundIs(s, t, a, 1, None)
    ensures KeptAs(s, t, a, f, None, Err(NoEntry))
  {
  }

  // ----- a new address space

  lemma {:induction false} TakenActive(s: Sys, t: Sys, a: nat, f: nat)
    requires SpaceOk(s, a) && s.cr3 == a && SelfLinked(s.mem, a) && AllocOne(s) == (t, Some(f))
    ensures SpaceOk(t, a) && Window(t.mem, t.cr3, a) && !FrameFree(t, t.cr3) && f < MAX_FRAME
  {
    AllocOneCorrect(s);
    AllocKeepsSpace(s, t, a, f);
    RootInSpace(t, a);
  }

  lemma {:induction false} NewStarved(s: Sys, t: Sys, a: nat)
    requires s.pool.Shaped() && AllocOne(s) == (t, None)
    ensures NewInactive(s, a) == (t, Done(None))
  {
  }

  /** How `InActivePageTable::new` goes on after the page for frame f was looked for. */
  lemma {:induction false} NewKept(s: Sys, s1: Sys, s2: Sys, a: nat, f: nat, page: Option<nat>, r: Result<()>)
    returns (i: Slot, idx: seq<Slot>)
    requires SpaceOk(s, a) && s.cr3 == a && SelfLinked(s.mem, a) && AllocOne(s) == (s1, Some(f))
             && KeptAs(s1, s2, a, f, page, r)
    ensures match page
            case None => NewInactive(s, a).1 == Panicked
            case Some(n) =>
              && r == Ok(()) && idx == [i, 1, 1, 1] && n == NumberOf(idx) && KeptFor(s, s1, s2, a, f, i)
              && NewInactive(s, a) == Prepare(s2, idx, f)
  {
    NewTakes(s, a);
    i, idx := 0, [];
    if page.Some? {
      i := FirstFree(Tab(s.mem, a), 1);
      idx := Keep(s1, a, f).1.value;
      NewPrepares(s, s1, s2, a, f, idx);
    }
  }

  /** Unless it faults, the page kept for a new root leads to it, whatever it contains. */
  lemma {:induction false} NewReached(s: Sys, s1: Sys, s2: Sys, a: nat, f: nat, i: Slot, page: seq<Slot>, n: nat)
    requires KeptFor(s, s1, s2, a, f, i) && page == [i, 1, 1, 1] && n == NumberOf(page) && Mmu(s2, n * FRAME).Some?
    ensures f < MAX_FRAME && Stable(s2, n * FRAME, f)
  {
    PageDeref(s2, page, n);
    KeptFrame(s, s1, s2, a, f, i, page);
    ForeignStable(s2, a, n * FRAME, f);
  }

  lemma {:induction false} KeptFrame(s: Sys, s1: Sys, s2: Sys, a: nat, f: nat, i: Slot, page: seq<Slot>)
    requires KeptFor(s, s1, s2, a, f, i) && page == [i, 1, 1, 1]
    ensures Ordinary(page) && Lookup(s2.mem, a, page) == Some(f) && f < MAX_FRAME && !TableOf(s2.mem, a, f)
            && s2.cr3 == a
  {
    AllocOneCorrect(s);
    FirstPage(i, page);
    NewNoTable(s, s1, s2, a, f);
  }

  lemma {:induction false} PrepareIs(s: Sys, idx: seq<Slot>, f: nat)
    requires s.pool.Shaped() && |idx| == 4
    ensures Deref(s, idx).None? ==> Prepare(s, idx, f).1 == Panicked
    ensures Deref(s, idx) == Some(f) ==>
              Prepare(s, idx, f) == (s.(mem := Write(Clear(s.mem, f), f, SELF, Writable(Link(0, f)))), Done(Some(f)))
  {
  }

  // ----- with

  /** The part of `with` before the closure, in s, ends in t; r is the number of the page kept. */
  ghost predicate OverriddenAs(s: Sys, t: Sys, a: nat, q: nat, r: Result<nat>)
    requires s.pool.Shaped()
  {
    var (u, kept) := Override(s, a, q);
    t == u && r == match kept case Err(e) => Err(e) case Ok(idx) => Ok(NumberOf(idx))
  }

  lemma {:induction false} OverrideFails(s: Sys, t: Sys, a: nat, q: nat, page: Option<nat>, r: Result<()>)
    requires s.pool.Shaped() && KeptAs(s, t, a, s.cr3, page, r)
    ensures page.None? ==> OverriddenAs(s, t, a, q, Err(NoEntry))
    ensures page.Some? && r.Err? ==> OverriddenAs(s, t, a, q, Err(r.error))
  {
  }

  lemma {:induction false} OverrideEnds(s: Sys, s1: Sys, a: nat, q: nat, n: nat)
    requires s.pool.Shaped() && KeptAs(s, s1, a, s.cr3, Some(n), Ok(()))
    ensures OverriddenAs(s, s1.(mem := Redirect(s1.mem, a, q)), a, q, Ok(n))
  {
  }

  /** The active root is reached at its fixed address, and its self slot has room for flags. */
  lemma {:induction false} RootReached(s: Sys, a: nat)
    requires SpaceOk(s, a) && Window(s.mem, s.cr3, a) && s.cr3 == a
    ensures Mmu(s, LEVEL4_TABLE) == Some(a) && Entry(s.mem, a, SELF) < NO_EXECUTE - WRITABLE
  {
    var root: seq<Slot> := [];
    RootAddress(root);
    assert Node(s.mem, a, root) && At(s.mem, a, root) == a;
    TableAddressResolves(s, a, root);
    assert WordOk(Entry(s.mem, At(s.mem, a, root), SELF));
  }

  lemma {:induction false} WithBegins(s: Sys, s1: Sys, a: nat, q: nat, l: seq<Mapping>, r: Result<nat>)
    returns (idx: seq<Slot>)
    requires ReadyFor(s, a, q) && Pages(l) && Acceptable(s, q, l) && OverriddenAs(s, s1, a, q, r)
    ensures match r
            case Err(e) => With(s, a, q, l) == (s1, Failed(e))
            case Ok(n) =>
              && Override(s, a, q) == (s1, Ok(idx)) && |idx| == 4 && n == NumberOf(idx) && Overridden(s, s1, a, q, idx)
              && SpaceOk(s1, q) && Window(s1.mem, s1.cr3, q) && !FrameFree(s1, s1.cr3) && Acceptable(s1, q, l)
  {
    OverrideCorrect(s, a, q);
    idx := [];
    if r.Ok? {
      idx := Override(s, a, q).1.value;
      AcceptableKept(s, s1, q, l);
      RootInSpace(s1, a);
    }
  }

  lemma {:induction false} WithEnds(s: Sys, s1: Sys, u: Sys, a: nat, q: nat, l: seq<Mapping>, idx: seq<Slot>,
                                    r: Result<()>)
    requires ReadyFor(s, a, q) && Override(s, a, q) == (s1, Ok(idx)) && |idx| == 4 && Overridden(s, s1, a, q, idx)
    requires Pages(l) && Acceptable(s1, q, l) && MapAll(s1, q, l) == (u, r)
    ensures u.cr3 == a && (Deref(u, idx).Some? ==>
            Deref(u, idx) == Some(a) && Entry(u.mem, a, SELF) < NO_EXECUTE - WRITABLE)
    ensures With(s, a, q, l) == WithRestored(u, idx, r)
  {
    var k := ClosureIsolated(s, s1, a, q, idx, l);
    RootWord(u, a);
    WithUnfolds(s, s1, u, a, q, l, idx, r);
  }

  lemma {:induction false} RootWord(s: Sys, a: nat)
    requires SpaceOk(s, a)
    ensures Entry(s.mem, a, SELF) < NO_EXECUTE - WRITABLE
  {
    assert Follow(s.mem, a, []) == Some(a) && Node(s.mem, a, []) && At(s.mem, a, []) == a;
    assert WordOk(Entry(s.mem, At(s.mem, a, []), SELF));
  }

  /** The end of `with` after a closure that ended in u with r. */
  function WithRestored(u: Sys, idx: seq<Slot>, r: Result<()>): (Sys, Outcome<()>)
    requires u.pool.Shaped() && |idx| == 4
  {
    match Restore(u, idx)
    case None => (u, Panicked)
    case Some(t) => (t, match r case Ok(_) => Done(()) case Err(e) => Failed(e))
  }

  lemma {:induction false} WithUnfolds(s: Sys, s1: Sys, u: Sys, a: nat, q: nat, l: seq<Mapping>, idx: seq<Slot>,
                                       r: Result<()>)
    requires s.pool.Shaped() && s1.pool.Shaped() && Override(s, a, q) == (s1, Ok(idx)) && |idx| == 4
    requires Next(s1.mem, s1.cr3, SELF) == Some(q) && Pages(l) && MapAll(s1, q, l) == (u, r)
    ensures With(s, a, q, l) == WithRestored(u, idx, r)
  {
  }

  // ----- lists of mappings in parts

  lemma {:induction false} MapAllAppend(s: Sys, q: nat, a: seq<Mapping>, b: seq<Mapping>)
    requires s.pool.Shaped() && Pages(a) && Pages(b)
    ensures MapAll(s, q, Joined(a, b)) ==
            var (t, r) := MapAll(s, q, a);
            if r.Err? then (t, r) else MapAll(t, q, b)
    decreases a
  {
    if a == [] {
      assert Joined(a, b) == b;
    } else {
      assert Joined(a, b)[0] == a[0] && Joined(a, b)[1..] == Joined(a[1..], b);
      var (s1, r) := Map(s, q, a[0].page, a[0].frame);
      if r.Ok? {
        MapAllAppend(s1, q, a[1..], b);
      }
    }
  }

  lemma {:induction false} AcceptableParts(s: Sys, q: nat, a: seq<Mapping>, b: seq<Mapping>)
    requires Pages(a) && Pages(b) && Acceptable(s, q, Joined(a, b))
    ensures Acceptable(s, q, a) && Acceptable(s, q, b)
  {
    var l := Joined(a, b);
    forall j | 0 <= j < |a| ensures Addressable(s, q, a[j].page) && a[j].frame < MAX_FRAME {
      assert Addressable(s, q, l[j].page) && l[j] == a[j];
    }
    forall j | 0 <= j < |b| ensures Addressable(s, q, b[j].page) && b[j].frame < MAX_FRAME {
      assert Addressable(s, q, l[|a| + j].page) && l[|a| + j] == b[j];
    }
  }

  /** The mappings of one request. */
  function RequestPages(r: Request): (l: seq<Mapping>)
    ensures Pages(l)
  {
    Range(OFFSET_PAGES + r.frame, r.frame, r.count)
  }

  lemma {:induction false} WantedSnoc(rs: seq<Request>, r: Request)
    ensures Wanted(rs + [r]) == Joined(Wanted(rs), RequestPages(r))
    decreases rs
  {
    if rs == [] {
      assert (rs + [r])[1..] == [];
      assert Joined(RequestPages(r), []) == Joined([], RequestPages(r));
    } else {
      assert (rs + [r])[1..] == rs[1..] + [r];
      WantedSnoc(rs[1..], r);
      var a := RequestPages(rs[0]);
      assert Joined(a, Joined(Wanted(rs[1..]), RequestPages(r))) == Joined(Joined(a, Wanted(rs[1..])), RequestPages(r));
    }
  }

  /** How many frames the first i requests ask for. */
  function Before(rs: seq<Request>, i: nat): nat
    requires i <= |rs|
  {
    if i == 0 then 0 else rs[0].count + Before(rs[1..], i - 1)
  }

  /** The wanted frames come in the order of the requests, and frame by frame within each. */
  lemma {:induction false} WantedInOrder(rs: seq<Request>, i: nat, j: nat)
    requires i < |rs| && j < rs[i].count
    ensures Before(rs, i) + j < |Wanted(rs)|
    ensures Wanted(rs)[Before(rs, i) + j] == Range(OFFSET_PAGES + rs[i].frame, rs[i].frame, rs[i].count)[j]
    decreases rs
  {
    assert |Wanted(rs)| == rs[0].count + |Wanted(rs[1..])|;
    if 0 < i {
      WantedInOrder(rs[1..], i - 1, j);
      var k := rs[0].count + (Before(rs[1..], i - 1) + j);
      assert Before(rs, i) + j == k && rs[1..][i - 1] == rs[i];
      WantedItem(rs, k);
    } else {
      WantedItem(rs, j);
    }
  }

  lemma {:induction false} WantedLength(rs: seq<Request>)
    ensures |Wanted(rs)| == Before(rs, |rs|)
    decreases rs
  {
    if rs != [] {
      WantedLength(rs[1..]);
    }
  }

  lemma {:induction false} OffsetPage(frame: nat)
    ensures (frame * FRAME + KERNEL_OFFSET) / FRAME == OFFSET_PAGES + frame
  {
  }

  /** One request of several. */
  lemma {:induction false} RequestFirst(s: Sys, q: nat, rs: seq<Request>)
    requires s.pool.Shaped() && rs != []
    ensures MapAll(s, q, Wanted(rs)) ==
            var (t, r) := MapAll(s, q, RequestPages(rs[0]));
            if r.Err? then (t, r) else MapAll(t, q, Wanted(rs[1..]))
    ensures Acceptable(s, q, Wanted(rs)) ==> Acceptable(s, q, RequestPages(rs[0])) && Acceptable(s, q, Wanted(rs[1..]))
  {
    MapAllAppend(s, q, RequestPages(rs[0]), Wanted(rs[1..]));
    if Acceptable(s, q, Wanted(rs)) {
      AcceptableParts(s, q, RequestPages(rs[0]), Wanted(rs[1..]));
    }
  }
}
