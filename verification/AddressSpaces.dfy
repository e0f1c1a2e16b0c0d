/**
 Several address spaces at once: building a new one, editing it through the
 active one's recursive slot, and switching to it.
 */
module AddressSpaces {
  import opened Frames
  import opened Wrappers
  import opened Bits
  import opened BuddySystem
  import opened BuddyCorrect
  import opened PageTables
  import opened PageLink
  import opened PageMap
  import opened PageScan
  import opened PageOps
  import opened PageUnmap

  // ----- operations

  /** The frame reached through the address of page number `NumberOf(idx)`: non-canonical addresses fault. */
  function Deref(s: Sys, idx: seq<Slot>): Option<nat>
    requires |idx| == 4
  {
    if idx[0] < 256 then Lookup(s.mem, s.cr3, idx) else None
  }

  /** `set_frame_addr` and `set_flags(WRITABLE)` on the self slot of table t. */
  function Redirect(m: Memory, t: nat, f: nat): Memory {
    Write(m, t, SELF, Writable(Link(Entry(m, t, SELF), f)))
  }

  /** `find_empty_page` followed by `map` of a frame at the page found. */
  ghost function Keep(s: Sys, a: nat, f: nat): (r: (Sys, Option<seq<Slot>>, Result<()>))
    requires s.pool.Shaped()
    ensures r.0.pool.Shaped() && (r.1.Some? ==> |r.1.value| == 4)
  {
    var (s1, found) := FindEmptyPages(s, a, 1);
    match found
    case None => (s1, None, Err(NoEntry))
    case Some(page) => var (s2, r) := Map(s1, a, page, f); (s2, found, r)
  }

  /** `InActivePageTable::new` in the active address space a. */
  ghost function NewInactive(s: Sys, a: nat): (r: (Sys, Outcome<Option<nat>>))
    requires s.pool.Shaped()
    ensures r.0.pool.Shaped()
  {
    var (s1, got) := AllocOne(s);
    match got
    case None => (s1, Done(None))
    case Some(f) =>
      var (s2, found, r) := Keep(s1, a, f);
      if found.None? || r.Err? then (s2, Panicked) else Prepare(s2, found.value, f)
  }

  /** Clear the new root through the page and give it its self slot. */
  function Prepare(s: Sys, page: seq<Slot>, f: nat): (r: (Sys, Outcome<Option<nat>>))
    requires s.pool.Shaped() && |page| == 4
    ensures r.0.pool.Shaped()
  {
    match Deref(s, page)
    case None => (s, Panicked)
    case Some(g) => (s.(mem := Redirect(Clear(s.mem, g), g, f)), Done(Some(f)))
  }

  /** The part of `with` before the closure: keep a way back to the active root, then redirect its self slot. */
  ghost function Override(s: Sys, a: nat, q: nat): (r: (Sys, Result<seq<Slot>>))
    requires s.pool.Shaped()
    ensures r.0.pool.Shaped() && (r.1.Ok? ==> |r.1.value| == 4)
  {
    var (s1, found, r) := Keep(s, a, s.cr3);
    if found.None? then (s1, Err(NoEntry))
    else if r.Err? then (s1, Err(r.error))
    else (s1.(mem := Redirect(s1.mem, a, q)), Ok(found.value))
  }

  /** The part of `with` after the closure, through the page kept for it. */
  function Restore(s: Sys, page: seq<Slot>): (r: Option<Sys>)
    requires s.pool.Shaped() && |page| == 4
    ensures r.Some? ==> r.value.pool.Shaped()
  {
    match Deref(s, page)
    case None => None
    case Some(g) => Some(s.(mem := Redirect(s.mem, g, s.cr3)))
  }

  /** `with`, for a closure that runs the mappings of l in turn in whatever address space the
      recursive slot of the root then selects. */
  ghost function With(s: Sys, a: nat, q: nat, l: seq<Mapping>): (r: (Sys, Outcome<()>))
    requires s.pool.Shaped() && Pages(l)
    ensures r.0.pool.Shaped()
  {
    var (s1, kept) := Override(s, a, q);
    match kept
    case Err(e) => (s1, Failed(e))
    case Ok(page) =>
      match Next(s1.mem, s1.cr3, SELF)
      case None => (s1, Panicked)
      case Some(window) =>
        var (s2, result) := MapAll(s1, window, l);
        match Restore(s2, page)
        case None => (s2, Panicked)
        case Some(s3) => (s3, match result case Ok(_) => Done(()) case Err(e) => Failed(e))
  }

  function Switch(s: Sys, q: nat): Sys {
    s.(cr3 := q)
  }

  // ----- two address spaces side by side

  /** No table belongs to both. */
  ghost predicate Apart(m: Memory, a: nat, q: nat) {
    forall r: seq<Slot>, u: seq<Slot> :: Node(m, a, r) && Node(m, q, u) ==> At(m, a, r) != At(m, q, u)
  }

  ghost predicate Both(s: Sys, a: nat, q: nat) {
    SpaceOk(s, a) && SpaceOk(s, q) && Apart(s.mem, a, q) && Apart(s.mem, q, a)
  }

  /** f is the table behind its own self slot. */
  predicate SelfLinked(m: Memory, f: nat) {
    Next(m, f, SELF) == Some(f)
  }

  /** Editing q leaves the tables of a alone. */
  lemma {:induction false} EditLeavesOther(s: Sys, t: Sys, q: nat, a: nat)
    requires Both(s, a, q) && SpaceOk(t, q) && Grows(s, t, q)
    ensures Both(t, a, q) && SameSpace(s.mem, t.mem, a)
    ensures forall f: nat :: TableOf(s.mem, a, f) ==> Tab(t.mem, f) == Tab(s.mem, f)
  {
    forall f: nat | TableOf(s.mem, a, f)
      ensures Tab(t.mem, f) == Tab(s.mem, f) && !FrameFree(t, f) && !TableOf(t.mem, q, f)
    {
      OtherTable(s, t, q, a, f);
    }
    forall r: seq<Slot> | Node(s.mem, a, r) ensures TableOf(s.mem, a, At(s.mem, a, r)) {
    }
    TablesKept(s.mem, t.mem, a);
    assert forall r: seq<Slot> :: Node(t.mem, a, r) ==> Node(s.mem, a, r) && At(t.mem, a, r) == At(s.mem, a, r);
    SpaceKept(s, t, a);
  }

  lemma {:induction false} OtherTable(s: Sys, t: Sys, q: nat, a: nat, f: nat)
    requires Both(s, a, q) && SpaceOk(t, q) && Grows(s, t, q) && TableOf(s.mem, a, f)
    ensures Tab(t.mem, f) == Tab(s.mem, f) && !FrameFree(t, f) && !TableOf(t.mem, q, f)
  {
    var r: seq<Slot> :| Node(s.mem, a, r) && At(s.mem, a, r) == f;
    assert !FrameFree(s, f) && !TableOf(s.mem, q, f);
  }

  lemma {:induction false} SpaceKept(s: Sys, t: Sys, a: nat)
    requires SpaceOk(s, a) && PoolOk(t) && SameSpace(s.mem, t.mem, a)
    requires forall f: nat :: TableOf(s.mem, a, f) ==>
             (forall i: Slot :: WordOk(Entry(t.mem, f, i))) && !FrameFree(t, f)
    ensures SpaceOk(t, a)
  {
    forall r: seq<Slot> | Node(t.mem, a, r)
      ensures Node(s.mem, a, r) && At(t.mem, a, r) == At(s.mem, a, r) && TableOf(s.mem, a, At(t.mem, a, r))
    {
    }
  }

  // ----- redirecting a self slot

  lemma {:induction false} RedirectWord(w: nat, f: nat)
    requires WordOk(w) && IsPresent(w) && !IsHuge(w) && f < MAX_FRAME
    ensures var v := Writable(Link(w, f)); WordOk(v) && IsPresent(v) && !IsHuge(v) && FrameOf(v) == f
  {
    var b := w % 512;
    FlagBits(w / 512, b);
    assert w == w / 512 * 512 + b;
    var c := if b / 2 % 2 == 1 then b else b + 2;
    FlagBits(8 * f, b);
    assert Writable(Link(w, f)) == f * FRAME + c;
    SecondBit(b);
    FlagBits(8 * f, c);
    LowFlags(f, c);
  }

  lemma {:induction false} FlagBits(h: nat, b: nat)
    requires b < 512
    ensures var w := h * 512 + b; w % 2 == b % 2 && w / 2 % 2 == b / 2 % 2 && w / 128 % 2 == b / 128 % 2
  {
    EvenPlus(256 * h, b);
    assert (h * 512 + b) / 2 == 256 * h + b / 2;
    EvenPlus(128 * h, b / 2);
    assert (h * 512 + b) / 128 == 4 * h + b / 128;
    EvenPlus(2 * h, b / 128);
  }

  lemma {:induction false} SecondBit(b: nat)
    requires b < 512 && b % 2 == 1 && b / 128 % 2 == 0
    ensures b / 2 % 2 == 0 ==> b + 2 < 512 && (b + 2) % 2 == 1 && (b + 2) / 128 % 2 == 0
  {
    if b / 2 % 2 == 0 {
      var q := b / 4;
      assert b == 4 * q + 1;
      assert (b + 2) / 128 == q / 32 == b / 128;
    }
  }

  lemma {:induction false} LowFlags(f: nat, b: nat)
    requires f < MAX_FRAME && b < 512
    ensures var w := f * FRAME + b; w < MAX_FRAME * FRAME && FrameOf(w) == f
  {
    var w := f * FRAME + b;
    assert w / FRAME == f;
  }

  /** Redirecting the self slot of a's root changes no ordinary page of either space. */
  lemma {:induction false} RedirectKeeps(s: Sys, a: nat, q: nat, f: nat)
    requires Both(s, a, q) && f < MAX_FRAME && Next(s.mem, a, SELF).Some?
    ensures var t := s.(mem := Redirect(s.mem, a, f));
            && Both(t, a, q) && SameSpace(s.mem, t.mem, a) && SameSpace(s.mem, t.mem, q)
            && Next(t.mem, a, SELF) == Some(f)
            && (forall g: nat :: g != a ==> Tab(t.mem, g) == Tab(s.mem, g))
  {
    var t := s.(mem := Redirect(s.mem, a, f));
    assert Follow(s.mem, a, []) == Some(a) && Node(s.mem, a, []) && At(s.mem, a, []) == a;
    RedirectWord(Entry(s.mem, a, SELF), f);
    assert forall g: nat, j: Slot :: j != SELF || g != a ==> Entry(t.mem, g, j) == Entry(s.mem, g, j);
    RedirectSpace(s, t, a, a);
    RedirectSpace(s, t, a, q);
    ApartKept(s.mem, t.mem, a, q);
    ApartKept(s.mem, t.mem, q, a);
  }

  lemma {:induction false} ApartKept(m: Memory, n: Memory, a: nat, q: nat)
    requires Apart(m, a, q) && SameSpace(m, n, a) && SameSpace(m, n, q)
    ensures Apart(n, a, q)
  {
    forall r: seq<Slot>, u: seq<Slot> | Node(n, a, r) && Node(n, q, u) ensures At(n, a, r) != At(n, q, u) {
      assert Node(m, a, r) && Node(m, q, u);
    }
  }

  lemma {:induction false} RedirectSpace(s: Sys, t: Sys, a: nat, q: nat)
    requires SpaceOk(s, q) && t == s.(mem := t.mem)
    requires forall g: nat, j: Slot :: j != SELF || g != a ==> Entry(t.mem, g, j) == Entry(s.mem, g, j)
    requires WordOk(Entry(t.mem, a, SELF))
    ensures SpaceOk(t, q) && SameSpace(s.mem, t.mem, q)
  {
    TablesKept(s.mem, t.mem, q);
    forall f: nat | TableOf(s.mem, q, f) ensures (forall i: Slot :: WordOk(Entry(t.mem, f, i))) && !FrameFree(t, f) {
      var r: seq<Slot> :| Node(s.mem, q, r) && At(s.mem, q, r) == f;
      assert !FrameFree(s, f);
      forall i: Slot ensures WordOk(Entry(t.mem, f, i)) {
        assert WordOk(Entry(s.mem, At(s.mem, q, r), i));
      }
    }
    SpaceKept(s, t, q);
  }

  // ----- the page `with` and `new` keep for themselves

  /** The free frames a failed search for one page leaves: none, if it could start at root slot i. */
  function NothingFound(s: Sys, i: nat): int
    requires s.pool.Shaped()
  {
    if i < SELF then 0 else CountFree(s.pool)
  }

  /** It takes three frames and succeeds exactly when they and a free root slot are there. */
  lemma {:induction false} KeepCorrect(s: Sys, a: nat, f: nat)
    requires SpaceOk(s, a) && SelfLinked(s.mem, a) && f < MAX_FRAME
    ensures var (t, found, r) := Keep(s, a, f); var i := FirstFree(Tab(s.mem, a), 1);
            && SpaceOk(t, a) && Grows(s, t, a)
            && (found.Some? <==> i < SELF && 3 <= CountFree(s.pool))
            && (found.None? ==> SamePages(s.mem, t.mem, a) && CountFree(t.pool) == NothingFound(s, i))
            && (found.Some? ==>
                  && r == Ok(()) && found.value == [i, 1, 1, 1] && CountFree(t.pool) == CountFree(s.pool) - 3
                  && forall page: seq<Slot> :: |page| == 4 && Ordinary(page) ==>
                       Lookup(t.mem, a, page) == if page == [i, 1, 1, 1] then Some(f) else Lookup(s.mem, a, page))
  {
    FindEmptyCorrect(s, a, 1);
    var (s1, found) := FindEmptyPages(s, a, 1);
    if found.Some? {
      var i: Slot := FirstFree(Tab(s.mem, a), 1);
      KeepMaps(s1, a, i, f);
      GrowsTrans(s, s1, Map(s1, a, [i, 1, 1, 1], f).0, a);
    }
  }

  lemma {:induction false} KeepMaps(s: Sys, a: nat, i: Slot, f: nat)
    requires SpaceOk(s, a) && RunBelow(s, a, [i, 1, 1]) && i != SELF && f < MAX_FRAME
    ensures var (t, r) := Map(s, a, [i, 1, 1, 1], f);
            && r == Ok(()) && SpaceOk(t, a) && Grows(s, t, a) && CountFree(t.pool) == CountFree(s.pool)
            && forall page: seq<Slot> :: |page| == 4 && Ordinary(page) ==>
                 Lookup(t.mem, a, page) == if page == [i, 1, 1, 1] then Some(f) else Lookup(s.mem, a, page)
  {
    var path: seq<Slot> := [i, 1, 1];
    var page: seq<Slot> := [i, 1, 1, 1];
    assert page == path + [1] && page[..3] == path;
    RunPage(s, a, path, 1);
    LookupAppend(s.mem, a, path, At(s.mem, a, path), [1]);
    NoneFree(s.pool);
    MapCorrect(s, a, page, f);
  }

  // ----- a new address space

  /** The state after `InActivePageTable::new` made q: an empty address space beside a, which only gained the
      page through which q was prepared. */
  ghost predicate Prepared(s: Sys, t: Sys, a: nat, q: nat)
    requires Inv(s.pool)
  {
    && Both(t, a, q) && t.cr3 == s.cr3 && t.base == s.base && t.pool.Size() == s.pool.Size()
    && SelfLinked(t.mem, a) && SelfLinked(t.mem, q) && q < MAX_FRAME
    && IsFresh(Tab(t.mem, q), q)
    && FrameFree(s, q)
    && CountFree(t.pool) == CountFree(s.pool) - 4
    && forall page: seq<Slot> :: |page| == 4 && Ordinary(page) ==>
         Lookup(t.mem, a, page) ==
         if page == [FirstFree(Tab(s.mem, a), 1), 1, 1, 1] then Some(q) else Lookup(s.mem, a, page)
  }

  ghost predicate NewOutcome(s: Sys, t: Sys, a: nat, r: Outcome<Option<nat>>)
    requires Inv(s.pool)
  {
    var i := FirstFree(Tab(s.mem, a), 1);
    && (r == Done(None) <==> CountFree(s.pool) == 0) && (r == Done(None) ==> t == s)
    && ((r.Done? && r.value.Some?) <==> 4 <= CountFree(s.pool) && i < 256)
    && (r.Panicked? <==> 0 < CountFree(s.pool) && !(4 <= CountFree(s.pool) && i < 256))
    && (r.Done? && r.value.Some? ==> Prepared(s, t, a, r.value.value))
  }

  /** `InActivePageTable::new`: no frame at all is reported; with a root slot below 256 free and four frames it
      succeeds; otherwise it panics. */
  lemma {:induction false} NewInactiveCorrect(s: Sys, a: nat)
    requires SpaceOk(s, a) && s.cr3 == a && SelfLinked(s.mem, a)
    ensures NewOutcome(s, NewInactive(s, a).0, a, NewInactive(s, a).1)
  {
    NewTakes(s, a);
    var (s1, got) := AllocOne(s);
    if got.Some? {
      var (s2, found, r) := Keep(s1, a, got.value);
      if found.Some? {
        NewPrepares(s, s1, s2, a, got.value, found.value);
        PrepareCorrect(s, s1, s2, a, got.value, FirstFree(Tab(s.mem, a), 1), found.value);
      }
    }
  }

  lemma {:induction false} NewPrepares(s: Sys, s1: Sys, s2: Sys, a: nat, f: nat, page: seq<Slot>)
    requires s.pool.Shaped() && AllocOne(s) == (s1, Some(f)) && |page| == 4
             && Keep(s1, a, f) == (s2, Some(page), Ok(()))
    ensures NewInactive(s, a) == Prepare(s2, page, f)
  {
  }

  /** The allocations made by `InActivePageTable::new`. */
  lemma {:induction false} NewTakes(s: Sys, a: nat)
    requires SpaceOk(s, a) && s.cr3 == a && SelfLinked(s.mem, a)
    ensures var (s1, got) := AllocOne(s); var i := FirstFree(Tab(s.mem, a), 1);
            && (got.None? <==> CountFree(s.pool) == 0)
            && CountFree(s.pool) >= 0
            && match got case None => true case Some(f) =>
                 var (s2, found, r) := Keep(s1, a, f);
                 && (found.Some? <==> i < SELF && 4 <= CountFree(s.pool))
                 && (found.Some? ==> r == Ok(()) && found.value == [i, 1, 1, 1] && KeptFor(s, s1, s2, a, f, i))
  {
    AllocOneCorrect(s);
    NoneFree(s.pool);
    var (s1, got) := AllocOne(s);
    if got.Some? {
      AllocKeepsSpace(s, s1, a, got.value);
      KeepCorrect(s1, a, got.value);
    }
  }

  /** What `Keep` leaves behind for the frame f that AllocOne took: s, s1, s2 in turn. */
  ghost predicate KeptFor(s: Sys, s1: Sys, s2: Sys, a: nat, f: nat, i: Slot) {
    && SpaceOk(s, a) && s.cr3 == a && SelfLinked(s.mem, a) && AllocOne(s) == (s1, Some(f)) && SpaceOk(s1, a)
    && SpaceOk(s2, a) && Grows(s1, s2, a) && i == FirstFree(Tab(s.mem, a), 1) && i != SELF
    && CountFree(s2.pool) == CountFree(s1.pool) - 3
    && forall page: seq<Slot> :: |page| == 4 && Ordinary(page) ==>
         Lookup(s2.mem, a, page) == if page == [i, 1, 1, 1] then Some(f) else Lookup(s1.mem, a, page)
  }

  lemma {:induction false} FirstPage(i: Slot, page: seq<Slot>)
    requires page == [i, 1, 1, 1] && i != SELF
    ensures Ordinary(page) && |page| == 4 && page[0] == i
  {
  }

  lemma {:induction false} PrepareCorrect(s: Sys, s1: Sys, s2: Sys, a: nat, f: nat, i: Slot, page: seq<Slot>)
    requires KeptFor(s, s1, s2, a, f, i) && page == [i, 1, 1, 1]
    ensures var (t, r) := Prepare(s2, page, f);
            if i < 256 then r == Done(Some(f)) && Prepared(s, t, a, f) else r == Panicked
  {
    FirstPage(i, page);
    if i < 256 {
      assert Deref(s2, page) == Some(f);
      PreparedAt(s, s1, s2, a, f, i);
    }
  }

  lemma {:induction false} PreparedAt(s: Sys, s1: Sys, s2: Sys, a: nat, f: nat, i: Slot)
    requires KeptFor(s, s1, s2, a, f, i)
    ensures Prepared(s, s2.(mem := Redirect(Clear(s2.mem, f), f, f)), a, f)
  {
    AllocOneCorrect(s);
    RootSelf(s1, s2, a);
    RootPrepared(s, s1, s2, a, f);
  }

  lemma {:induction false} RootPrepared(s: Sys, s1: Sys, s2: Sys, a: nat, f: nat)
    requires SpaceOk(s, a) && SelfLinked(s.mem, a) && AllocOne(s) == (s1, Some(f)) && SpaceOk(s1, a)
    requires SpaceOk(s2, a) && Grows(s1, s2, a) && SelfLinked(s2.mem, a)
    ensures var t := s2.(mem := Redirect(Clear(s2.mem, f), f, f));
            && Both(t, a, f) && SamePages(s2.mem, t.mem, a) && IsFresh(Tab(t.mem, f), f)
            && SelfLinked(t.mem, a) && SelfLinked(t.mem, f)
  {
    AllocOneCorrect(s);
    var t := s2.(mem := Redirect(Clear(s2.mem, f), f, f));
    NewNoTable(s, s1, s2, a, f);
    RedirectCleared(s2.mem, f);
    ForeignKeeps(s2, t, a, f);
    FreshSpace(t, f);
    ForeignApart(s2, t, a, f);
  }

  lemma {:induction false} RedirectCleared(m: Memory, f: nat)
    ensures var n := Redirect(Clear(m, f), f, f);
            && IsFresh(Tab(n, f), f)
            && forall g: nat :: g != f ==> Tab(n, g) == Tab(m, g)
  {
  }

  lemma {:induction false} NewNoTable(s: Sys, s1: Sys, s2: Sys, a: nat, f: nat)
    requires SpaceOk(s, a) && SpaceOk(s1, a) && SpaceOk(s2, a) && Grows(s1, s2, a)
    requires s1 == s.(pool := s1.pool) && FrameFree(s, f) && !FrameFree(s1, f)
    ensures !TableOf(s2.mem, a, f) && !FrameFree(s2, f) && f != a
  {
    assert !TableOf(s1.mem, a, f);
    assert Follow(s2.mem, a, []) == Some(a) && Node(s2.mem, a, []) && At(s2.mem, a, []) == a;
    assert TableOf(s2.mem, a, a);
  }

  lemma {:induction false} ForeignApart(s: Sys, t: Sys, a: nat, f: nat)
    requires SpaceOk(t, f) && !TableOf(s.mem, a, f)
    requires forall r: seq<Slot> :: Node(t.mem, a, r) ==> Node(s.mem, a, r) && At(t.mem, a, r) == At(s.mem, a, r)
    requires forall u: seq<Slot> :: Node(t.mem, f, u) ==> u == []
    ensures Apart(t.mem, a, f) && Apart(t.mem, f, a)
  {
    forall r: seq<Slot> | Node(t.mem, a, r) ensures At(t.mem, a, r) != f {
      assert Node(s.mem, a, r);
    }
    forall u: seq<Slot> | Node(t.mem, f, u) ensures At(t.mem, f, u) == f {
    }
  }

  /** A fresh root is an empty address space. */
  lemma {:induction false} FreshSpace(t: Sys, f: nat)
    requires PoolOk(t) && f < MAX_FRAME && !FrameFree(t, f) && IsFresh(Tab(t.mem, f), f)
    ensures SpaceOk(t, f) && SelfLinked(t.mem, f)
    ensures forall u: seq<Slot> :: Node(t.mem, f, u) ==> u == []
    ensures forall page: seq<Slot> :: |page| == 4 && Ordinary(page) ==> Lookup(t.mem, f, page) == None
  {
    LinkZero(f);
    FreshSlots(Tab(t.mem, f), f);
    assert Follow(t.mem, f, []) == Some(f) && Node(t.mem, f, []);
    forall u: seq<Slot> | Ordinary(u) ensures Follow(t.mem, f, u) == if u == [] then Some(f) else None {
    }
  }

  // ----- editing a space through the active one

  /** Between override and restore: the root of a keeps its tables, its self slot selects q. */
  ghost predicate Overridden(s: Sys, t: Sys, a: nat, q: nat, page: seq<Slot>)
    requires Inv(s.pool)
  {
    && Both(t, a, q) && t.cr3 == s.cr3 && t.base == s.base && t.pool.Size() == s.pool.Size()
    && Next(t.mem, a, SELF) == Some(q) && SelfLinked(t.mem, q)
    && SameSpace(s.mem, t.mem, q) && SameTables(s.mem, t.mem, q)
    && CountFree(t.pool) == CountFree(s.pool) - 3
    && |page| == 4 && Ordinary(page) && Lookup(s.mem, a, page) == None
    && forall idx: seq<Slot> :: |idx| == 4 && Ordinary(idx) ==>
         Lookup(t.mem, a, idx) == if idx == page then Some(a) else Lookup(s.mem, a, idx)
  }

  /** The tables of q are untouched, self slots included. */
  ghost predicate SameTables(m: Memory, n: Memory, q: nat) {
    forall f: nat :: TableOf(m, q, f) ==> Tab(n, f) == Tab(m, f)
  }

  /** Two address spaces, a active, both with their self slots. */
  ghost predicate ReadyFor(s: Sys, a: nat, q: nat) {
    && Both(s, a, q) && s.cr3 == a && SelfLinked(s.mem, a) && SelfLinked(s.mem, q)
    && a < MAX_FRAME && q < MAX_FRAME
  }

  /** With a free root slot and three frames the override succeeds; otherwise the spaces stay as they were. */
  ghost predicate OverrideOutcome(s: Sys, t: Sys, a: nat, q: nat, r: Result<seq<Slot>>)
    requires Inv(s.pool)
  {
    var i := FirstFree(Tab(s.mem, a), 1);
    && (r.Ok? <==> i < SELF && 3 <= CountFree(s.pool))
    && (r.Err? ==> r == Err(NoEntry) && ReadyFor(t, a, q) && SamePages(s.mem, t.mem, a)
                   && SameSpace(s.mem, t.mem, q) && CountFree(t.pool) == NothingFound(s, i))
    && (r.Ok? ==> r.value == [i, 1, 1, 1] && Overridden(s, t, a, q, r.value))
  }

  lemma {:induction false} OverrideCorrect(s: Sys, a: nat, q: nat)
    requires ReadyFor(s, a, q)
    ensures OverrideOutcome(s, Override(s, a, q).0, a, q, Override(s, a, q).1)
  {
    KeepCorrect(s, a, a);
    var (s1, found, r) := Keep(s, a, a);
    EditLeavesOther(s, s1, a, q);
    RootSelf(s, s1, a);
    OtherSelf(s, s1, a, q);
    if found.Some? {
      OverrideHolds(s, s1, a, q, FirstFree(Tab(s.mem, a), 1), found.value);
    }
  }

  lemma {:induction false} OverrideHolds(s: Sys, s1: Sys, a: nat, q: nat, i: Slot, page: seq<Slot>)
    requires ReadyFor(s, a, q) && Both(s1, a, q) && Grows(s, s1, a)
    requires SameSpace(s.mem, s1.mem, q) && SameTables(s.mem, s1.mem, q)
    requires i == FirstFree(Tab(s.mem, a), 1) && i != SELF && CountFree(s1.pool) == CountFree(s.pool) - 3
    requires page == [i, 1, 1, 1]
    requires forall idx: seq<Slot> :: |idx| == 4 && Ordinary(idx) ==>
               Lookup(s1.mem, a, idx) == if idx == page then Some(a) else Lookup(s.mem, a, idx)
    ensures Overridden(s, s1.(mem := Redirect(s1.mem, a, q)), a, q, page)
  {
    RootSelf(s, s1, a);
    OtherSelf(s, s1, a, q);
    RedirectKeeps(s1, a, q, q);
    FirstPage(i, page);
    FreeSlotUnmapped(s.mem, a, i);
    OverriddenFrom(s, s1, s1.(mem := Redirect(s1.mem, a, q)), a, q, page);
  }

  lemma {:induction false} OverriddenFrom(s: Sys, s1: Sys, t: Sys, a: nat, q: nat, page: seq<Slot>)
    requires Inv(s.pool) && Both(t, a, q) && Both(s1, a, q) && Grows(s, s1, a) && t == s1.(mem := t.mem)
    requires SameSpace(s.mem, s1.mem, q) && SameSpace(s1.mem, t.mem, q) && SameSpace(s1.mem, t.mem, a)
    requires SameTables(s.mem, s1.mem, q)
    requires Next(t.mem, a, SELF) == Some(q) && SelfLinked(s1.mem, q)
    requires forall g: nat :: g != a ==> Tab(t.mem, g) == Tab(s1.mem, g)
    requires CountFree(s1.pool) == CountFree(s.pool) - 3 && |page| == 4 && Ordinary(page)
             && Lookup(s.mem, a, page) == None
    requires forall idx: seq<Slot> :: |idx| == 4 && Ordinary(idx) ==>
               Lookup(s1.mem, a, idx) == if idx == page then Some(a) else Lookup(s.mem, a, idx)
    ensures Overridden(s, t, a, q, page)
  {
    SameSpaceTrans(s.mem, s1.mem, t.mem, q);
    RootsDiffer(s1.mem, a, q);
    TablesThrough(s.mem, s1.mem, t.mem, a, q);
  }

  lemma {:induction false} TablesThrough(m: Memory, m1: Memory, n: Memory, a: nat, q: nat)
    requires SameSpace(m, m1, q) && SameTables(m, m1, q) && Apart(m1, a, q)
    requires forall g: nat :: g != a ==> Tab(n, g) == Tab(m1, g)
    ensures SameTables(m, n, q)
  {
    forall f: nat | TableOf(m, q, f) ensures Tab(n, f) == Tab(m, f) {
      var r: seq<Slot> :| Node(m, q, r) && At(m, q, r) == f;
      assert Node(m1, q, r) && At(m1, q, r) == f;
      assert Follow(m1, a, []) == Some(a) && Node(m1, a, []) && At(m1, a, []) == a;
    }
  }

  lemma {:induction false} OtherSelf(s: Sys, t: Sys, a: nat, q: nat)
    requires SpaceOk(s, q) && Inv(t.pool) && Grows(s, t, a)
    ensures Entry(t.mem, q, SELF) == Entry(s.mem, q, SELF)
  {
    assert Follow(s.mem, q, []) == Some(q) && Node(s.mem, q, []) && At(s.mem, q, []) == q;
    assert !FrameFree(s, q);
  }

  lemma {:induction false} SameSpaceTrans(m: Memory, n: Memory, o: Memory, q: nat)
    requires SameSpace(m, n, q) && SameSpace(n, o, q)
    ensures SameSpace(m, o, q)
  {
  }

  lemma {:induction false} RootsDiffer(m: Memory, a: nat, q: nat)
    requires Apart(m, a, q)
    ensures a != q
  {
    assert Follow(m, a, []) == Some(a) && Node(m, a, []) && At(m, a, []) == a;
    assert Follow(m, q, []) == Some(q) && Node(m, q, []) && At(m, q, []) == q;
  }

  lemma {:induction false} FreeSlotUnmapped(m: Memory, a: nat, i: Slot)
    requires i == FirstFree(Tab(m, a), 1)
    ensures Lookup(m, a, [i, 1, 1, 1]) == None
  {
  }

  /** The closure of `with`. Every frame it changes is a table of q afterwards; no table of the active space,
      self slot included, is touched; the frame kept at `page` still leads back to the active root. */
  lemma {:induction false} ClosureIsolated(s: Sys, t: Sys, a: nat, q: nat, page: seq<Slot>, l: seq<Mapping>)
    returns (k: nat)
    requires Inv(s.pool) && Overridden(s, t, a, q, page) && Pages(l) && Acceptable(t, q, l)
    ensures k <= |l|
    ensures var (u, r) := MapAll(t, q, l);
            && Both(u, a, q) && SameSpace(t.mem, u.mem, a)
            && (r.Ok? <==> k == |l|) && (forall j :: 0 <= j < k ==> Ordinary(l[j].page))
            && Extends(t.mem, u.mem, q, l[..k]) && AllNew(t.mem, q, l[..k])
            && (forall f: nat :: Tab(u.mem, f) != Tab(t.mem, f) ==> TableOf(u.mem, q, f))
            && (forall f: nat :: TableOf(t.mem, a, f) ==> Tab(u.mem, f) == Tab(t.mem, f))
            && Next(u.mem, a, SELF) == Some(q) && SelfLinked(u.mem, q)
            && u.cr3 == t.cr3 && u.base == t.base && u.pool.Size() == t.pool.Size()
            && Lookup(u.mem, a, page) == Some(a)
  {
    k := MapAllCorrect(t, q, l);
    var u := MapAll(t, q, l).0;
    EditLeavesOther(t, u, q, a);
    OtherSelf(t, u, q, a);
    RootSelf(t, u, q);
  }

  /** What `with` leaves behind: a as before except for the page it kept, q extended by the first k mappings,
      and the recursive slot of a selecting a again. */
  ghost predicate WithDone(s: Sys, t: Sys, a: nat, q: nat, l: seq<Mapping>, k: nat) {
    && k <= |l| && ReadyFor(t, a, q) && t.base == s.base && t.pool.Shaped() && t.pool.Size() == s.pool.Size()
    && Extends(s.mem, t.mem, q, l[..k]) && AllNewIn(s.mem, q, l[..k])
    && forall idx: seq<Slot> :: |idx| == 4 && Ordinary(idx) ==>
         Lookup(t.mem, a, idx) ==
         if idx == [FirstFree(Tab(s.mem, a), 1), 1, 1, 1] then Some(a) else Lookup(s.mem, a, idx)
  }

  ghost predicate AllNewIn(m: Memory, q: nat, l: seq<Mapping>) {
    Pages(l) && AllNew(m, q, l)
  }

  lemma {:induction false} AcceptableKept(s: Sys, t: Sys, q: nat, l: seq<Mapping>)
    requires Acceptable(s, q, l) && SameSpace(s.mem, t.mem, q) && SameTables(s.mem, t.mem, q)
    ensures Acceptable(t, q, l)
  {
    forall j | 0 <= j < |l| ensures Addressable(t, q, l[j].page) {
      assert Addressable(s, q, l[j].page);
      if l[j].page[3] == SELF {
        LoopedSame(s.mem, t.mem, q);
      }
    }
  }

  lemma {:induction false} LoopedSame(m: Memory, n: Memory, q: nat)
    requires Looped(m, q) && SameSpace(m, n, q) && SameTables(m, n, q)
    ensures Looped(n, q)
  {
    forall r: seq<Slot> | Node(n, q, r) && |r| == 3 ensures IsPresent(Entry(n, At(n, q, r), SELF)) {
      assert Node(m, q, r) && TableOf(m, q, At(m, q, r));
    }
  }

  /** `with`, exactly: too few frames or no free root slot is reported before anything is redirected; a root
      slot in the non-canonical half faults; otherwise a prefix of the mappings (all of them when the result
      is Done) is added to q, and a is as before but for the page it kept. */
  lemma {:induction false} WithCorrect(s: Sys, a: nat, q: nat, l: seq<Mapping>) returns (k: nat)
    requires ReadyFor(s, a, q) && Pages(l) && Acceptable(s, q, l)
    ensures var (t, r) := With(s, a, q, l); var i := FirstFree(Tab(s.mem, a), 1);
            if 3 <= CountFree(s.pool) && i < 256 then
              WithDone(s, t, a, q, l, k) && !r.Panicked? && (r.Done? <==> k == |l|)
            else if 3 <= CountFree(s.pool) && i < SELF then
              r == Panicked
            else
              && r == Failed(NoEntry) && ReadyFor(t, a, q) && SamePages(s.mem, t.mem, a) && SamePages(s.mem, t.mem, q)
              && CountFree(t.pool) == NothingFound(s, i)
  {
    k := 0;
    OverrideCorrect(s, a, q);
    var (s1, kept) := Override(s, a, q);
    if kept.Ok? {
      AcceptableKept(s, s1, q, l);
      k := ClosureIsolated(s, s1, a, q, kept.value, l);
      if kept.value[0] < 256 {
        RestoreHolds(s, s1, MapAll(s1, q, l).0, a, q, kept.value, l, k);
      }
    }
  }

  lemma {:induction false} RestoreHolds(s: Sys, s1: Sys, u: Sys, a: nat, q: nat, page: seq<Slot>, l: seq<Mapping>,
                                        k: nat)
    requires ReadyFor(s, a, q) && Overridden(s, s1, a, q, page) && page == [FirstFree(Tab(s.mem, a), 1), 1, 1, 1]
             && page[0] < 256
    requires Both(u, a, q) && SameSpace(s1.mem, u.mem, a) && Next(u.mem, a, SELF) == Some(q) && SelfLinked(u.mem, q)
    requires u.cr3 == s1.cr3 && u.base == s1.base && u.pool.Size() == s1.pool.Size()
             && Lookup(u.mem, a, page) == Some(a)
    requires k <= |l| && Pages(l) && Extends(s1.mem, u.mem, q, l[..k]) && AllNew(s1.mem, q, l[..k])
             && forall j :: 0 <= j < k ==> Ordinary(l[j].page)
    ensures Restore(u, page).Some? && WithDone(s, Restore(u, page).value, a, q, l, k)
  {
    RestoreSpaces(u, a, q, page);
    var t := Restore(u, page).value;
    ExtendsThrough(s.mem, s1.mem, u.mem, t.mem, q, l[..k]);
    NewThrough(s, s1, q, l, k);
  }

  lemma {:induction false} RestoreSpaces(u: Sys, a: nat, q: nat, page: seq<Slot>)
    requires Both(u, a, q) && Next(u.mem, a, SELF) == Some(q) && SelfLinked(u.mem, q) && u.cr3 == a
    requires |page| == 4 && page[0] < 256 && Lookup(u.mem, a, page) == Some(a) && a < MAX_FRAME && q < MAX_FRAME
    ensures var r := Restore(u, page);
            && r.Some? && r.value == u.(mem := r.value.mem) && ReadyFor(r.value, a, q)
            && SameSpace(u.mem, r.value.mem, a) && SameSpace(u.mem, r.value.mem, q)
  {
    RedirectKeeps(u, a, q, a);
    RootsDiffer(u.mem, a, q);
  }

  lemma {:induction false} NewThrough(s: Sys, s1: Sys, q: nat, l: seq<Mapping>, k: nat)
    requires k <= |l| && Pages(l) && AllNew(s1.mem, q, l[..k]) && SamePages(s.mem, s1.mem, q)
    requires forall j :: 0 <= j < k ==> Ordinary(l[j].page)
    ensures AllNewIn(s.mem, q, l[..k])
  {
    forall j | 0 <= j < k ensures Lookup(s.mem, q, l[..k][j].page) == None {
      assert Ordinary(l[..k][j].page);
      assert Lookup(s1.mem, q, l[..k][j].page) == None;
    }
  }

  lemma {:induction false} ExtendsThrough(m: Memory, m1: Memory, n1: Memory, n: Memory, q: nat, l: seq<Mapping>)
    requires SamePages(m, m1, q) && Extends(m1, n1, q, l) && SamePages(n1, n, q)
    ensures Extends(m, n, q, l)
  {
  }
}
