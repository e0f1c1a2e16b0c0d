/**
 Whole runs of the memory manager: any sequence of allocations, mappings,
 unmappings, searches, new address spaces, edits through `with` and switches.
 */
module PageRun {
  import opened Wrappers
  import opened Bits
  import opened Blocks
  import opened BuddySystem
  import opened BuddyCanon
  import opened BuddyCorrect
  import opened BuddyFree
  import opened BuddyCount
  import opened PageTables
  import opened PageLink
  import opened PageMap
  import opened PageScan
  import opened PageOps
  import opened PageUnmap
  import opened AddressSpaces
  import opened SpaceSteps

  /** The machine, the roots of all address spaces made so far, and the blocks clients hold: head to order. */
  datatype World = World(sys: Sys, spaces: set<nat>, held: map<nat, nat>)

  // ----- the invariant

  /** All address spaces are sound, no table belongs to two of them, and no held block contains a table. */
  ghost predicate Tidy(w: World) {
    && PoolOk(w.sys) && w.sys.cr3 in w.spaces
    && (forall b :: b in w.spaces ==> b < MAX_FRAME && SpaceOk(w.sys, b))
    && (forall b, c :: b in w.spaces && c in w.spaces && b != c ==> Apart(w.sys.mem, b, c))
    && (forall h :: h in w.held ==> HeldOk(w, h))
  }

  ghost predicate HeldOk(w: World, h: nat)
    requires Inv(w.sys.pool) && h in w.held
  {
    && h in Live(w.sys.pool) && Live(w.sys.pool)[h] == w.held[h]
    && forall b :: b in w.spaces ==> NoTableIn(w.sys, b, h, w.held[h])
  }

  /** Every root but x, if that is one, is behind its own self slot. */
  ghost predicate Selves(w: World, x: int) {
    forall b :: b in w.spaces && b != x ==> SelfLinked(w.sys.mem, b)
  }

  ghost predicate Safe(w: World) {
    Tidy(w) && Selves(w, -1)
  }

  /** Editing one address space keeps all of them tidy. */
  lemma {:induction false} EditKeepsTidy(w: World, t: Sys, q: nat)
    requires Tidy(w) && q in w.spaces && SpaceOk(t, q) && Grows(w.sys, t, q)
    ensures Tidy(w.(sys := t))
    ensures forall x :: Selves(w, x) ==> Selves(w.(sys := t), x)
  {
    var s := w.sys;
    forall b | b in w.spaces ensures SpaceOk(t, b) && Entry(t.mem, b, SELF) == Entry(s.mem, b, SELF) {
      EditKeepsOne(w, t, q, b);
    }
    forall b, c | b in w.spaces && c in w.spaces && b != c ensures Apart(t.mem, b, c) {
      EditKeepsApart(w, t, q, b, c);
    }
    forall h | h in w.held ensures HeldOk(w.(sys := t), h) {
      EditKeepsHeld(w, t, q, h);
    }
  }

  lemma {:induction false} EditKeepsSafe(w: World, t: Sys, q: nat)
    requires Safe(w) && q in w.spaces && SpaceOk(t, q) && Grows(w.sys, t, q)
    ensures Safe(w.(sys := t))
  {
    EditKeepsTidy(w, t, q);
  }

  lemma {:induction false} EditKeepsOne(w: World, t: Sys, q: nat, b: nat)
    requires Tidy(w) && q in w.spaces && SpaceOk(t, q) && Grows(w.sys, t, q) && b in w.spaces
    ensures SpaceOk(t, b) && Entry(t.mem, b, SELF) == Entry(w.sys.mem, b, SELF)
    ensures b != q ==> SameSpace(w.sys.mem, t.mem, b) && Apart(t.mem, b, q) && Apart(t.mem, q, b)
  {
    OtherSelf(w.sys, t, q, b);
    if b != q {
      EditLeavesOther(w.sys, t, q, b);
    }
  }

  lemma {:induction false} EditKeepsApart(w: World, t: Sys, q: nat, b: nat, c: nat)
    requires Tidy(w) && q in w.spaces && SpaceOk(t, q) && Grows(w.sys, t, q) && b in w.spaces && c in w.spaces && b != c
    ensures Apart(t.mem, b, c)
  {
    EditKeepsOne(w, t, q, b);
    EditKeepsOne(w, t, q, c);
    if b != q && c != q {
      ApartKept(w.sys.mem, t.mem, b, c);
    }
  }

  lemma {:induction false} EditKeepsHeld(w: World, t: Sys, q: nat, h: nat)
    requires Tidy(w) && q in w.spaces && SpaceOk(t, q) && Grows(w.sys, t, q) && h in w.held
    ensures HeldOk(w.(sys := t), h)
  {
    assert HeldOk(w, h);
    forall b | b in w.spaces ensures NoTableIn(t, b, h, w.held[h]) {
      EditKeepsOne(w, t, q, b);
      if b == q {
        NewTablesElsewhere(w.sys, t, q, h);
      } else {
        SameNodes(w.sys, t, b, h, w.held[h]);
      }
    }
  }

  /** Tables are made of free frames, so never inside a live block. */
  lemma {:induction false} NewTablesElsewhere(s: Sys, t: Sys, q: nat, h: nat)
    requires Inv(s.pool) && Inv(t.pool) && Grows(s, t, q) && h in Live(s.pool) && NoTableIn(s, q, h, Live(s.pool)[h])
    ensures NoTableIn(t, q, h, Live(s.pool)[h])
  {
    var o := Live(s.pool)[h];
    forall a: seq<Slot> | Node(t.mem, q, a) ensures !InBlock(h, o, At(t.mem, q, a) - t.base) {
      if Node(s.mem, q, a) {
        assert At(t.mem, q, a) == At(s.mem, q, a);
      } else {
        FreeNotHeld(s, h, o, At(t.mem, q, a));
      }
    }
  }

  lemma {:induction false} FreeNotHeld(s: Sys, h: nat, o: nat, f: nat)
    requires Inv(s.pool) && h in Live(s.pool) && Live(s.pool)[h] == o && FrameFree(s, f)
    ensures !InBlock(h, o, f - s.base)
  {
    FreeXorOccupied(s.pool, f - s.base);
    assert InBlock(h, o, f - s.base) ==> Occupied(Live(s.pool), f - s.base);
  }

  lemma {:induction false} SameNodes(s: Sys, t: Sys, b: nat, h: nat, o: nat)
    requires SameSpace(s.mem, t.mem, b) && t.base == s.base && NoTableIn(s, b, h, o)
    ensures NoTableIn(t, b, h, o)
  {
    forall a: seq<Slot> | Node(t.mem, b, a) ensures !InBlock(h, o, At(t.mem, b, a) - t.base) {
      assert Node(s.mem, b, a);
    }
  }

  // ----- allocating and releasing blocks

  /** Handing out a free block leaves every table alone, ... */
  lemma {:induction false} TakeKeepsTidy(w: World, p: Pool, h: nat, o: nat)
    requires Tidy(w) && Inv(p) && p.Size() == w.sys.pool.Size() && FreeRange(w.sys.pool, h, o)
    requires h !in Live(w.sys.pool) && Live(p) == Live(w.sys.pool)[h := o]
    ensures Tidy(w.(sys := w.sys.(pool := p))) && h !in w.held
    ensures forall b :: b in w.spaces ==> NoTableIn(w.sys.(pool := p), b, h, o)
  {
    var t := w.sys.(pool := p);
    OneBlockLess(w.sys.pool, p, h, o);
    forall b | b in w.spaces ensures SpaceOk(t, b) && NoTableIn(t, b, h, o) {
      TakeKeepsOne(w, p, h, o, b);
    }
    forall g | g in w.held ensures HeldOk(w.(sys := t), g) {
      TakeKeepsHeld(w, p, h, o, g);
    }
    HeldIsLive(w, h);
  }

  lemma {:induction false} HeldIsLive(w: World, h: nat)
    requires Tidy(w)
    ensures h in w.held ==> h in Live(w.sys.pool)
  {
    assert h in w.held ==> HeldOk(w, h);
  }

  lemma {:induction false} TakeKeepsHeld(w: World, p: Pool, h: nat, o: nat, g: nat)
    requires Tidy(w) && Inv(p) && h !in Live(w.sys.pool) && Live(p) == Live(w.sys.pool)[h := o] && g in w.held
    ensures HeldOk(w.(sys := w.sys.(pool := p)), g)
  {
    assert HeldOk(w, g);
    forall b | b in w.spaces ensures NoTableIn(w.sys.(pool := p), b, g, w.held[g]) {
      assert NoTableIn(w.sys, b, g, w.held[g]);
    }
  }

  /** ... and a client may then hold it. */
  lemma {:induction false} HoldKeepsTidy(w: World, h: nat, o: nat)
    requires Tidy(w) && h !in w.held && h in Live(w.sys.pool) && Live(w.sys.pool)[h] == o
    requires forall b :: b in w.spaces ==> NoTableIn(w.sys, b, h, o)
    ensures Tidy(w.(held := w.held[h := o]))
  {
    var v := w.(held := w.held[h := o]);
    forall g | g in v.held ensures HeldOk(v, g) {
      assert g != h ==> HeldOk(w, g);
    }
  }

  lemma {:induction false} TakeKeepsOne(w: World, p: Pool, h: nat, o: nat, b: nat)
    requires Tidy(w) && Inv(p) && p.Size() == w.sys.pool.Size() && b in w.spaces && FreeRange(w.sys.pool, h, o)
    requires forall y :: FreeAt(p, y) ==> FreeAt(w.sys.pool, y)
    ensures SpaceOk(w.sys.(pool := p), b) && NoTableIn(w.sys.(pool := p), b, h, o)
  {
    var t := w.sys.(pool := p);
    forall a: seq<Slot> | Node(t.mem, b, a)
      ensures !FrameFree(t, At(t.mem, b, a)) && !InBlock(h, o, At(t.mem, b, a) - t.base)
    {
      assert !FrameFree(w.sys, At(w.sys.mem, b, a));
    }
  }

  /** Taking a held block back. */
  lemma {:induction false} ReleaseKeepsTidy(w: World, p: Pool, h: nat)
    requires Tidy(w) && h in w.held && Inv(p) && p.Size() == w.sys.pool.Size() && Live(p) == Live(w.sys.pool) - {h}
    ensures Tidy(World(w.sys.(pool := p), w.spaces, w.held - {h}))
  {
    var v := World(w.sys.(pool := p), w.spaces, w.held - {h});
    ReleasedFrames(w, p, h);
    forall b | b in w.spaces ensures SpaceOk(v.sys, b) {
      ReleaseKeepsOne(w, p, h, b);
    }
    forall g | g in v.held ensures HeldOk(v, g) {
      ReleaseKeepsHeld(w, p, h, g);
    }
  }

  lemma {:induction false} ReleasedFrames(w: World, p: Pool, h: nat)
    requires Tidy(w) && h in w.held && Inv(p) && p.Size() == w.sys.pool.Size() && Live(p) == Live(w.sys.pool) - {h}
    ensures HeldOk(w, h) && forall y :: FreeAt(w.sys.pool, y) <==> FreeAt(p, y) && !InBlock(h, w.held[h], y)
  {
    assert HeldOk(w, h);
    assert Live(w.sys.pool) == Live(p)[h := w.held[h]];
    OneBlockLess(p, w.sys.pool, h, w.held[h]);
  }

  lemma {:induction false} ReleaseKeepsHeld(w: World, p: Pool, h: nat, g: nat)
    requires Tidy(w) && Inv(p) && Live(p) == Live(w.sys.pool) - {h} && g in w.held && g != h
    ensures HeldOk(World(w.sys.(pool := p), w.spaces, w.held - {h}), g)
  {
    assert HeldOk(w, g);
    forall b | b in w.spaces ensures NoTableIn(w.sys.(pool := p), b, g, w.held[g]) {
      assert NoTableIn(w.sys, b, g, w.held[g]);
    }
  }

  lemma {:induction false} ReleaseKeepsOne(w: World, p: Pool, h: nat, b: nat)
    requires Tidy(w) && h in w.held && HeldOk(w, h) && Inv(p) && p.Size() == w.sys.pool.Size() && b in w.spaces
    requires forall y :: FreeAt(w.sys.pool, y) <==> FreeAt(p, y) && !InBlock(h, w.held[h], y)
    ensures SpaceOk(w.sys.(pool := p), b)
  {
    var t := w.sys.(pool := p);
    assert NoTableIn(w.sys, b, h, w.held[h]);
    forall a: seq<Slot> | Node(t.mem, b, a) ensures !FrameFree(t, At(t.mem, b, a)) {
      assert !FrameFree(w.sys, At(w.sys.mem, b, a));
    }
  }

  // ----- redirecting the active root

  lemma {:induction false} RedirectKeepsTidy(w: World, a: nat, f: nat)
    requires Tidy(w) && a in w.spaces && f < MAX_FRAME && Next(w.sys.mem, a, SELF).Some?
    ensures Tidy(w.(sys := w.sys.(mem := Redirect(w.sys.mem, a, f))))
    ensures Next(Redirect(w.sys.mem, a, f), a, SELF) == Some(f)
    ensures Selves(w, a) ==> Selves(w.(sys := w.sys.(mem := Redirect(w.sys.mem, a, f))), a)
  {
    var s, t := w.sys, w.sys.(mem := Redirect(w.sys.mem, a, f));
    RedirectedRoot(s, a, f);
    forall b | b in w.spaces ensures SpaceOk(t, b) && SameSpace(s.mem, t.mem, b) {
      RedirectSpace(s, t, a, b);
    }
    forall b, c | b in w.spaces && c in w.spaces && b != c ensures AddressSpaces.Apart(t.mem, b, c) {
      ApartKept(s.mem, t.mem, b, c);
    }
    forall h | h in w.held ensures HeldOk(w.(sys := t), h) {
      assert HeldOk(w, h);
      forall b | b in w.spaces ensures NoTableIn(t, b, h, w.held[h]) {
        SameNodes(s, t, b, h, w.held[h]);
      }
    }
  }

  lemma {:induction false} RedirectedRoot(s: Sys, a: nat, f: nat)
    requires SpaceOk(s, a) && f < MAX_FRAME && Next(s.mem, a, SELF).Some?
    ensures var n := Redirect(s.mem, a, f);
            && WordOk(Entry(n, a, SELF)) && Next(n, a, SELF) == Some(f)
            && forall g: nat, j: Slot :: j != SELF || g != a ==> Entry(n, g, j) == Entry(s.mem, g, j)
  {
    assert Follow(s.mem, a, []) == Some(a) && Node(s.mem, a, []) && At(s.mem, a, []) == a;
    assert WordOk(Entry(s.mem, At(s.mem, a, []), SELF));
    RedirectWord(Entry(s.mem, a, SELF), f);
  }

  // ----- adding a root

  /** A fresh root in a frame that is no table joins the others. */
  lemma {:induction false} JoinKeepsTidy(w: World, n: Memory, f: nat)
    requires Tidy(w) && f < MAX_FRAME && !FrameFree(w.sys, f) && IsFresh(Tab(n, f), f)
    requires forall g: nat :: g != f ==> Tab(n, g) == Tab(w.sys.mem, g)
    requires forall b :: b in w.spaces ==> !TableOf(w.sys.mem, b, f)
    requires forall h :: h in w.held ==> !InBlock(h, w.held[h], f - w.sys.base)
    ensures Tidy(World(w.sys.(mem := n), w.spaces + {f}, w.held))
    ensures Selves(w, -1) ==> Selves(World(w.sys.(mem := n), w.spaces + {f}, w.held), -1)
  {
    var s, t := w.sys, w.sys.(mem := n);
    var v := World(t, w.spaces + {f}, w.held);
    FreshSpace(t, f);
    forall b | b in w.spaces
      ensures SpaceOk(t, b) && b != f && AddressSpaces.Apart(n, b, f) && AddressSpaces.Apart(n, f, b)
    {
      JoinKeepsOne(w, n, f, b);
    }
    forall b, c | b in v.spaces && c in v.spaces && b != c ensures AddressSpaces.Apart(n, b, c) {
      JoinKeepsApart(w, n, f, b, c);
    }
    forall h | h in w.held ensures HeldOk(v, h) {
      JoinKeepsHeld(w, n, f, h);
    }
  }

  lemma {:induction false} JoinKeepsOne(w: World, n: Memory, f: nat, b: nat)
    requires Tidy(w) && b in w.spaces && !TableOf(w.sys.mem, b, f) && SpaceOk(w.sys.(mem := n), f)
    requires forall g: nat :: g != f ==> Tab(n, g) == Tab(w.sys.mem, g)
    requires forall u: seq<Slot> :: Node(n, f, u) ==> u == []
    ensures SpaceOk(w.sys.(mem := n), b) && b != f && AddressSpaces.Apart(n, b, f) && AddressSpaces.Apart(n, f, b)
    ensures forall a: seq<Slot> :: Node(n, b, a) ==> Node(w.sys.mem, b, a) && At(n, b, a) == At(w.sys.mem, b, a)
  {
    ForeignKeeps(w.sys, w.sys.(mem := n), b, f);
    ForeignApart(w.sys, w.sys.(mem := n), b, f);
    RootIsTable(w.sys.mem, b);
  }

  lemma {:induction false} JoinKeepsApart(w: World, n: Memory, f: nat, b: nat, c: nat)
    requires Tidy(w) && b in w.spaces + {f} && c in w.spaces + {f} && b != c && SpaceOk(w.sys.(mem := n), f)
    requires forall x :: x in w.spaces ==> !TableOf(w.sys.mem, x, f)
    requires forall g: nat :: g != f ==> Tab(n, g) == Tab(w.sys.mem, g)
    requires forall u: seq<Slot> :: Node(n, f, u) ==> u == []
    ensures AddressSpaces.Apart(n, b, c)
  {
    if b in w.spaces {
      JoinKeepsOne(w, n, f, b);
    }
    if c in w.spaces {
      JoinKeepsOne(w, n, f, c);
    }
    if b in w.spaces && c in w.spaces {
      assert AddressSpaces.Apart(w.sys.mem, b, c);
    }
  }

  lemma {:induction false} JoinKeepsHeld(w: World, n: Memory, f: nat, h: nat)
    requires Tidy(w) && h in w.held && !InBlock(h, w.held[h], f - w.sys.base) && SpaceOk(w.sys.(mem := n), f)
    requires forall x :: x in w.spaces ==> !TableOf(w.sys.mem, x, f)
    requires forall g: nat :: g != f ==> Tab(n, g) == Tab(w.sys.mem, g)
    requires forall u: seq<Slot> :: Node(n, f, u) ==> u == []
    ensures HeldOk(World(w.sys.(mem := n), w.spaces + {f}, w.held), h)
  {
    assert HeldOk(w, h);
    var t := w.sys.(mem := n);
    forall b | b in w.spaces + {f} ensures NoTableIn(t, b, h, w.held[h]) {
      if b in w.spaces {
        JoinKeepsOne(w, n, f, b);
        assert NoTableIn(w.sys, b, h, w.held[h]);
      }
    }
  }

  // ----- operations

  /** Pages of the active address space are meant by `MapPage` and `UnmapPage`. */
  datatype Op =
    | Alloc(order: nat)
    | MapPage(page: seq<Slot>, frame: nat)
    | UnmapPage(page: seq<Slot>)
    | FindPages(count: nat)
    | AutoMapBlock(frame: nat, order: nat)
    | NewSpace
    | Fill(root: nat, l: seq<Mapping>)
    | SwitchTo(root: nat)

  /** What a caller may ask for: pages off the self slots and huge pages, addressable frames, other address
      spaces to fill and known ones to switch to, and to unmap only what it holds, subject to OrderMatch. */
  ghost predicate Permitted(w: World, op: Op)
    requires Tidy(w)
  {
    var s, a := w.sys, w.sys.cr3;
    match op
    case Alloc(_) => true
    case MapPage(page, frame) => Addressable(s, a, page) && frame < MAX_FRAME
    case UnmapPage(page) =>
      Mappable(s, a, page) && (Lookup(s.mem, a, page).Some? ==> MayRelease(w, Lookup(s.mem, a, page).value))
    case FindPages(count) => 1 <= count
    case AutoMapBlock(frame, order) => frame + Pow2(order) <= MAX_FRAME
    case NewSpace => true
    case Fill(q, l) => q in w.spaces && q != a && Pages(l) && Acceptable(s, q, l)
    case SwitchTo(q) => q in w.spaces
  }

  predicate MayRelease(w: World, f: nat)
    requires w.sys.pool.Shaped()
  {
    && Managed(w.sys, f) && f - w.sys.base in w.held
    && OrderMatch(w.sys.pool, f - w.sys.base, w.held[f - w.sys.base])
  }

  /** The world after an operation; None for a panic. */
  ghost function Step(w: World, op: Op): (r: Option<World>)
    requires w.sys.pool.Shaped() && (op.MapPage? || op.UnmapPage? ==> |op.page| == 4)
    requires (op.FindPages? ==> 1 <= op.count) && (op.Fill? ==> Pages(op.l))
  {
    var s, a := w.sys, w.sys.cr3;
    match op
    case Alloc(order) =>
      var (p, got) := Allocate(s.pool, order);
      Some(World(s.(pool := p), w.spaces, if got.Some? then w.held[got.value := order] else w.held))
    case MapPage(page, frame) => Some(w.(sys := Map(s, a, page, frame).0))
    case UnmapPage(page) => StepUnmap(w, page)
    case FindPages(count) => Some(w.(sys := FindEmptyPages(s, a, count).0))
    case AutoMapBlock(frame, order) =>
      var (t, r) := AutoMap(s, a, frame, order);
      if r.Panicked? then None else Some(w.(sys := t))
    case NewSpace => StepNew(w)
    case Fill(q, l) =>
      var (t, r) := With(s, a, q, l);
      if r.Panicked? then None else Some(w.(sys := t))
    case SwitchTo(q) => Some(w.(sys := Switch(s, q)))
  }

  function StepUnmap(w: World, page: seq<Slot>): Option<World>
    requires w.sys.pool.Shaped() && |page| == 4
  {
    var s := w.sys;
    var (t, r) := Unmap(s, s.cr3, page);
    match r
    case Panicked => None
    case Failed(_) => Some(w.(sys := t))
    case Done(_) =>
      match Lookup(s.mem, s.cr3, page)
      case Some(f) => Some(World(t, w.spaces, if s.base <= f then w.held - {f - s.base} else w.held))
      case None => Some(w.(sys := t))
  }

  ghost function StepNew(w: World): Option<World>
    requires w.sys.pool.Shaped()
  {
    var (t, r) := NewInactive(w.sys, w.sys.cr3);
    match r
    case Done(None) => Some(w.(sys := t))
    case Done(Some(q)) => Some(World(t, w.spaces + {q}, w.held))
    case _ => None
  }

  lemma {:induction false} AllocSafe(w: World, order: nat)
    requires Safe(w)
    ensures var (p, got) := Allocate(w.sys.pool, order);
            Safe(World(w.sys.(pool := p), w.spaces, if got.Some? then w.held[got.value := order] else w.held))
  {
    AllocateCorrect(w.sys.pool, order);
    var (p, got) := Allocate(w.sys.pool, order);
    if got.Some? {
      TakeKeepsTidy(w, p, got.value, order);
      HoldKeepsTidy(w.(sys := w.sys.(pool := p)), got.value, order);
    }
  }

  lemma {:induction false} MapSafe(w: World, page: seq<Slot>, frame: nat)
    requires Safe(w) && Addressable(w.sys, w.sys.cr3, page) && frame < MAX_FRAME
    ensures Safe(w.(sys := Map(w.sys, w.sys.cr3, page, frame).0))
  {
    MapExactly(w.sys, w.sys.cr3, page, frame);
    EditKeepsSafe(w, Map(w.sys, w.sys.cr3, page, frame).0, w.sys.cr3);
  }

  lemma {:induction false} FindSafe(w: World, count: nat)
    requires Safe(w) && 1 <= count
    ensures Safe(w.(sys := FindEmptyPages(w.sys, w.sys.cr3, count).0))
  {
    FindEmptyCorrect(w.sys, w.sys.cr3, count);
    EditKeepsSafe(w, FindEmptyPages(w.sys, w.sys.cr3, count).0, w.sys.cr3);
  }

  lemma {:induction false} AutoSafe(w: World, frame: nat, order: nat)
    requires Safe(w) && frame + Pow2(order) <= MAX_FRAME
    ensures var (t, r) := AutoMap(w.sys, w.sys.cr3, frame, order); !r.Panicked? && Safe(w.(sys := t))
  {
    AutoMapCorrect(w.sys, w.sys.cr3, frame, order);
    EditKeepsSafe(w, AutoMap(w.sys, w.sys.cr3, frame, order).0, w.sys.cr3);
  }

  /** Unmapping a page of a held block: a leaf edit, then the block goes back. */
  lemma {:induction false} UnmapSafe(w: World, page: seq<Slot>, f: nat)
    requires Safe(w) && Mappable(w.sys, w.sys.cr3, page) && Lookup(w.sys.mem, w.sys.cr3, page) == Some(f)
             && MayRelease(w, f)
    ensures var (t, r) := Unmap(w.sys, w.sys.cr3, page);
            r == Done(()) && Safe(World(t, w.spaces, w.held - {f - w.sys.base}))
  {
    var s, a := w.sys, w.sys.cr3;
    var h: nat := f - s.base;
    LeafLookupAt(s.mem, a, page);
    HeldReleases(w, h);
    var p := Free(s.pool, h).value;
    var table := Follow(s.mem, a, page[..3]).value;
    Releases(s, f, table, page[3], p);
    LeafCleared(s, a, page);
    var u := s.(mem := Write(s.mem, table, page[3], 0));
    EditKeepsSafe(w, u, a);
    ReleaseKeepsTidy(w.(sys := u), p, h);
    assert Erase(s, p, table, page[3]) == u.(pool := p);
  }

  lemma {:induction false} HeldReleases(w: World, h: nat)
    requires Tidy(w) && h in w.held && OrderMatch(w.sys.pool, h, w.held[h])
    ensures h < w.sys.pool.Size()
    ensures var r := Free(w.sys.pool, h);
            r.Some? && r.value.Size() == w.sys.pool.Size() && Inv(r.value) && Live(r.value) == Live(w.sys.pool) - {h}
  {
    assert HeldOk(w, h);
    LiveInRange(w.sys.pool, h);
    FreeExactly(w.sys.pool, h);
  }

  lemma {:induction false} LeafCleared(s: Sys, a: nat, page: seq<Slot>)
    requires SpaceOk(s, a) && Mappable(s, a, page) && Follow(s.mem, a, page[..3]).Some?
    ensures var u := s.(mem := Write(s.mem, Follow(s.mem, a, page[..3]).value, page[3], 0));
            SpaceOk(u, a) && Grows(s, u, a)
  {
    var path, i := page[..3], page[3];
    OrdinaryParts(path, i, []);
    assert page == path + [i] + [];
    assert Node(s.mem, a, path);
    LeafWrite(s, a, path, i, 0);
  }

  /** A page that is not mapped is only reported. */
  lemma {:induction false} UnmapMissing(s: Sys, a: nat, page: seq<Slot>)
    requires s.pool.Shaped() && Mappable(s, a, page) && Lookup(s.mem, a, page) == None
    ensures Unmap(s, a, page) == (s, Failed(NoEntry))
  {
    LeafLookupAt(s.mem, a, page);
  }

  // ----- a new address space

  /** The frame taken for a new root, held until the root is prepared. */
  lemma {:induction false} RootTaken(w: World, s1: Sys, f: nat)
    requires Safe(w) && AllocOne(w.sys) == (s1, Some(f))
    ensures w.sys.base <= f && f - w.sys.base !in w.held
    ensures Safe(World(s1, w.spaces, w.held[f - w.sys.base := 0]))
    ensures OutsideHeld(w.held, f - w.sys.base)
  {
    var h := RootFrame(w, s1, f);
    TakeKeepsTidy(w, s1.pool, h, 0);
    HoldKeepsTidy(w.(sys := s1), h, 0);
    FreeNeverHeld(w, f);
  }

  lemma {:induction false} RootFrame(w: World, s1: Sys, f: nat) returns (h: nat)
    requires Tidy(w) && AllocOne(w.sys) == (s1, Some(f))
    ensures f == w.sys.base + h && FrameFree(w.sys, f) && s1 == w.sys.(pool := s1.pool) && Inv(s1.pool)
    ensures FreeRange(w.sys.pool, h, 0) && h !in Live(w.sys.pool) && Live(s1.pool) == Live(w.sys.pool)[h := 0]
    ensures s1.pool.Size() == w.sys.pool.Size()
  {
    AllocateCorrect(w.sys.pool, 0);
    h := Allocate(w.sys.pool, 0).1.value;
    assert InBlock(h, 0, h);
  }

  /** No held block contains index x. */
  ghost predicate OutsideHeld(held: map<nat, nat>, x: int) {
    forall h :: h in held ==> !InBlock(h, held[h], x)
  }

  lemma {:induction false} FreeNeverHeld(w: World, f: nat)
    requires Tidy(w) && FrameFree(w.sys, f)
    ensures OutsideHeld(w.held, f - w.sys.base)
  {
    forall g | g in w.held ensures !InBlock(g, w.held[g], f - w.sys.base) {
      assert HeldOk(w, g);
      FreeNotHeld(w.sys, g, w.held[g], f);
    }
  }

  lemma {:induction false} DropKeepsTidy(w: World, h: nat)
    requires Tidy(w)
    ensures Tidy(w.(held := w.held - {h}))
  {
    var v := w.(held := w.held - {h});
    forall g | g in v.held ensures HeldOk(v, g) {
      assert HeldOk(w, g);
    }
  }

  /** No table lies in a held frame, and it is not free. */
  lemma {:induction false} HeldFrame(w: World, f: nat)
    requires Tidy(w) && w.sys.base <= f && f - w.sys.base in w.held && w.held[f - w.sys.base] == 0
    ensures !FrameFree(w.sys, f) && forall b :: b in w.spaces ==> !TableOf(w.sys.mem, b, f)
  {
    var h: nat := f - w.sys.base;
    assert HeldOk(w, h);
    assert InBlock(h, 0, h);
    if FrameFree(w.sys, f) {
      FreeNotHeld(w.sys, h, 0, f);
      assert false;
    }
    forall b | b in w.spaces ensures !TableOf(w.sys.mem, b, f) {
      assert NoTableIn(w.sys, b, h, 0);
    }
  }

  lemma {:induction false} NewSafe(w: World, q: nat)
    requires Safe(w) && NewInactive(w.sys, w.sys.cr3).1 == Done(Some(q))
    ensures Safe(World(NewInactive(w.sys, w.sys.cr3).0, w.spaces + {q}, w.held))
  {
    var s, a := w.sys, w.sys.cr3;
    NewTakes(s, a);
    var (s1, got) := AllocOne(s);
    var f := got.value;
    var (s2, found, r) := Keep(s1, a, f);
    var i := FirstFree(Tab(s.mem, a), 1);
    NewPrepares(s, s1, s2, a, f, found.value);
    KeptFrame(s, s1, s2, a, f, i, found.value);
    PreparedSafe(w, s1, s2, a, f);
  }

  lemma {:induction false} PreparedSafe(w: World, s1: Sys, s2: Sys, a: nat, f: nat)
    requires Safe(w) && a in w.spaces && AllocOne(w.sys) == (s1, Some(f))
    requires SpaceOk(s2, a) && Inv(s1.pool) && Grows(s1, s2, a) && f < MAX_FRAME
    ensures Safe(World(s2.(mem := Redirect(Clear(s2.mem, f), f, f)), w.spaces + {f}, w.held))
  {
    RootTaken(w, s1, f);
    RootHeld(w, s1, s2, a, f, f - w.sys.base);
    RootJoins(World(s2, w.spaces, w.held[f - w.sys.base := 0]), f, f - w.sys.base, w.held);
  }

  /** It stays held while the page for it is mapped. */
  lemma {:induction false} RootHeld(w: World, s1: Sys, s2: Sys, a: nat, f: nat, h: nat)
    requires Inv(w.sys.pool) && a in w.spaces && AllocOne(w.sys) == (s1, Some(f)) && h == f - w.sys.base
    requires SpaceOk(s2, a) && Inv(s1.pool) && Grows(s1, s2, a) && Safe(World(s1, w.spaces, w.held[h := 0]))
    ensures Safe(World(s2, w.spaces, w.held[h := 0])) && s2.base == w.sys.base
  {
    EditKeepsSafe(World(s1, w.spaces, w.held[h := 0]), s2, a);
  }

  /** A held frame becomes the root of an empty address space. */
  lemma {:induction false} RootJoins(w: World, f: nat, h: nat, held: map<nat, nat>)
    requires Safe(w) && f < MAX_FRAME && f == w.sys.base + h && h !in held && w.held == held[h := 0]
    requires OutsideHeld(held, h)
    ensures Safe(World(w.sys.(mem := Redirect(Clear(w.sys.mem, f), f, f)), w.spaces + {f}, held))
  {
    HeldFrame(w, f);
    DropKeepsTidy(w, h);
    assert w.held - {h} == held;
    RedirectCleared(w.sys.mem, f);
    JoinKeepsTidy(w.(held := held), Redirect(Clear(w.sys.mem, f), f, f), f);
  }

  // ----- filling another address space

  lemma {:induction false} FillSafe(w: World, q: nat, l: seq<Mapping>)
    requires Safe(w) && q in w.spaces && q != w.sys.cr3 && Pages(l) && Acceptable(w.sys, q, l)
    ensures var (t, r) := With(w.sys, w.sys.cr3, q, l); !r.Panicked? ==> Safe(w.(sys := t))
  {
    var s, a := w.sys, w.sys.cr3;
    var (s1, kept) := Override(s, a, q);
    OverrideTidy(w, q);
    var r: Result<nat> := match kept case Err(e) => Err(e) case Ok(idx) => Ok(NumberOf(idx));
    var idx := WithBegins(s, s1, a, q, l, r);
    if kept.Ok? {
      var (u, result) := MapAll(s1, q, l);
      var k := MapAllCorrect(s1, q, l);
      EditKeepsTidy(w.(sys := s1), u, q);
      WithEnds(s, s1, u, a, q, l, idx, result);
      RestoreTidy(w.(sys := u), s1, q, idx, result);
    }
  }

  lemma {:induction false} OverrideTidy(w: World, q: nat)
    requires Safe(w) && q in w.spaces && q != w.sys.cr3
    ensures ReadyFor(w.sys, w.sys.cr3, q)
    ensures var (t, kept) := Override(w.sys, w.sys.cr3, q); HalfOpen(w.(sys := t), w.sys.cr3, kept.Ok?)
  {
    var a := w.sys.cr3;
    var (s1, found, r) := Keep(w.sys, a, a);
    assert SpaceOk(s1, a) && Grows(w.sys, s1, a) && (found.Some? ==> r.Ok?) by {
      KeepCorrect(w.sys, a, a);
    }
    EditKeepsTidy(w, s1, a);
    OverrideUnfolds(w.sys, s1, a, q, found, r);
    if found.Some? {
      SelfPresent(s1.mem, w, s1, a);
      RedirectKeepsTidy(w.(sys := s1), a, q);
    }
  }

  /** While the root a is redirected, if it is, all else holds. */
  ghost predicate HalfOpen(w: World, a: nat, redirected: bool) {
    Tidy(w) && Selves(w, if redirected then a else -1) && (redirected ==> Next(w.sys.mem, a, SELF).Some?)
  }

  lemma {:induction false} SelfPresent(m: Memory, w: World, t: Sys, a: nat)
    requires m == t.mem && a in w.spaces && Selves(w.(sys := t), -1)
    ensures Next(m, a, SELF).Some?
  {
  }

  lemma {:induction false} OverrideUnfolds(s: Sys, s1: Sys, a: nat, q: nat, found: Option<seq<Slot>>, r: Result<()>)
    requires s.pool.Shaped() && Keep(s, a, s.cr3) == (s1, found, r) && (found.Some? ==> r.Ok?)
    ensures var (t, kept) := Override(s, a, q);
            kept.Ok? == found.Some? && t == if found.Some? then s1.(mem := Redirect(s1.mem, a, q)) else s1
  {
  }

  lemma {:induction false} RestoreTidy(w: World, s1: Sys, q: nat, idx: seq<Slot>, r: Result<()>)
    requires Tidy(w) && Selves(w, w.sys.cr3) && |idx| == 4 && Next(w.sys.mem, w.sys.cr3, SELF).Some?
    requires Deref(w.sys, idx).Some? ==> Deref(w.sys, idx) == Some(w.sys.cr3)
    ensures var (t, o) := WithRestored(w.sys, idx, r); !o.Panicked? ==> Safe(w.(sys := t))
  {
    var a := w.sys.cr3;
    if Deref(w.sys, idx).Some? {
      RedirectKeepsTidy(w, a, a);
    }
  }

  // ----- runs

  /** Every permitted operation keeps the invariant. */
  lemma {:induction false} StepSafe(w: World, op: Op)
    requires Safe(w) && Permitted(w, op) && Step(w, op).Some?
    ensures Safe(Step(w, op).value)
  {
    match op {
      case Alloc(order) => AllocSafe(w, order);
      case MapPage(page, frame) => MapSafe(w, page, frame);
      case UnmapPage(page) => UnmapStep(w, page);
      case FindPages(count) => FindSafe(w, count);
      case AutoMapBlock(frame, order) => AutoSafe(w, frame, order);
      case NewSpace => NewStep(w);
      case Fill(q, l) => FillSafe(w, q, l);
      case SwitchTo(q) => SwitchSafe(w, q);
    }
  }

  lemma {:induction false} UnmapStep(w: World, page: seq<Slot>)
    requires Safe(w) && Mappable(w.sys, w.sys.cr3, page)
    requires Lookup(w.sys.mem, w.sys.cr3, page).Some? ==> MayRelease(w, Lookup(w.sys.mem, w.sys.cr3, page).value)
    ensures StepUnmap(w, page).Some? && Safe(StepUnmap(w, page).value)
  {
    var f := Lookup(w.sys.mem, w.sys.cr3, page);
    var (t, r) := Unmap(w.sys, w.sys.cr3, page);
    StepUnmapIs(w, page, t, r, f);
    if f.Some? {
      UnmapSafe(w, page, f.value);
    } else {
      UnmapMissing(w.sys, w.sys.cr3, page);
    }
  }

  lemma {:induction false} StepUnmapIs(w: World, page: seq<Slot>, t: Sys, r: Outcome<()>, f: Option<nat>)
    requires w.sys.pool.Shaped() && |page| == 4 && (t, r) == Unmap(w.sys, w.sys.cr3, page)
             && f == Lookup(w.sys.mem, w.sys.cr3, page)
    ensures r.Done? && f.Some? && w.sys.base <= f.value ==>
            StepUnmap(w, page) == Some(World(t, w.spaces, w.held - {f.value - w.sys.base}))
    ensures r.Failed? ==> StepUnmap(w, page) == Some(w.(sys := t))
  {
  }

  lemma {:induction false} NewStep(w: World)
    requires Safe(w) && StepNew(w).Some?
    ensures Safe(StepNew(w).value)
  {
    var r := NewInactive(w.sys, w.sys.cr3).1;
    if r.Done? && r.value.Some? {
      NewSafe(w, r.value.value);
    } else if r.Done? {
      NewNothing(w.sys, w.sys.cr3);
    }
  }

  lemma {:induction false} NewNothing(s: Sys, a: nat)
    requires SpaceOk(s, a) && s.cr3 == a && SelfLinked(s.mem, a) && NewInactive(s, a).1 == Done(None)
    ensures NewInactive(s, a).0 == s
  {
    NewInactiveCorrect(s, a);
    AllocOneCorrect(s);
  }

  lemma {:induction false} SwitchSafe(w: World, q: nat)
    requires Safe(w) && q in w.spaces
    ensures Safe(w.(sys := Switch(w.sys, q)))
  {
    var v := w.(sys := Switch(w.sys, q));
    forall h | h in v.held ensures HeldOk(v, h) {
      assert HeldOk(w, h);
    }
  }

  /** The run is permitted and panics nowhere. */
  ghost function Run(w: World, ops: seq<Op>): (r: Option<World>)
    requires Safe(w)
    ensures r.Some? ==> Safe(r.value)
    decreases ops
  {
    if ops == [] then Some(w)
    else if !Permitted(w, ops[0]) then None
    else
      match Step(w, ops[0])
      case None => None
      case Some(v) => StepSafe(w, ops[0]); Run(v, ops[1..])
  }

  /** A single sound address space, active. */
  ghost predicate Start(s: Sys) {
    SpaceOk(s, s.cr3) && SelfLinked(s.mem, s.cr3) && s.cr3 < MAX_FRAME
  }

  lemma {:induction false} StartSafe(s: Sys)
    requires Start(s)
    ensures Safe(World(s, {s.cr3}, map[]))
  {
  }

  ghost predicate Reached(s: Sys, ops: seq<Op>, w: World)
    requires Start(s)
  {
    StartSafe(s);
    Run(World(s, {s.cr3}, map[]), ops) == Some(w)
  }

  /** In every state a run reaches from a single sound address space, tables at any two places, in whatever
      address spaces, are different frames; none is free or inside a block a client holds. */
  lemma {:induction false} NeverAliased(s: Sys, ops: seq<Op>, w: World, b: nat, c: nat, x: seq<Slot>, y: seq<Slot>)
    requires Start(s) && Reached(s, ops, w)
    requires b in w.spaces && c in w.spaces && Node(w.sys.mem, b, x) && Node(w.sys.mem, c, y)
    ensures w.sys.pool.Shaped() && !FrameFree(w.sys, At(w.sys.mem, b, x))
    ensures At(w.sys.mem, b, x) == At(w.sys.mem, c, y) ==> b == c && x == y
    ensures forall h :: h in w.held ==> !InBlock(h, w.held[h], At(w.sys.mem, b, x) - w.sys.base)
  {
    StartSafe(s);
    assert Safe(w);
    SafeApart(w, b, c, x, y);
  }

  lemma {:induction false} SafeApart(w: World, b: nat, c: nat, x: seq<Slot>, y: seq<Slot>)
    requires Tidy(w) && b in w.spaces && c in w.spaces && Node(w.sys.mem, b, x) && Node(w.sys.mem, c, y)
    ensures !FrameFree(w.sys, At(w.sys.mem, b, x))
    ensures At(w.sys.mem, b, x) == At(w.sys.mem, c, y) ==> b == c && x == y
    ensures forall h :: h in w.held ==> !InBlock(h, w.held[h], At(w.sys.mem, b, x) - w.sys.base)
  {
    forall h | h in w.held ensures !InBlock(h, w.held[h], At(w.sys.mem, b, x) - w.sys.base) {
      assert HeldOk(w, h);
      assert NoTableIn(w.sys, b, h, w.held[h]);
    }
    assert b != c ==> AddressSpaces.Apart(w.sys.mem, b, c);
  }
}
