/**
 What the memory manager never writes to: over whole runs, blocks while a
 client holds them, and frames outside the allocator that are no tables.
 */
module Bystanders {
  import opened Wrappers
  import opened Blocks
  import opened BuddySystem
  import opened BuddyCorrect
  import opened BuddyCount
  import opened PageTables
  import opened PageLink
  import opened PageMap
  import opened PageScan
  import opened PageOps
  import opened PageUnmap
  import opened AddressSpaces
  import opened SpaceSteps
  import opened PageRun

  /** Frame g is neither free nor a table. */
  ghost predicate Bystander(w: World, g: nat)
    requires PoolOk(w.sys)
  {
    !FrameFree(w.sys, g) && forall b :: b in w.spaces ==> !TableOf(w.sys.mem, b, g)
  }

  /** From w to v frame g kept its contents and is no table still. */
  ghost predicate Spares(w: World, v: World, g: nat) {
    && v.sys.base == w.sys.base && v.sys.pool.Size() == w.sys.pool.Size()
    && Tab(v.sys.mem, g) == Tab(w.sys.mem, g)
    && forall b :: b in v.spaces ==> !TableOf(v.sys.mem, b, g)
  }

  // ----- single edits

  lemma {:induction false} SameTableOf(m: Memory, n: Memory, b: nat, g: nat)
    requires SameSpace(m, n, b) && !TableOf(m, b, g)
    ensures !TableOf(n, b, g)
  {
    forall a: seq<Slot> | Node(n, b, a) ensures At(n, b, a) != g {
      assert Node(m, b, a) && At(m, b, a) == At(n, b, a);
    }
  }

  lemma {:induction false} EditSpares(w: World, t: Sys, q: nat, g: nat)
    requires Tidy(w) && q in w.spaces && SpaceOk(t, q) && Grows(w.sys, t, q) && Bystander(w, g)
    ensures Spares(w, w.(sys := t), g) && !FrameFree(t, g)
  {
    forall b | b in w.spaces ensures !TableOf(t.mem, b, g) {
      if b == q {
        NewTablesWereFree(w.sys, t, q, g);
      } else {
        EditKeepsOne(w, t, q, b);
        SameTableOf(w.sys.mem, t.mem, b, g);
      }
    }
  }

  lemma {:induction false} NewTablesWereFree(s: Sys, t: Sys, q: nat, g: nat)
    requires Inv(s.pool) && Inv(t.pool) && Grows(s, t, q) && !FrameFree(s, g) && !TableOf(s.mem, q, g)
    ensures !TableOf(t.mem, q, g)
  {
    forall a: seq<Slot> | Node(t.mem, q, a) ensures At(t.mem, q, a) != g {
      if Node(s.mem, q, a) {
        assert At(s.mem, q, a) == At(t.mem, q, a);
      } else {
        assert NewTable(s, t, At(t.mem, q, a));
      }
    }
  }

  lemma {:induction false} RedirectSpares(w: World, a: nat, f: nat, g: nat)
    requires Tidy(w) && a in w.spaces && f < MAX_FRAME && Next(w.sys.mem, a, SELF).Some? && Bystander(w, g)
    ensures Spares(w, w.(sys := w.sys.(mem := Redirect(w.sys.mem, a, f))), g)
  {
    var s, t := w.sys, w.sys.(mem := Redirect(w.sys.mem, a, f));
    RootIsTable(s.mem, a);
    RedirectedRoot(s, a, f);
    forall b | b in w.spaces ensures !TableOf(t.mem, b, g) {
      RedirectSpace(s, t, a, b);
      SameTableOf(s.mem, t.mem, b, g);
    }
  }

  /** A fresh root in another frame. */
  lemma {:induction false} JoinSpares(w: World, n: Memory, f: nat, g: nat)
    requires Tidy(w) && f < MAX_FRAME && !FrameFree(w.sys, f) && IsFresh(Tab(n, f), f) && g != f
    requires forall x: nat :: x != f ==> Tab(n, x) == Tab(w.sys.mem, x)
    requires forall b :: b in w.spaces ==> !TableOf(w.sys.mem, b, f) && !TableOf(w.sys.mem, b, g)
    ensures Spares(w, World(w.sys.(mem := n), w.spaces + {f}, w.held), g)
  {
    FreshSpace(w.sys.(mem := n), f);
    forall b | b in w.spaces + {f} ensures !TableOf(n, b, g) {
      if b in w.spaces {
        JoinKeepsOne(w, n, f, b);
      }
      JoinedTable(w.sys.mem, n, f, b, g);
    }
  }

  lemma {:induction false} JoinedTable(m: Memory, n: Memory, f: nat, b: nat, g: nat)
    requires g != f
    requires b != f ==> !TableOf(m, b, g)
    requires b != f ==> forall a: seq<Slot> :: Node(n, b, a) ==> Node(m, b, a) && At(n, b, a) == At(m, b, a)
    requires b == f ==> forall u: seq<Slot> :: Node(n, f, u) ==> u == []
    ensures !TableOf(n, b, g)
  {
    forall a: seq<Slot> | Node(n, b, a) ensures At(n, b, a) != g {
      assert b != f ==> Node(m, b, a) && At(m, b, a) == At(n, b, a);
    }
  }

  // ----- operations

  lemma {:induction false} UnmapSpares(w: World, page: seq<Slot>, g: nat)
    requires Safe(w) && Permitted(w, UnmapPage(page)) && Bystander(w, g)
    ensures var v := StepUnmap(w, page); v.Some? ==> Spares(w, v.value, g)
  {
    var s, a := w.sys, w.sys.cr3;
    LeafLookupAt(s.mem, a, page);
    UnmapStep(w, page);
    if Lookup(s.mem, a, page).Some? {
      LeafCleared(s, a, page);
      var u := s.(mem := Write(s.mem, Follow(s.mem, a, page[..3]).value, page[3], 0));
      EditSpares(w, u, a, g);
      UnmapErases(w, page, u);
    } else {
      UnmapMissing(s, a, page);
    }
  }

  /** Unmapping is the edit of the leaf and a change of the allocator. */
  lemma {:induction false} UnmapErases(w: World, page: seq<Slot>, u: Sys)
    requires Safe(w) && Permitted(w, UnmapPage(page)) && Lookup(w.sys.mem, w.sys.cr3, page).Some?
    requires Follow(w.sys.mem, w.sys.cr3, page[..3]).Some?
    requires u == w.sys.(mem := Write(w.sys.mem, Follow(w.sys.mem, w.sys.cr3, page[..3]).value, page[3], 0))
    ensures var v := StepUnmap(w, page);
            v.Some? && v.value.sys == u.(pool := v.value.sys.pool) && v.value.spaces == w.spaces
            && v.value.sys.pool.Size() == w.sys.pool.Size()
  {
    var s, a := w.sys, w.sys.cr3;
    var f := Lookup(s.mem, a, page).value;
    var h: nat := f - s.base;
    LeafLookupAt(s.mem, a, page);
    HeldReleases(w, h);
    Releases(s, f, Follow(s.mem, a, page[..3]).value, page[3], Free(s.pool, h).value);
    StepUnmapIs(w, page, Unmap(s, a, page).0, Unmap(s, a, page).1, Some(f));
  }

  lemma {:induction false} NewSpares(w: World, g: nat)
    requires Safe(w) && Bystander(w, g)
    ensures var v := StepNew(w); v.Some? ==> Spares(w, v.value, g)
  {
    var s, a := w.sys, w.sys.cr3;
    var (t, r) := NewInactive(s, a);
    if r == Done(None) {
      NewNothing(s, a);
    } else if r.Done? {
      NewTakes(s, a);
      var (s1, got) := AllocOne(s);
      var f := got.value;
      var (s2, found, o) := Keep(s1, a, f);
      NewPrepares(s, s1, s2, a, f, found.value);
      KeptFrame(s, s1, s2, a, f, FirstFree(Tab(s.mem, a), 1), found.value);
      PrepareIs(s2, found.value, f);
      RootSpares(w, s1, s2, a, f, g);
      NewIs(w, t, f);
    }
  }

  lemma {:induction false} NewIs(w: World, t: Sys, f: nat)
    requires w.sys.pool.Shaped() && NewInactive(w.sys, w.sys.cr3) == (t, Done(Some(f)))
    ensures StepNew(w) == Some(World(t, w.spaces + {f}, w.held))
  {
  }

  lemma {:induction false} RootSpares(w: World, s1: Sys, s2: Sys, a: nat, f: nat, g: nat)
    requires Safe(w) && a in w.spaces && AllocOne(w.sys) == (s1, Some(f)) && Bystander(w, g)
    requires SpaceOk(s2, a) && Inv(s1.pool) && Grows(s1, s2, a) && f < MAX_FRAME
    ensures Spares(w, World(s2.(mem := Redirect(Clear(s2.mem, f), f, f)), w.spaces + {f}, w.held), g)
  {
    var w2 := TakenSpares(w, s1, s2, a, f, g);
    HeldJoins(w2, f, g, w.held);
  }

  /** A held frame becomes the root of an empty address space. */
  lemma {:induction false} HeldJoins(w: World, f: nat, g: nat, held: map<nat, nat>)
    requires Tidy(w) && w.sys.base <= f < MAX_FRAME && f - w.sys.base in w.held && w.held[f - w.sys.base] == 0
    requires g != f && forall b :: b in w.spaces ==> !TableOf(w.sys.mem, b, g)
    ensures Spares(w, World(w.sys.(mem := Redirect(Clear(w.sys.mem, f), f, f)), w.spaces + {f}, held), g)
  {
    HeldFrame(w, f);
    RedirectCleared(w.sys.mem, f);
    JoinSpares(w, Redirect(Clear(w.sys.mem, f), f, f), f, g);
  }

  /** While the frame for the new root is held. */
  lemma {:induction false} TakenSpares(w: World, s1: Sys, s2: Sys, a: nat, f: nat, g: nat) returns (w2: World)
    requires Safe(w) && a in w.spaces && AllocOne(w.sys) == (s1, Some(f)) && Bystander(w, g)
    requires SpaceOk(s2, a) && Inv(s1.pool) && Grows(s1, s2, a)
    ensures Tidy(w2) && w2.sys == s2 && w2.spaces == w.spaces && w2.sys.base <= f && g != f && Spares(w, w2, g)
    ensures f - w2.sys.base in w2.held && w2.held[f - w2.sys.base] == 0
  {
    RootTaken(w, s1, f);
    var h: nat := f - w.sys.base;
    AllocOneCorrect(w.sys);
    EditSpares(World(s1, w.spaces, w.held[h := 0]), s2, a, g);
    RootHeld(w, s1, s2, a, f, h);
    w2 := World(s2, w.spaces, w.held[h := 0]);
  }

  lemma {:induction false} FillSpares(w: World, q: nat, l: seq<Mapping>, g: nat)
    requires Safe(w) && q in w.spaces && q != w.sys.cr3 && Pages(l) && Acceptable(w.sys, q, l) && Bystander(w, g)
    ensures var (t, r) := With(w.sys, w.sys.cr3, q, l); !r.Panicked? ==> Spares(w, w.(sys := t), g)
  {
    var s, a := w.sys, w.sys.cr3;
    var (s1, kept) := Override(s, a, q);
    OverrideTidy(w, q);
    OverrideSpares(w, q, g);
    var r: Result<nat> := match kept case Err(e) => Err(e) case Ok(idx) => Ok(NumberOf(idx));
    var idx := WithBegins(s, s1, a, q, l, r);
    if kept.Ok? {
      var (u, result) := MapAll(s1, q, l);
      var k := MapAllCorrect(s1, q, l);
      EditKeepsTidy(w.(sys := s1), u, q);
      EditSpares(w.(sys := s1), u, q, g);
      WithEnds(s, s1, u, a, q, l, idx, result);
      RestoreSpares(w.(sys := u), s1, idx, result, g);
    }
  }

  lemma {:induction false} OverrideSpares(w: World, q: nat, g: nat)
    requires Safe(w) && q in w.spaces && q != w.sys.cr3 && Bystander(w, g)
    ensures var t := Override(w.sys, w.sys.cr3, q).0; Spares(w, w.(sys := t), g) && !FrameFree(t, g)
  {
    var a := w.sys.cr3;
    var (s1, found, r) := Keep(w.sys, a, a);
    assert SpaceOk(s1, a) && Grows(w.sys, s1, a) && (found.Some? ==> r.Ok?) by {
      KeepCorrect(w.sys, a, a);
    }
    EditKeepsTidy(w, s1, a);
    EditSpares(w, s1, a, g);
    OverrideUnfolds(w.sys, s1, a, q, found, r);
    if found.Some? {
      SelfPresent(s1.mem, w, s1, a);
      RedirectSpares(w.(sys := s1), a, q, g);
    }
  }

  lemma {:induction false} RestoreSpares(w: World, s1: Sys, idx: seq<Slot>, r: Result<()>, g: nat)
    requires Tidy(w) && |idx| == 4 && Next(w.sys.mem, w.sys.cr3, SELF).Some? && Bystander(w, g)
    requires Deref(w.sys, idx).Some? ==> Deref(w.sys, idx) == Some(w.sys.cr3)
    ensures var (t, o) := WithRestored(w.sys, idx, r); !o.Panicked? ==> Spares(w, w.(sys := t), g)
  {
    if Deref(w.sys, idx).Some? {
      RedirectSpares(w, w.sys.cr3, w.sys.cr3, g);
    }
  }

  /** No permitted operation writes to a frame that is neither free nor a table, or makes it a table. */
  lemma {:induction false} StepSpares(w: World, op: Op, g: nat)
    requires Safe(w) && Permitted(w, op) && Step(w, op).Some? && Bystander(w, g)
    ensures Spares(w, Step(w, op).value, g)
  {
    var s, a := w.sys, w.sys.cr3;
    match op {
      case Alloc(order) => AllocateCorrect(s.pool, order);
      case MapPage(page, frame) =>
        MapExactly(s, a, page, frame);
        EditSpares(w, Map(s, a, page, frame).0, a, g);
      case UnmapPage(page) => UnmapSpares(w, page, g);
      case FindPages(count) =>
        FindEmptyCorrect(s, a, count);
        EditSpares(w, FindEmptyPages(s, a, count).0, a, g);
      case AutoMapBlock(frame, order) =>
        AutoMapCorrect(s, a, frame, order);
        EditSpares(w, AutoMap(s, a, frame, order).0, a, g);
      case NewSpace => NewSpares(w, g);
      case Fill(q, l) => FillSpares(w, q, l, g);
      case SwitchTo(q) =>
    }
  }

  // ----- blocks that clients hold

  lemma {:induction false} HeldIsBystander(w: World, h: nat, g: nat)
    requires Tidy(w) && h in w.held && InBlock(h, w.held[h], g - w.sys.base)
    ensures Bystander(w, g)
  {
    assert HeldOk(w, h);
    if FrameFree(w.sys, g) {
      FreeNotHeld(w.sys, h, w.held[h], g);
      assert false;
    }
    forall b | b in w.spaces ensures !TableOf(w.sys.mem, b, g) {
      assert NoTableIn(w.sys, b, h, w.held[h]);
    }
  }

  /** A block that stays held keeps its order. */
  lemma {:induction false} HeldKeepsOrder(w: World, op: Op, h: nat)
    requires Safe(w) && Permitted(w, op) && Step(w, op).Some? && h in w.held && h in Step(w, op).value.held
    ensures Step(w, op).value.held[h] == w.held[h]
  {
    match op {
      case Alloc(order) =>
        AllocateCorrect(w.sys.pool, order);
        HeldIsLive(w, h);
      case UnmapPage(page) => UnmapHeld(w, page, h);
      case NewSpace => NewHeld(w);
      case _ =>
    }
  }

  lemma {:induction false} UnmapHeld(w: World, page: seq<Slot>, h: nat)
    requires w.sys.pool.Shaped() && |page| == 4
    ensures var v := StepUnmap(w, page); v.Some? && h in w.held && h in v.value.held ==> v.value.held[h] == w.held[h]
  {
  }

  lemma {:induction false} NewHeld(w: World)
    requires w.sys.pool.Shaped()
    ensures var v := StepNew(w); v.Some? ==> v.value.held == w.held
  {
  }

  /** The block is held at every point of the run. */
  ghost predicate HeldThroughout(w: World, ops: seq<Op>, h: nat)
    requires Safe(w)
    decreases ops
  {
    h in w.held
    && (ops != [] && Permitted(w, ops[0]) && Step(w, ops[0]).Some? ==>
          (StepSafe(w, ops[0]); HeldThroughout(Step(w, ops[0]).value, ops[1..], h)))
  }

  /** Over any run, whatever else happens in it, the frames of a block keep their contents while a client holds it. */
  lemma {:induction false} HeldUntouched(w: World, ops: seq<Op>, v: World, h: nat, g: nat)
    requires Safe(w) && Run(w, ops) == Some(v) && HeldThroughout(w, ops, h)
    requires InBlock(h, w.held[h], g - w.sys.base)
    ensures Tab(v.sys.mem, g) == Tab(w.sys.mem, g)
    decreases ops
  {
    if ops != [] {
      HeldStep(w, ops, h, g);
      var u :| GoesOn(w, ops, h, g, u);
      HeldUntouched(u, ops[1..], v, h, g);
    }
  }

  /** The first operation leads to u, with the block still held and frame g of it as before. */
  ghost predicate GoesOn(w: World, ops: seq<Op>, h: nat, g: nat, u: World)
    requires Safe(w) && ops != [] && h in w.held
  {
    && Safe(u) && Run(u, ops[1..]) == Run(w, ops) && HeldThroughout(u, ops[1..], h) && u.held[h] == w.held[h]
    && u.sys.base == w.sys.base && Tab(u.sys.mem, g) == Tab(w.sys.mem, g)
  }

  lemma {:induction false} HeldStep(w: World, ops: seq<Op>, h: nat, g: nat)
    requires Safe(w) && ops != [] && Run(w, ops).Some? && HeldThroughout(w, ops, h)
    requires InBlock(h, w.held[h], g - w.sys.base)
    ensures exists u :: GoesOn(w, ops, h, g, u)
  {
    var u := Step(w, ops[0]).value;
    StepSafe(w, ops[0]);
    HeldIsBystander(w, h, g);
    StepSpares(w, ops[0], g);
    HeldStays(w, ops, h);
    HeldKeepsOrder(w, ops[0], h);
    assert GoesOn(w, ops, h, g, u);
  }

  lemma {:induction false} HeldStays(w: World, ops: seq<Op>, h: nat)
    requires Safe(w) && ops != [] && HeldThroughout(w, ops, h) && Permitted(w, ops[0]) && Step(w, ops[0]).Some?
    ensures Safe(Step(w, ops[0]).value) && HeldThroughout(Step(w, ops[0]).value, ops[1..], h)
    ensures h in Step(w, ops[0]).value.held
  {
    StepSafe(w, ops[0]);
  }

  /** Over any run, a frame outside the allocator that is no table to begin with keeps its contents: the kernel's own
      image, for one. */
  lemma {:induction false} UnmanagedUntouched(w: World, ops: seq<Op>, v: World, g: nat)
    requires Safe(w) && Run(w, ops) == Some(v) && !Managed(w.sys, g)
    requires forall b :: b in w.spaces ==> !TableOf(w.sys.mem, b, g)
    ensures Tab(v.sys.mem, g) == Tab(w.sys.mem, g)
    decreases ops
  {
    if ops != [] {
      StepSafe(w, ops[0]);
      FreeXorOccupied(w.sys.pool, g - w.sys.base);
      StepSpares(w, ops[0], g);
      UnmanagedUntouched(Step(w, ops[0]).value, ops[1..], v, g);
    }
  }
}
