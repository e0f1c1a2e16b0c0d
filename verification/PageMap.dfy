/**
 `map` over tables taken from the buddy allocator, written as a direct edit of
 the tree of tables.
 */
module PageMap {
  import opened Wrappers
  import opened Blocks
  import opened BuddySystem
  import opened BuddyCanon
  import opened BuddyCorrect
  import opened BuddyCount
  import opened PageTables
  import opened PageLink

  datatype Error = NoPageTable | AlreadyMapped | NoEntry

  datatype Result<+T> = Ok(value: T) | Err(error: Error)

  /** Memory, the root the processor walks from, the allocator and its first frame number. */
  datatype Sys = Sys(mem: Memory, cr3: nat, pool: Pool, base: nat)

  // ----- operations

  function AllocOne(s: Sys): (r: (Sys, Option<nat>))
    requires s.pool.Shaped()
    ensures r.0.pool.Shaped()
  {
    var (q, got) := Allocate(s.pool, 0);
    (s.(pool := q), match got case None => None case Some(h) => Some(s.base + h))
  }

  /** `next_level_table_create_mut` on table t. */
  function CreateNext(s: Sys, t: nat, i: Slot): (r: (Sys, Option<nat>))
    requires s.pool.Shaped()
    ensures r.0.pool.Shaped()
  {
    var next := Next(s.mem, t, i);
    if next.Some? then (s, next)
    else
      var (s1, got) := AllocOne(s);
      match got
      case None => (s1, None)
      case Some(f) =>
        var s2 := s1.(mem := Write(s1.mem, t, i, Link(Entry(s1.mem, t, i), f)));
        match Next(s2.mem, t, i)
        case None => (s2, None)
        case Some(g) => (s2.(mem := Write(Clear(s2.mem, g), g, SELF, Writable(Link(0, f)))), Some(g))
  }

  /** Down from t along the path, creating what is missing. */
  function Descend(s: Sys, t: nat, path: seq<Slot>): (r: (Sys, Option<nat>))
    requires s.pool.Shaped()
    ensures r.0.pool.Shaped()
    decreases path
  {
    if path == [] then (s, Some(t))
    else
      var (s1, next) := CreateNext(s, t, path[0]);
      match next
      case None => (s1, None)
      case Some(g) => Descend(s1, g, path[1..])
  }

  function Map(s: Sys, q: nat, idx: seq<Slot>, frame: nat): (r: (Sys, Result<()>))
    requires s.pool.Shaped() && |idx| == 4
    ensures r.0.pool.Shaped()
  {
    var (s1, table) := Descend(s, q, idx[..3]);
    match table
    case None => (s1, Err(NoPageTable))
    case Some(t) =>
      var w := Entry(s1.mem, t, idx[3]);
      if !IsPresent(w) then (s1.(mem := Write(s1.mem, t, idx[3], Link(w, frame))), Ok(()))
      else (s1, Err(AlreadyMapped))
  }

  // ----- the invariant

  /** Frame f is managed and free. */
  ghost predicate FrameFree(s: Sys, f: nat)
    requires s.pool.Shaped()
  {
    FreeAt(s.pool, f - s.base)
  }

  /** The allocator is sound and its frames are addressable. */
  ghost predicate PoolOk(s: Sys) {
    Inv(s.pool) && s.base + s.pool.Size() <= MAX_FRAME
  }

  /** The tables of q form a tree of well-formed tables, none of them free. */
  ghost predicate SpaceOk(s: Sys, q: nat) {
    && PoolOk(s)
    && TreeOk(s.mem, q)
    && forall a: seq<Slot> :: Node(s.mem, q, a) ==> !FrameFree(s, At(s.mem, q, a))
  }

  // ----- taking one frame

  /** From s to t at most one frame was taken from the allocator: `got`, or none exactly when none was free. */
  ghost predicate OneTaken(s: Sys, t: Sys, got: Option<nat>)
    requires Inv(s.pool)
  {
    && PoolOk(t) && t.mem == s.mem && t.cr3 == s.cr3 && t.base == s.base && t.pool.Size() == s.pool.Size()
    && (got.None? <==> CountFree(s.pool) == 0)
    && (got.None? ==> t == s)
    && (got.Some? ==>
          var f := got.value;
          && FrameFree(s, f) && s.base <= f < MAX_FRAME
          && f - s.base !in Live(s.pool) && Live(t.pool) == Live(s.pool)[f - s.base := 0]
          && CountFree(t.pool) == CountFree(s.pool) - 1
          && forall g: nat :: FrameFree(t, g) <==> FrameFree(s, g) && g != f)
  }

  /** `alloc_one` fails exactly when no frame is free, and otherwise takes one free frame. */
  lemma {:induction false} AllocOneCorrect(s: Sys)
    requires PoolOk(s)
    ensures OneTaken(s, AllocOne(s).0, AllocOne(s).1)
  {
    AllocateCorrect(s.pool, 0);
    var (p, got) := Allocate(s.pool, 0);
    if got.Some? {
      FrameLess(s, p, got.value);
    } else {
      NoneFree(s.pool);
    }
  }

  /** One frame less. */
  lemma {:induction false} FrameLess(s: Sys, p: Pool, h: nat)
    requires PoolOk(s) && Inv(p) && p.Size() == s.pool.Size() && FreeRange(s.pool, h, 0)
    requires h !in Live(s.pool) && Live(p) == Live(s.pool)[h := 0]
    ensures OneTaken(s, s.(pool := p), Some(s.base + h))
  {
    assert FreeAt(s.pool, h) && h < s.pool.Size() by {
      assert InBlock(h, 0, h);
      FreeXorOccupied(s.pool, h);
    }
    FrameGone(s, p, h);
    assert CountFree(p) >= 0 by {
      NoneFree(p);
    }
  }

  lemma {:induction false} FrameGone(s: Sys, p: Pool, h: nat)
    requires Inv(s.pool) && Inv(p) && p.Size() == s.pool.Size()
    requires h !in Live(s.pool) && Live(p) == Live(s.pool)[h := 0]
    ensures CountFree(p) == CountFree(s.pool) - 1
    ensures forall g: nat :: FrameFree(s.(pool := p), g) <==> FrameFree(s, g) && g != s.base + h
  {
    OneBlockLess(s.pool, p, h, 0);
    forall g: nat ensures FrameFree(s.(pool := p), g) <==> FrameFree(s, g) && g != s.base + h {
      assert InBlock(h, 0, g - s.base) <==> g == s.base + h;
    }
  }

  lemma {:induction false} NoneFree(p: Pool)
    requires Inv(p)
    ensures CountFree(p) >= 0
    ensures CountFree(p) == 0 <==> !exists x: nat :: FreeRange(p, x, 0)
  {
    CountIsFreeFrames(p);
    if x: nat :| FreeRange(p, x, 0) {
      assert InBlock(x, 0, x);
      FreeXorOccupied(p, x);
      assert x in FreeFrames(p);
    } else {
      forall y ensures y !in FreeFrames(p) {
        if y in FreeFrames(p) {
          assert Aligned(y, 0) && forall z :: InBlock(y, 0, z) ==> z == y;
          assert FreeRange(p, y, 0);
        }
      }
      assert FreeFrames(p) == {};
    }
  }

  // ----- how an address space may change

  /** From s to t the address space q only gained tables, all from free frames and with their self slots; nothing
      was given back; every frame that was neither free nor a table of q keeps its contents, every frame that changed
      is a table of q now, and self slots stay. */
  ghost predicate Grows(s: Sys, t: Sys, q: nat)
    requires Inv(s.pool) && Inv(t.pool)
  {
    && (forall h :: h in Live(s.pool) ==> h in Live(t.pool) && Live(t.pool)[h] == Live(s.pool)[h])
    && t.cr3 == s.cr3 && t.base == s.base && t.pool.Size() == s.pool.Size()
    && (forall r: seq<Slot> :: Node(s.mem, q, r) ==> Node(t.mem, q, r) && At(t.mem, q, r) == At(s.mem, q, r))
    && (forall r: seq<Slot> :: Node(t.mem, q, r) && !Node(s.mem, q, r) ==> NewTable(s, t, At(t.mem, q, r)))
    && (forall g: nat :: !FrameFree(s, g) && !TableOf(s.mem, q, g) ==> Tab(t.mem, g) == Tab(s.mem, g))
    && (forall g: nat :: Tab(t.mem, g) != Tab(s.mem, g) ==> TableOf(t.mem, q, g))
    && (forall g: nat :: !FrameFree(s, g) ==> Entry(t.mem, g, SELF) == Entry(s.mem, g, SELF))
    && (forall g: nat :: FrameFree(t, g) ==> FrameFree(s, g))
    && (forall r: seq<Slot> :: Ordinary(r) && |r| <= 3 && HugeFree(s.mem, q, r) ==> HugeFree(t.mem, q, r))
  }

  /** Frame f was free and is a table with a self slot now. */
  ghost predicate NewTable(s: Sys, t: Sys, f: nat)
    requires Inv(s.pool) && Inv(t.pool)
  {
    FrameFree(s, f) && !FrameFree(t, f) && IsPresent(Entry(t.mem, f, SELF))
  }

  /** Every last-level table has its self slot. */
  ghost predicate Looped(m: Memory, q: nat) {
    forall r: seq<Slot> :: Node(m, q, r) && |r| == 3 ==> IsPresent(Entry(m, At(m, q, r), SELF))
  }

  lemma {:induction false} LoopedKept(s: Sys, t: Sys, q: nat)
    requires SpaceOk(s, q) && Inv(t.pool) && Grows(s, t, q) && Looped(s.mem, q)
    ensures Looped(t.mem, q)
  {
    forall r: seq<Slot> | Node(t.mem, q, r) && |r| == 3 ensures IsPresent(Entry(t.mem, At(t.mem, q, r), SELF)) {
      if Node(s.mem, q, r) {
        assert !FrameFree(s, At(s.mem, q, r));
      }
    }
  }

  lemma {:induction false} GrowsRefl(s: Sys, q: nat)
    requires Inv(s.pool)
    ensures Grows(s, s, q)
  {
  }

  lemma {:induction false} GrowsTrans(s: Sys, t: Sys, u: Sys, q: nat)
    requires Inv(s.pool) && Inv(t.pool) && Inv(u.pool)
    requires Grows(s, t, q) && Grows(t, u, q)
    ensures Grows(s, u, q)
  {
    forall g: nat | !FrameFree(s, g) && !TableOf(s.mem, q, g) ensures Tab(u.mem, g) == Tab(s.mem, g) {
      assert !TableOf(t.mem, q, g);
    }
    forall r: seq<Slot> | Node(u.mem, q, r) && !Node(s.mem, q, r) ensures NewTable(s, u, At(u.mem, q, r)) {
      if Node(t.mem, q, r) {
        assert NewTable(s, t, At(t.mem, q, r));
      } else {
        assert NewTable(t, u, At(u.mem, q, r));
      }
    }
    forall g: nat | Tab(u.mem, g) != Tab(s.mem, g) ensures TableOf(u.mem, q, g) {
      if Tab(t.mem, g) != Tab(s.mem, g) {
        var a: seq<Slot> :| Node(t.mem, q, a) && At(t.mem, q, a) == g;
        assert Node(u.mem, q, a);
      }
    }
  }

  // ----- creating tables

  /** One step down: afterwards the table exists, unless no frame was left. */
  lemma {:induction false} CreateNextCorrect(s: Sys, q: nat, p: seq<Slot>, i: Slot)
    requires SpaceOk(s, q) && Node(s.mem, q, p) && |p| <= 2 && i != SELF
    requires HugeFree(s.mem, At(s.mem, q, p), [i])
    ensures var (t, next) := CreateNext(s, At(s.mem, q, p), i);
            && SpaceOk(t, q) && Grows(s, t, q) && SamePages(s.mem, t.mem, q)
            && (next.None? <==> Next(s.mem, At(s.mem, q, p), i).None? && CountFree(s.pool) == 0)
            && (next.None? ==> t == s)
            && (next.Some? ==> Follow(t.mem, q, p + [i]) == next)
            && (next.Some? ==>
                  CountFree(t.pool) == CountFree(s.pool) - if Next(s.mem, At(s.mem, q, p), i).None? then 1 else 0)
            && (next.Some? && Next(s.mem, At(s.mem, q, p), i).None? ==>
                Tab(t.mem, next.value) == ZeroTable()[SELF := Writable(Link(0, next.value))])
  {
    var tab := At(s.mem, q, p);
    FollowOne(s.mem, q, p, i);
    if Next(s.mem, tab, i).Some? {
      GrowsRefl(s, q);
    } else {
      AllocOneCorrect(s);
      var (s1, got) := AllocOne(s);
      if got.Some? {
        CreateLinks(s, q, p, i, s1, got.value);
      } else {
        GrowsRefl(s, q);
      }
    }
  }

  lemma {:induction false} CreateLinks(s: Sys, q: nat, p: seq<Slot>, i: Slot, s1: Sys, f: nat)
    requires SpaceOk(s, q) && Node(s.mem, q, p) && |p| <= 2 && i != SELF
    requires !IsPresent(Entry(s.mem, At(s.mem, q, p), i))
    requires AllocOne(s) == (s1, Some(f))
    ensures var t := s1.(mem := Linked(s.mem, At(s.mem, q, p), i, f));
            && CreateNext(s, At(s.mem, q, p), i) == (t, Some(f))
            && SpaceOk(t, q) && Grows(s, t, q) && SamePages(s.mem, t.mem, q)
            && Follow(t.mem, q, p + [i]) == Some(f)
            && Tab(t.mem, f) == ZeroTable()[SELF := Writable(Link(0, f))]
  {
    AllocTakes(s, s1, f);
    FreshFrame(s, q, p, i, f);
    var m, tab := s.mem, At(s.mem, q, p);
    var t := s1.(mem := Linked(m, tab, i, f));
    assert CreateNext(s, tab, i) == (t, Some(f)) by {
      LinkZero(f);
      assert WordOk(Entry(m, At(m, q, p), i));
    }
    assert SpaceOk(t, q) && Grows(s, t, q) by {
      LinkedTree(m, q, p, i, f);
      LinkGrows(s, q, p, i, s1, t, f);
    }
    LinkedPath(m, q, p, i, f);
    forall idx: seq<Slot> | |idx| == 4 && Ordinary(idx) ensures Lookup(t.mem, q, idx) == Lookup(m, q, idx) {
      LinkedLookup(m, q, p, i, f, idx);
    }
    LinkAgrees(m, q, p, i, f);
    LinkedEntries(m, tab, i, f);
  }

  /** From s to s1 frame f was taken from the allocator. */
  ghost predicate Taken(s: Sys, s1: Sys, f: nat)
    requires Inv(s.pool)
  {
    && PoolOk(s1) && s1 == s.(pool := s1.pool) && s1.pool.Size() == s.pool.Size()
    && FrameFree(s, f) && s.base <= f < MAX_FRAME
    && f - s.base !in Live(s.pool) && Live(s1.pool) == Live(s.pool)[f - s.base := 0]
    && forall g: nat :: FrameFree(s1, g) <==> FrameFree(s, g) && g != f
  }

  lemma {:induction false} AllocTakes(s: Sys, s1: Sys, f: nat)
    requires PoolOk(s) && AllocOne(s) == (s1, Some(f))
    ensures Taken(s, s1, f)
  {
    AllocOneCorrect(s);
  }

  lemma {:induction false} SamePool(s: Sys, t: Sys)
    requires s.pool.Shaped() && t == s.(mem := t.mem)
    ensures PoolOk(t) == PoolOk(s) && forall g: nat :: FrameFree(t, g) <==> FrameFree(s, g)
  {
  }

  /** A frame that was free is no table. */
  lemma {:induction false} FreshFrame(s: Sys, q: nat, p: seq<Slot>, i: Slot, f: nat)
    requires SpaceOk(s, q) && FrameFree(s, f) && f < MAX_FRAME && i != SELF
    requires Node(s.mem, q, p) && |p| <= 2 && !IsPresent(Entry(s.mem, At(s.mem, q, p), i))
    ensures Creatable(s.mem, q, p, i, f)
  {
  }

  lemma {:induction false} LinkHugeFree(m: Memory, q: nat, p: seq<Slot>, i: Slot, f: nat, r: seq<Slot>)
    requires Creatable(m, q, p, i, f) && Ordinary(r) && |r| <= 3 && HugeFree(m, q, r)
    ensures HugeFree(Linked(m, At(m, q, p), i, f), q, r)
  {
    LinkAgrees(m, q, p, i, f);
    LinkedEntries(m, At(m, q, p), i, f);
    LinkZero(f);
    assert WordOk(Entry(m, At(m, q, p), i));
    RootHugeFree(m, Linked(m, At(m, q, p), i, f), q, p, i, r);
  }

  lemma {:induction false} LinkGrows(s: Sys, q: nat, p: seq<Slot>, i: Slot, s1: Sys, t: Sys, f: nat)
    requires SpaceOk(s, q) && Creatable(s.mem, q, p, i, f) && Taken(s, s1, f)
    requires t == s1.(mem := Linked(s.mem, At(s.mem, q, p), i, f)) && TreeOk(t.mem, q)
    ensures Grows(s, t, q) && SpaceOk(t, q)
  {
    SamePool(s1, t);
    LinkNodes(s.mem, q, p, i, f);
    LinkFrames(s.mem, q, p, i, f);
    forall r: seq<Slot> | Node(t.mem, q, r)
      ensures !FrameFree(t, At(t.mem, q, r)) && (!Node(s.mem, q, r) ==> NewTable(s, t, At(t.mem, q, r)))
    {
      LinkedNode(s, q, p, i, s1, t, f, r);
    }
    forall r: seq<Slot> | Ordinary(r) && |r| <= 3 && HugeFree(s.mem, q, r) ensures HugeFree(t.mem, q, r) {
      LinkHugeFree(s.mem, q, p, i, f, r);
    }
  }

  lemma {:induction false} LinkedNode(s: Sys, q: nat, p: seq<Slot>, i: Slot, s1: Sys, t: Sys, f: nat, r: seq<Slot>)
    requires SpaceOk(s, q) && Creatable(s.mem, q, p, i, f) && Taken(s, s1, f)
    requires t == s1.(mem := Linked(s.mem, At(s.mem, q, p), i, f)) && Node(t.mem, q, r)
    ensures !FrameFree(t, At(t.mem, q, r)) && (!Node(s.mem, q, r) ==> NewTable(s, t, At(t.mem, q, r)))
  {
    SamePool(s1, t);
    LinkNodes(s.mem, q, p, i, f);
    LinkSelf(s.mem, q, p, i, f);
    assert Node(s.mem, q, r) ==> !FrameFree(s, At(s.mem, q, r));
  }

  lemma {:induction false} LinkSelf(m: Memory, q: nat, p: seq<Slot>, i: Slot, f: nat)
    requires Creatable(m, q, p, i, f)
    ensures IsPresent(Entry(Linked(m, At(m, q, p), i, f), f, SELF))
  {
    LinkAgrees(m, q, p, i, f);
    LinkedEntries(m, At(m, q, p), i, f);
    LinkZero(f);
  }

  lemma {:induction false} LinkNodes(m: Memory, q: nat, p: seq<Slot>, i: Slot, f: nat)
    requires Creatable(m, q, p, i, f)
    ensures var n := Linked(m, At(m, q, p), i, f);
            && (forall r: seq<Slot> :: Node(m, q, r) ==> Node(n, q, r) && At(n, q, r) == At(m, q, r))
            && (forall r: seq<Slot> :: Node(n, q, r) ==> At(n, q, r) == f || Node(m, q, r))
  {
    var n := Linked(m, At(m, q, p), i, f);
    LinkedPath(m, q, p, i, f);
    forall r: seq<Slot> | Ordinary(r) && |r| <= 3
      ensures Node(m, q, r) ==> Node(n, q, r) && At(n, q, r) == At(m, q, r)
      ensures Node(n, q, r) ==> At(n, q, r) == f || Node(m, q, r)
    {
      LinkedFollow(m, q, p, i, f, r);
    }
  }

  lemma {:induction false} LinkFrames(m: Memory, q: nat, p: seq<Slot>, i: Slot, f: nat)
    requires Creatable(m, q, p, i, f)
    ensures var n := Linked(m, At(m, q, p), i, f);
            && (forall g: nat :: g != f && !TableOf(m, q, g) ==> Tab(n, g) == Tab(m, g))
            && (forall g: nat :: Tab(n, g) != Tab(m, g) ==> TableOf(n, q, g))
            && (forall g: nat :: g != f ==> Entry(n, g, SELF) == Entry(m, g, SELF))
  {
    var tab := At(m, q, p);
    LinkAgrees(m, q, p, i, f);
    LinkedEntries(m, tab, i, f);
    assert TableOf(m, q, tab);
    LinkNodes(m, q, p, i, f);
    LinkedPath(m, q, p, i, f);
    var n := Linked(m, tab, i, f);
    assert Node(n, q, p) && At(n, q, p) == tab;
    NodeBelow(n, q, p, i, [i]);
    assert Node(n, q, p + [i]) && At(n, q, p + [i]) == f;
  }

  /** One step of a way down, and what the rest of it needs. */
  lemma {:induction false} DescendStep(s: Sys, q: nat, p: seq<Slot>, path: seq<Slot>)
    requires SpaceOk(s, q) && Node(s.mem, q, p) && |p| + |path| <= 3 && Ordinary(path) && path != []
    requires HugeFree(s.mem, At(s.mem, q, p), path)
    ensures path[0] != SELF && HugeFree(s.mem, At(s.mem, q, p), [path[0]])
    ensures var (t, next) := CreateNext(s, At(s.mem, q, p), path[0]); var k := Missing(s.mem, At(s.mem, q, p), path);
            && SpaceOk(t, q) && Grows(s, t, q) && SamePages(s.mem, t.mem, q)
            && (next.Some? ==>
                  && Node(t.mem, q, p + [path[0]]) && At(t.mem, q, p + [path[0]]) == next.value
                  && Ordinary(path[1..]) && HugeFree(t.mem, next.value, path[1..])
                  && k == CountFree(s.pool) - CountFree(t.pool) + Missing(t.mem, next.value, path[1..]))
            && (next.None? ==> Descend(s, At(s.mem, q, p), path) == (s, None) && CountFree(s.pool) == 0 < k)
  {
    var i, tab := path[0], At(s.mem, q, p);
    assert forall k :: 0 <= k < |path| - 1 ==> path[1..][k] == path[k + 1];
    assert HugeFree(s.mem, tab, [i]);
    CreateNextCorrect(s, q, p, i);
    var (s1, next) := CreateNext(s, tab, i);
    if next.Some? {
      if Next(s.mem, tab, i).None? {
        FreshBelow(s1.mem, next.value, path[1..]);
      }
      NodeBelow(s1.mem, q, p, i, path);
    }
  }

  /** The outcome of the way down from p: all tables exist afterwards, unless the free frames did not suffice. */
  ghost predicate Descended(s: Sys, q: nat, p: seq<Slot>, path: seq<Slot>, t: Sys, next: Option<nat>)
    requires Inv(s.pool) && Node(s.mem, q, p)
  {
    var k := Missing(s.mem, At(s.mem, q, p), path);
    && SpaceOk(t, q) && Grows(s, t, q) && SamePages(s.mem, t.mem, q)
    && (next.Some? <==> k <= CountFree(s.pool))
    && CountFree(t.pool) == (if next.Some? then CountFree(s.pool) - k else 0)
    && (next.Some? ==> Follow(t.mem, q, p + path) == next)
  }

  lemma {:induction false} DescendCorrect(s: Sys, q: nat, p: seq<Slot>, path: seq<Slot>)
    requires SpaceOk(s, q) && Node(s.mem, q, p) && |p| + |path| <= 3 && Ordinary(path)
    requires HugeFree(s.mem, At(s.mem, q, p), path)
    ensures Descended(s, q, p, path, Descend(s, At(s.mem, q, p), path).0, Descend(s, At(s.mem, q, p), path).1)
    decreases path
  {
    NoneFree(s.pool);
    if path == [] {
      GrowsRefl(s, q);
      assert p + path == p;
    } else {
      DescendStep(s, q, p, path);
      var (s1, next) := CreateNext(s, At(s.mem, q, p), path[0]);
      if next.Some? {
        DescendCorrect(s1, q, p + [path[0]], path[1..]);
        var (t, last) := Descend(s1, next.value, path[1..]);
        DescendedThrough(s, s1, q, p, path, t, last);
      } else {
        GrowsRefl(s, q);
      }
    }
  }

  lemma {:induction false} DescendedThrough(s: Sys, s1: Sys, q: nat, p: seq<Slot>, path: seq<Slot>, t: Sys,
                                            last: Option<nat>)
    requires Inv(s.pool) && SpaceOk(s1, q) && Node(s.mem, q, p) && path != [] && Node(s1.mem, q, p + [path[0]])
    requires Grows(s, s1, q) && SamePages(s.mem, s1.mem, q) && Descended(s1, q, p + [path[0]], path[1..], t, last)
    requires Missing(s.mem, At(s.mem, q, p), path) ==
             CountFree(s.pool) - CountFree(s1.pool) + Missing(s1.mem, At(s1.mem, q, p + [path[0]]), path[1..])
    ensures Descended(s, q, p, path, t, last)
  {
    GrowsTrans(s, s1, t, q);
    PrefixStep(p, path);
  }

  lemma {:induction false} NodeBelow(m: Memory, q: nat, p: seq<Slot>, i: Slot, path: seq<Slot>)
    requires Ordinary(p) && |p| <= 2 && i != SELF && path != [] && path[0] == i && Follow(m, q, p + [i]).Some?
    ensures Node(m, q, p + [i]) && p + path == (p + [i]) + path[1..]
  {
    assert p + [i] + [] == p + [i];
    OrdinaryParts(p, i, []);
  }

  // ----- map

  /** The page idx of q can be reached without meeting a huge page. */
  predicate Mappable(s: Sys, q: nat, idx: seq<Slot>) {
    |idx| == 4 && Ordinary(idx) && HugeFree(s.mem, q, idx[..3])
  }

  /** Only the first three indices matter on the way to the table. */
  predicate Reachable(s: Sys, q: nat, idx: seq<Slot>) {
    |idx| == 4 && Ordinary(idx[..3]) && HugeFree(s.mem, q, idx[..3])
  }

  /** ... and the last one may be the self slot, if last-level tables have theirs. */
  ghost predicate Addressable(s: Sys, q: nat, idx: seq<Slot>) {
    Reachable(s, q, idx) && (idx[3] == SELF ==> Looped(s.mem, q))
  }

  lemma {:induction false} OrdinaryIs(idx: seq<Slot>)
    requires |idx| == 4
    ensures Ordinary(idx) <==> Ordinary(idx[..3]) && idx[3] != SELF
  {
    OrdinaryParts(idx[..3], idx[3], []);
    assert idx[..3] + [idx[3]] + [] == idx;
    assert Ordinary([]);
  }

  /** The outcome, the translations and the cost of `map`. */
  ghost predicate Mapped(s: Sys, q: nat, idx: seq<Slot>, frame: nat, t: Sys, r: Result<()>)
    requires Inv(s.pool) && |idx| == 4
  {
    var k := Missing(s.mem, q, idx[..3]);
    && SpaceOk(t, q) && Grows(s, t, q)
    && (r == Err(NoPageTable) <==> CountFree(s.pool) < k)
    && (r == Err(AlreadyMapped) <==> k <= CountFree(s.pool) && Lookup(s.mem, q, idx).Some?)
    && (r == Ok(()) <==> k <= CountFree(s.pool) && Lookup(s.mem, q, idx).None?)
    && (forall page: seq<Slot> :: |page| == 4 && Ordinary(page) ==>
          Lookup(t.mem, q, page) == if r.Ok? && page == idx then Some(frame) else Lookup(s.mem, q, page))
    && CountFree(t.pool) == if k <= CountFree(s.pool) then CountFree(s.pool) - k else 0
  }

  /** Outcome, translations and cost of `map`, exactly: it runs out of frames exactly when fewer are free than tables
      are missing; otherwise it is refused exactly when the page is mapped, and else changes just this page. */
  lemma {:induction false} MapCorrect(s: Sys, q: nat, idx: seq<Slot>, frame: nat)
    requires SpaceOk(s, q) && Mappable(s, q, idx) && frame < MAX_FRAME
    ensures Mapped(s, q, idx, frame, Map(s, q, idx, frame).0, Map(s, q, idx, frame).1)
  {
    OrdinaryIs(idx);
    DescendMapped(s, q, idx);
    var (s1, table) := Descend(s, q, idx[..3]);
    if table.Some? {
      assert idx[..3] + [idx[3]] == idx;
      MapLeaf(s, s1, q, idx[..3], idx[3], table.value, frame);
    }
  }

  /** The outcome, the translations and the cost of `map` for any last index. */
  ghost predicate MappedAt(s: Sys, q: nat, idx: seq<Slot>, frame: nat, t: Sys, r: Result<()>)
    requires Inv(s.pool) && |idx| == 4
  {
    var k := Missing(s.mem, q, idx[..3]);
    && SpaceOk(t, q) && Grows(s, t, q)
    && (r == Err(NoPageTable) <==> CountFree(s.pool) < k)
    && (r == Err(AlreadyMapped) <==> k <= CountFree(s.pool) && (idx[3] == SELF || Lookup(s.mem, q, idx).Some?))
    && (r == Ok(()) <==> k <= CountFree(s.pool) && idx[3] != SELF && Lookup(s.mem, q, idx).None?)
    && (forall page: seq<Slot> :: |page| == 4 && Ordinary(page) ==>
          Lookup(t.mem, q, page) == if r.Ok? && page == idx then Some(frame) else Lookup(s.mem, q, page))
    && CountFree(t.pool) == if k <= CountFree(s.pool) then CountFree(s.pool) - k else 0
  }

  /** Every last-level table maps itself at its self slot, so that a page with this last index is refused even if its
      table is made by the same call. */
  lemma {:induction false} MapSelf(s: Sys, q: nat, idx: seq<Slot>, frame: nat)
    requires SpaceOk(s, q) && Reachable(s, q, idx) && idx[3] == SELF && Looped(s.mem, q)
    ensures MappedAt(s, q, idx, frame, Map(s, q, idx, frame).0, Map(s, q, idx, frame).1)
  {
    DescendMapped(s, q, idx);
    var (s1, table) := Descend(s, q, idx[..3]);
    LoopedKept(s, s1, q);
    if table.Some? {
      assert Node(s1.mem, q, idx[..3]) && At(s1.mem, q, idx[..3]) == table.value;
    }
  }

  /** `map` for any last index, exactly. */
  lemma {:induction false} MapExactly(s: Sys, q: nat, idx: seq<Slot>, frame: nat)
    requires SpaceOk(s, q) && Addressable(s, q, idx) && frame < MAX_FRAME
    ensures MappedAt(s, q, idx, frame, Map(s, q, idx, frame).0, Map(s, q, idx, frame).1)
  {
    if idx[3] == SELF {
      MapSelf(s, q, idx, frame);
    } else {
      OrdinaryIs(idx);
      MapCorrect(s, q, idx, frame);
    }
  }

  // ----- an index of a self slot above the last level

  /** Where all tables exist the way down changes nothing. */
  lemma {:induction false} DescendExisting(s: Sys, t: nat, path: seq<Slot>)
    requires s.pool.Shaped() && Follow(s.mem, t, path).Some?
    ensures Descend(s, t, path) == (s, Follow(s.mem, t, path))
    decreases path
  {
    if path != [] {
      DescendExisting(s, Next(s.mem, t, path[0]).value, path[1..]);
    }
  }

  /** `map` of a page whose third index is that of the self slot stays at the level-2 table and writes the frame into
      one of its entries, as if it were a table: the pages below this entry, unmapped before, now translate to whatever
      the contents of the frame say. */
  lemma {:induction false} MisplacedLeaf(s: Sys, q: nat, p: seq<Slot>, d: Slot, frame: nat, x: Slot)
    requires SpaceOk(s, q) && Node(s.mem, q, p) && |p| == 2 && frame < MAX_FRAME && d != SELF
    requires Next(s.mem, At(s.mem, q, p), SELF) == Some(At(s.mem, q, p)) && !IsPresent(Entry(s.mem, At(s.mem, q, p), d))
    ensures var (t, r) := Map(s, q, p + [SELF, d], frame); var w := Entry(t.mem, frame, x);
            && r == Ok(()) && t == s.(mem := Write(s.mem, At(s.mem, q, p), d, Link(0, frame)))
            && Lookup(s.mem, q, p + [d, x]) == None
            && Lookup(t.mem, q, p + [d, x]) == if IsPresent(w) then Some(FrameOf(w)) else None
  {
    var tab, idx := At(s.mem, q, p), p + [SELF, d];
    assert idx[..3] == p + [SELF] && idx[3] == d;
    FollowOne(s.mem, q, p, SELF);
    DescendExisting(s, q, idx[..3]);
    assert WordOk(Entry(s.mem, At(s.mem, q, p), d));
    MisplacedPages(s.mem, q, p, d, frame, x);
  }

  lemma {:induction false} MisplacedPages(m: Memory, q: nat, p: seq<Slot>, d: Slot, frame: nat, x: Slot)
    requires TreeOk(m, q) && Node(m, q, p) && |p| == 2 && frame < MAX_FRAME && d != SELF
    requires !IsPresent(Entry(m, At(m, q, p), d))
    ensures var n := Write(m, At(m, q, p), d, Link(0, frame)); var w := Entry(n, frame, x);
            && Lookup(m, q, p + [d, x]) == None
            && Lookup(n, q, p + [d, x]) == if IsPresent(w) then Some(FrameOf(w)) else None
  {
    var tab := At(m, q, p);
    var n := Write(m, tab, d, Link(0, frame));
    LeafAgrees(m, q, p, d, Link(0, frame));
    PathKept(m, n, q, p, d, p);
    LookupAppend(m, q, p, tab, [d, x]);
    LookupAppend(n, q, p, tab, [d, x]);
    LinkZero(frame);
    assert [d, x][1..] == [x];
  }

  /** The way down from the root to the table of a page. */
  lemma {:induction false} DescendMapped(s: Sys, q: nat, idx: seq<Slot>)
    requires SpaceOk(s, q) && Reachable(s, q, idx)
    ensures Node(s.mem, q, []) && At(s.mem, q, []) == q
    ensures var (t, table) := Descend(s, q, idx[..3]); var k := Missing(s.mem, q, idx[..3]);
            && SpaceOk(t, q) && Grows(s, t, q) && SamePages(s.mem, t.mem, q)
            && (table.Some? <==> k <= CountFree(s.pool))
            && CountFree(t.pool) == (if table.Some? then CountFree(s.pool) - k else 0)
            && (table.Some? ==> Node(t.mem, q, idx[..3]) && At(t.mem, q, idx[..3]) == table.value)
  {
    var root: seq<Slot> := [];
    assert Node(s.mem, q, root) && At(s.mem, q, root) == q;
    assert root + idx[..3] == idx[..3];
    DescendCorrect(s, q, root, idx[..3]);
  }

  lemma {:induction false} MapLeaf(s: Sys, s1: Sys, q: nat, path: seq<Slot>, i: Slot, tab: nat, frame: nat)
    requires SpaceOk(s1, q) && Inv(s.pool) && Grows(s, s1, q) && SamePages(s.mem, s1.mem, q)
    requires |path| == 3 && Ordinary(path) && i != SELF && Follow(s1.mem, q, path) == Some(tab) && frame < MAX_FRAME
    ensures Lookup(s.mem, q, path + [i]).Some? <==> IsPresent(Entry(s1.mem, tab, i))
    ensures !IsPresent(Entry(s1.mem, tab, i)) ==>
              var t := s1.(mem := Write(s1.mem, tab, i, Link(Entry(s1.mem, tab, i), frame)));
              && SpaceOk(t, q) && Grows(s, t, q)
              && forall page: seq<Slot> :: |page| == 4 && Ordinary(page) ==>
                   Lookup(t.mem, q, page) == if page == path + [i] then Some(frame) else Lookup(s.mem, q, page)
  {
    var idx := path + [i];
    OrdinaryParts(path, i, []);
    assert idx + [] == idx;
    LookupAppend(s1.mem, q, path, tab, [i]);
    assert Node(s1.mem, q, path) && At(s1.mem, q, path) == tab;
    var w := Entry(s1.mem, tab, i);
    assert WordOk(Entry(s1.mem, At(s1.mem, q, path), i));
    if !IsPresent(w) {
      LinkZero(frame);
      LeafWrite(s1, q, path, i, Link(w, frame));
      var t := s1.(mem := Write(s1.mem, tab, i, Link(w, frame)));
      GrowsTrans(s, s1, t, q);
      forall page: seq<Slot> | |page| == 4 && Ordinary(page)
        ensures Lookup(t.mem, q, page) == if page == idx then Some(frame) else Lookup(s.mem, q, page)
      {
        LeafLookup(s1.mem, q, path, i, Link(w, frame), page);
      }
    }
  }

  /** Writing a leaf keeps the invariant. */
  lemma {:induction false} LeafWrite(s: Sys, q: nat, p: seq<Slot>, i: Slot, w: nat)
    requires SpaceOk(s, q) && Node(s.mem, q, p) && |p| == 3 && i != SELF && WordOk(w)
    ensures var t := s.(mem := Write(s.mem, At(s.mem, q, p), i, w)); SpaceOk(t, q) && Grows(s, t, q)
  {
    var tab := At(s.mem, q, p);
    var t := s.(mem := Write(s.mem, tab, i, w));
    LeafNodes(s.mem, q, p, i, w);
    LeafTree(s.mem, q, p, i, w);
    LeafFrames(s.mem, q, p, i, w);
    forall a: seq<Slot> | Node(t.mem, q, a) ensures !FrameFree(t, At(t.mem, q, a)) {
      assert !FrameFree(s, At(s.mem, q, a));
    }
  }

  lemma {:induction false} LeafFrames(m: Memory, q: nat, p: seq<Slot>, i: Slot, w: nat)
    requires TreeOk(m, q) && Node(m, q, p) && |p| == 3 && i != SELF
    ensures var n := Write(m, At(m, q, p), i, w);
            && (forall g: nat :: !TableOf(m, q, g) ==> Tab(n, g) == Tab(m, g))
            && (forall g: nat :: Tab(n, g) != Tab(m, g) ==> TableOf(n, q, g))
            && (forall g: nat :: Entry(n, g, SELF) == Entry(m, g, SELF))
  {
    var tab := At(m, q, p);
    assert TableOf(m, q, tab);
    LeafNodes(m, q, p, i, w);
    assert Node(Write(m, tab, i, w), q, p) && TableOf(Write(m, tab, i, w), q, tab);
  }

  lemma {:induction false} LeafNodes(m: Memory, q: nat, p: seq<Slot>, i: Slot, w: nat)
    requires TreeOk(m, q) && Node(m, q, p) && |p| == 3
    ensures var n := Write(m, At(m, q, p), i, w);
            && (forall r: seq<Slot> :: Node(m, q, r) ==> Node(n, q, r) && At(n, q, r) == At(m, q, r))
            && (forall r: seq<Slot> :: Node(n, q, r) ==> Node(m, q, r) && At(n, q, r) == At(m, q, r))
            && (forall r: seq<Slot> :: Ordinary(r) && |r| <= 3 && HugeFree(m, q, r) ==> HugeFree(n, q, r))
  {
    var n := Write(m, At(m, q, p), i, w);
    LeafAgrees(m, q, p, i, w);
    forall r: seq<Slot> | Ordinary(r) && |r| <= 3 ensures Follow(n, q, r) == Follow(m, q, r) {
      LeafFollow(m, q, p, i, w, r);
    }
    forall r: seq<Slot> | Ordinary(r) && |r| <= 3 && HugeFree(m, q, r) ensures HugeFree(n, q, r) {
      RootHugeFree(m, n, q, p, i, r);
    }
  }
}
