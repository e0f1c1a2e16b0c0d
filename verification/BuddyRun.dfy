/**
 Whole runs of the allocator: any sequence of `allocate` and permitted `free`
 calls from any initial state `new` can build.
 */
module BuddyRun {
  import opened Wrappers
  import opened Bits
  import opened Blocks
  import opened BuddySystem
  import opened BuddyCanon
  import opened BuddyCorrect
  import opened BuddyFree
  import opened BuddyCount
  import opened BuddyNew

  datatype Op = Alloc(r: nat) | Release(h: nat)

  /** The pool beside what its clients hold: head to requested order. */
  datatype Run = Run(pool: Pool, held: map<nat, nat>)

  /** One call. A block that is not held, or whose release violates OrderMatch, stops the run. */
  function Step(s: Run, op: Op): (r: Option<Run>)
    requires s.pool.Shaped()
    ensures r.Some? ==> r.value.pool.Shaped()
  {
    match op
    case Alloc(r) =>
      var (q, got) := Allocate(s.pool, r);
      Some(Run(q, if got.Some? then s.held[got.value := r] else s.held))
    case Release(h) =>
      if h in s.held && h < s.pool.Size() && OrderMatch(s.pool, h, s.held[h]) then
        match Free(s.pool, h)
        case Some(q) => Some(Run(q, s.held - {h}))
        case None => None
      else None
  }

  function Exec(s: Run, ops: seq<Op>): (r: Option<Run>)
    requires s.pool.Shaped()
    ensures r.Some? ==> r.value.pool.Shaped()
    decreases ops
  {
    if ops == [] then Some(s)
    else
      match Step(s, ops[0])
      case Some(t) => Exec(t, ops[1..])
      case None => None
  }

  ghost predicate Faithful(s: Run, n: nat) {
    Inv(s.pool) && Live(s.pool) == s.held && s.pool.Size() == n
  }

  lemma {:induction false} StepFaithful(s: Run, op: Op, n: nat)
    requires Faithful(s, n) && Step(s, op).Some?
    ensures Faithful(Step(s, op).value, n)
  {
    match op
    case Alloc(r) => AllocateCorrect(s.pool, r);
    case Release(h) => FreeExactly(s.pool, h);
  }

  lemma {:induction false} ExecFaithful(s: Run, ops: seq<Op>, n: nat)
    requires Faithful(s, n) && Exec(s, ops).Some?
    ensures Faithful(Exec(s, ops).value, n)
    decreases ops
  {
    if ops != [] {
      StepFaithful(s, ops[0], n);
      ExecFaithful(Step(s, ops[0]).value, ops[1..], n);
    }
  }

  /** A pool reached from `new` by a run, with what the clients hold. */
  ghost predicate Reachable(s: Run, n: nat) {
    exists order: seq<nat>, used: seq<bool>, ops: seq<Op> ::
      |order| == |used| == n && Exec(Run(New(order, used), map[]), ops) == Some(s)
  }

  lemma {:induction false} ReachableFaithful(s: Run, n: nat)
    requires Reachable(s, n)
    ensures Faithful(s, n)
  {
    var order: seq<nat>, used: seq<bool>, ops: seq<Op> :|
      |order| == |used| == n && Exec(Run(New(order, used), map[]), ops) == Some(s);
    NewCorrect(order, used);
    ExecFaithful(Run(New(order, used), map[]), ops, n);
  }

  /** In every reachable state the lists hold exactly the maximal free ranges, the counters are
      the list lengths, and free and held frames add up to all frames. */
  lemma {:induction false} RunInvariant(s: Run, n: nat)
    requires Reachable(s, n)
    ensures Inv(s.pool) && Live(s.pool) == s.held && s.pool.Size() == n
    ensures forall h: nat, o: nat :: o < MAX_ORDER ==> (h in s.pool.lists[o] <==> MaximalRange(s.pool, h, o))
    ensures forall o :: 0 <= o < MAX_ORDER ==> s.pool.counts[o] == |s.pool.lists[o]|
    ensures forall y: int :: FreeAt(s.pool, y) <==> 0 <= y < n && !Occupied(s.held, y)
    ensures CountFree(s.pool) + |HeldFrames(s.held, n)| == n
  {
    ReachableFaithful(s, n);
    var p := s.pool;
    forall h: nat, o: nat | o < MAX_ORDER ensures h in p.lists[o] <==> MaximalRange(p, h, o) {
      CanonicalForm(p, Heads(p), h, o);
    }
    forall o | 0 <= o < MAX_ORDER ensures p.counts[o] == |p.lists[o]| {
      assert ListExact(p, Heads(p), o);
    }
    forall y: int ensures FreeAt(p, y) <==> 0 <= y < n && !Occupied(s.held, y) {
      FreeXorOccupied(p, y);
    }
    Conserved(p);
  }

  /** Free and live frames partition the managed frames. */
  lemma {:induction false} Conserved(p: Pool)
    requires Inv(p)
    ensures CountFree(p) + |HeldFrames(Live(p), p.Size())| == p.Size()
  {
    var a, b := FreeFrames(p), HeldFrames(Live(p), p.Size());
    forall y: int ensures y in Interval(0, p.Size()) <==> y in a || y in b
                  ensures !(y in a && y in b)
    {
      FreeXorOccupied(p, y);
    }
    CountIsFreeFrames(p);
    IntervalSize(0, p.Size());
    assert a + b == Interval(0, p.Size()) && a !! b;
  }

  ghost function HeldFrames(held: map<nat, nat>, n: nat): set<int> {
    set y | 0 <= y < n && Occupied(held, y)
  }

  /** Two histories that leave the same frames held end with the same free blocks. */
  lemma {:induction false} HistoryIndependent(s: Run, t: Run, n: nat, o: nat)
    requires Reachable(s, n) && Reachable(t, n) && o < MAX_ORDER
    requires forall y :: Occupied(s.held, y) <==> Occupied(t.held, y)
    ensures multiset(s.pool.lists[o]) == multiset(t.pool.lists[o])
    ensures s.pool.counts[o] == t.pool.counts[o]
  {
    RunInvariant(s, n);
    RunInvariant(t, n);
    FreeFramesDetermineLists(s.pool, Heads(s.pool), t.pool, Heads(t.pool), o);
  }

  /** Once everything is released, the free blocks are again those `new` built. */
  lemma {:induction false} AllReleased(s: Run, n: nat, order: seq<nat>, used: seq<bool>, o: nat)
    requires Reachable(s, n) && s.held == map[] && |order| == |used| == n && o < MAX_ORDER
    ensures multiset(s.pool.lists[o]) == multiset(New(order, used).lists[o])
    ensures s.pool.counts[o] == GreedyCount(n, o)
  {
    var start := Run(New(order, used), map[]);
    assert Exec(start, []) == Some(start);
    assert Reachable(start, n);
    HistoryIndependent(s, start, n, o);
    NewCorrect(order, used);
  }

  // ----- the condition on `free` is a real restriction

  /** Three frames: allocating a pair and giving it straight back violates OrderMatch,
      because the single frame next to it counts as its buddy. */
  lemma {:induction false} PairOfThree()
    ensures exists s: Run :: Reachable(s, 3) && s.held == map[0 := 1] && !OrderMatch(s.pool, 0, 1)
  {
    var order: seq<nat>, used: seq<bool> := [0, 0, 0], [false, false, false];
    var p := New(order, used);
    NewOfThree();
    assert p.lists[1] == [0] && p.lists[0] == [2];
    var s := Run(Allocate(p, 1).0, map[0 := 1]);
    assert Pow2(1) == 2 && Xor(0, Pow2(1)) == 2;
    OneAllocation(order, used, 1, s.pool, 0);
    assert s.pool == p.Remove(1, 0).SetOrder(0, 1).Mark(0, true);
    assert BuddyOf(s.pool, 0, 1) == Some(2);
  }

  /** 2^15 frames: allocating one of the two blocks of the top order and giving it straight back merges them, and
      then the list of order 15 is missing. */
  lemma {:induction false} TwoOfTop()
    ensures exists s: Run, h: nat :: Reachable(s, 0x8000) && s.held == map[h := TOP] && h < s.pool.Size()
                                     && Free(s.pool, h) == None
  {
    var order: seq<nat>, used: seq<bool> := seq(0x8000, _ => 0), seq(0x8000, _ => false);
    var p := New(order, used);
    TopHalves(order, used);
    AllocateCorrect(p, TOP);
    var (q, got) := Allocate(p, TOP);
    var h := got.value;
    OneAllocation(order, used, TOP, q, h);
    TopMergePanics(q, h);
    assert Run(q, map[h := TOP]).held == map[h := TOP];
  }

  /** One allocation from the beginning. */
  lemma {:induction false} OneAllocation(order: seq<nat>, used: seq<bool>, r: nat, q: Pool, h: nat)
    requires |order| == |used| && Allocate(New(order, used), r) == (q, Some(h))
    ensures Reachable(Run(q, map[h := r]), |order|)
  {
    var start, s := Run(New(order, used), map[]), Run(q, map[h := r]);
    assert Exec(start, [Alloc(r)]) == Some(s) by {
      assert Step(start, Alloc(r)) == Some(s);
      assert [Alloc(r)][1..] == [];
    }
  }

  /** 2^15 frames are two blocks of the top order. */
  lemma {:induction false} TopHalves(order: seq<nat>, used: seq<bool>)
    requires |order| == |used| == 0x8000
    ensures Inv(New(order, used)) && Live(New(order, used)) == map[]
    ensures Allocate(New(order, used), TOP).1.Some?
  {
    var p := New(order, used);
    NewCorrect(order, used);
    TopSize();
    assert GreedyCount(0x8000, TOP) == 2;
    assert p.lists[TOP] != [] && FirstStocked(p, TOP) == TOP;
  }

  lemma {:induction false} TopSize()
    ensures Pow2(TOP) == 0x4000
  {
    assert Pow2(7) == 128;
    Pow2Add(7, 7);
  }

  /** `free` does not look at the state of the object itself. */
  lemma {:induction false} FreeMarked(p: Pool, h: nat)
    requires p.Shaped() && h < p.Size()
    ensures Free(p.Mark(h, false), h) == Free(p, h)
  {
    assert p.Mark(h, false).Mark(h, false) == p.Mark(h, false);
  }

  lemma {:induction false} TopMergePanics(p: Pool, h: nat)
    requires Inv(p) && Live(p) == map[h := TOP] && p.Size() == 0x8000
    ensures h < p.Size() && Free(p, h) == None
  {
    var H := Heads(p);
    assert h in Live(p);
    assert p.SetOrder(h, TOP).Mark(h, true) == p;
    var b := TopBuddy(p, H, h);
    BuddyIsHead(p, H, h, TOP);
    assert b !in Live(p);
    FreeMarked(p, h);
    MergeAtTop(p.Mark(h, false), h, b);
  }

  lemma {:induction false} TopBuddy(p: Pool, H: set<nat>, h: nat) returns (b: nat)
    requires Fits(p, H) && h in H && p.order[h] == TOP && p.Size() == 0x8000
    ensures BuddyOf(p, h, TOP) == Some(b)
  {
    TopSize();
    XorFlips(h, TOP);
    Buddies(h, TOP);
    b := Flip(h, TOP);
  }

  lemma {:induction false} MergeAtTop(p: Pool, h: nat, b: nat)
    requires p.Shaped() && h < p.Size() && b < p.Size() && p.order[h] == TOP && !p.used[h]
    requires BuddyOf(p, h, TOP) == Some(b) && !p.used[b]
    ensures Free(p, h) == None
  {
    var (q, top) := Absorb(p, h, b, TOP);
    assert BuddyOf(q, top, MAX_ORDER) == None;
    assert Merge(q, top, MAX_ORDER) == (q, top);
    assert q.order[top] == MAX_ORDER;
    assert p.Mark(h, false) == p;
  }

  lemma {:induction false} NewOfThree()
    ensures New([0, 0, 0], [false, false, false]).lists[1] == [0]
    ensures New([0, 0, 0], [false, false, false]).lists[0] == [2]
    ensures New([0, 0, 0], [false, false, false]).order == [1, 0, 0]
    ensures New([0, 0, 0], [false, false, false]).used == [false, false, false]
  {
    var b := Blank([0, 0, 0], [false, false, false]);
    FillSkips(b, MAX_ORDER);
    var b1 := Shed(b, 0, 1);
    assert FillOrder(b, 0, 1) == (b1, 2);
    assert FillOrder(b1, 2, 0) == (Shed(b1, 2, 0), 3);
  }

  lemma {:induction false} FillSkips(b: Pool, k: nat)
    requires b.Shaped() && b.Size() == 3 && 2 <= k <= MAX_ORDER
    ensures Fill(b, 0, k) == Fill(b, 0, 2)
  {
    if k > 2 {
      Pow2Mono(2, k - 1);
      FillSkips(b, k - 1);
    }
  }
}
