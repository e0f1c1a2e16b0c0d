/**
 The free lists block by block: which block `allocate` cuts, where the halves
 it sheds go, what `free` takes out and puts in, and what `new` starts with.
 */
module BuddyLists {
  import opened Wrappers
  import opened Bits
  import opened Blocks
  import opened BuddySystem
  import opened BuddyCanon
  import opened BuddyCorrect
  import opened BuddyFree
  import opened BuddyCount
  import opened BuddyNew

  // ----- allocate

  /** Every order between the two gets the upper half of its size at the end of its list. */
  lemma {:induction false} SplitList(p: Pool, h: nat, i: nat, o: nat, k: nat)
    requires p.Shaped() && i <= o < MAX_ORDER && Aligned(h, o) && h + Pow2(o) <= p.Size() && k < MAX_ORDER
    ensures Split(p, h, i, o).lists[k] == if i <= k < o then p.lists[k] + [h + Pow2(k)] else p.lists[k]
    decreases o - i
  {
    if i < o {
      SplitBuddy(p, h, i, o);
      SplitList(Shed(p, h + Pow2(i), i), h, i + 1, o, k);
    }
  }

  /** From p to q the first block of list o was cut: all lists from r to o were empty, list o loses this block, the
      lists in between get one half each, and no other list changes. */
  ghost predicate CutFirst(p: Pool, q: Pool, r: nat, o: nat, h: nat)
    requires p.Shaped() && q.Shaped()
  {
    && r <= o < MAX_ORDER && p.lists[o] != [] && h == p.lists[o][0]
    && (forall k :: r <= k < o ==> p.lists[k] == [])
    && q.lists[o] == p.lists[o][1..]
    && (forall k :: r <= k < o ==> q.lists[k] == [h + Pow2(k)])
    && (forall k :: 0 <= k < MAX_ORDER && !(r <= k <= o) ==> q.lists[k] == p.lists[k])
  }

  /** `allocate` cuts the oldest block of the smallest stocked order that will do. */
  lemma {:induction false} AllocateLists(p: Pool, r: nat)
    requires Inv(p) && Allocate(p, r).1.Some?
    ensures exists o: nat :: CutFirst(p, Allocate(p, r).0, r, o, Allocate(p, r).1.value)
  {
    var H, o := Heads(p), FirstStocked(p, r);
    var h := p.lists[o][0];
    assert h in p.lists[o] && ListExact(p, H, o) && IsFree(p, H, h, o);
    CutBlock(p, r, o, h);
    assert CutFirst(p, Allocate(p, r).0, r, o, h);
  }

  lemma {:induction false} CutBlock(p: Pool, r: nat, o: nat, h: nat)
    requires p.Shaped() && r <= o < MAX_ORDER && o == FirstStocked(p, r) && h == p.lists[o][0]
    requires Aligned(h, o) && h + Pow2(o) <= p.Size()
    ensures Allocate(p, r).1 == Some(h) && CutFirst(p, Allocate(p, r).0, r, o, h)
  {
    assert h in p.lists[o];
    RemoveShaped(p, o, h);
    var p1 := p.Remove(o, h).SetOrder(h, r).Mark(h, true);
    assert p1.lists == p.lists[o := p.lists[o][1..]];
    assert Allocate(p, r) == (Split(p1, h, r, o), Some(h));
    CutLists(p, p1, h, r, o);
  }

  lemma {:induction false} CutLists(p: Pool, p1: Pool, h: nat, r: nat, o: nat)
    requires p.Shaped() && r <= o < MAX_ORDER && p.lists[o] != [] && h == p.lists[o][0]
    requires forall k :: r <= k < o ==> p.lists[k] == []
    requires p1.Shaped() && p1.lists == p.lists[o := p.lists[o][1..]] && Aligned(h, o) && h + Pow2(o) <= p1.Size()
    ensures CutFirst(p, Split(p1, h, r, o), r, o, h)
  {
    forall k | 0 <= k < MAX_ORDER
      ensures Split(p1, h, r, o).lists[k] ==
              if r <= k < o then [h + Pow2(k)] else if k == o then p.lists[o][1..] else p.lists[k]
    {
      SplitList(p1, h, r, o, k);
      if r <= k < o {
        assert p1.lists[k] == [];
      }
    }
  }

  /** In terms of frames: the block handed out starts a maximal free range, and no smaller maximal range would have
      been large enough. */
  lemma {:induction false} AllocateSmallest(p: Pool, r: nat)
    requires Inv(p) && Allocate(p, r).1.Some?
    ensures exists o: nat :: r <= o && MaximalRange(p, Allocate(p, r).1.value, o)
              && forall x: nat, k: nat :: r <= k < o ==> !MaximalRange(p, x, k)
  {
    AllocateLists(p, r);
    var (q, got) := Allocate(p, r);
    var o: nat :| CutFirst(p, q, r, o, got.value);
    CanonicalForm(p, Heads(p), got.value, o);
    forall x: nat, k: nat | r <= k < o ensures !MaximalRange(p, x, k) {
      CanonicalForm(p, Heads(p), x, k);
    }
  }

  /** While a maximal range of order k can serve the request, every larger free range stays whole. */
  lemma {:induction false} LargerRangesStay(p: Pool, r: nat, x: nat, k: nat, y: nat, j: nat)
    requires Inv(p) && r <= k < j < MAX_ORDER && MaximalRange(p, x, k)
    ensures FreeRange(Allocate(p, r).0, y, j) <==> FreeRange(p, y, j)
  {
    var H := Heads(p);
    CanonicalForm(p, H, x, k);
    AllocateCorrect(p, r);
    var (q, got) := Allocate(p, r);
    if got.Some? {
      OneBlockLess(p, q, got.value, r);
      if FreeRange(p, y, j) {
        AllocateLists(p, r);
        var o: nat :| CutFirst(p, q, r, o, got.value);
        var g := Cohesion(p, H, y, j);
        assert ListExact(p, H, p.order[g]);
        assert g in q.lists[p.order[g]];
        forall z | InBlock(y, j, z) ensures FreeAt(q, z) {
          assert InBlock(g, p.order[g], z);
        }
      }
    }
  }

  /** ... so that a larger request is answered after it exactly if it was before. */
  lemma {:induction false} LargerRequestsUnaffected(p: Pool, r: nat, x: nat, k: nat, j: nat)
    requires Inv(p) && r <= k < j < MAX_ORDER && MaximalRange(p, x, k)
    ensures Allocate(Allocate(p, r).0, j).1.Some? <==> Allocate(p, j).1.Some?
  {
    AllocateCorrect(p, r);
    AllocateCorrect(p, j);
    AllocateCorrect(Allocate(p, r).0, j);
    forall y: nat ensures FreeRange(Allocate(p, r).0, y, j) <==> FreeRange(p, y, j) {
      LargerRangesStay(p, r, x, k, y, j);
    }
  }

  // ----- free

  /** The other half, of order k, beside the aligned block of order k that contains x. */
  function OtherHalf(x: nat, k: nat): int {
    Flip(Floor(x, Pow2(k)), k)
  }

  /** x rounded down to a multiple of P. */
  function Floor(x: nat, P: nat): nat
    requires P > 0
  {
    FloorAligned(x, P);
    x - x % P
  }

  /** t is s without its entry x; the others keep their order. */
  predicate Removed(s: seq<nat>, x: int, t: seq<nat>) {
    exists i :: 0 <= i < |s| && s[i] == x && t == s[..i] + s[i + 1..]
  }

  lemma {:induction false} WithoutRemoves(s: seq<nat>, x: nat)
    requires x in s
    ensures Removed(s, x, Without(s, x))
  {
    var i := WithoutAt(s, x);
  }

  lemma {:induction false} WithoutAt(s: seq<nat>, x: nat) returns (i: nat)
    requires x in s
    ensures i < |s| && s[i] == x && Without(s, x) == s[..i] + s[i + 1..]
    decreases s
  {
    i := 0;
    if s[0] != x {
      var j := WithoutAt(s[1..], x);
      i := j + 1;
      assert s[1..][..j] == s[1..i] && s[1..][j + 1..] == s[i + 1..];
      assert [s[0]] + s[1..i] == s[..i];
    }
  }

  /** The aligned block around x is that around the start of any smaller aligned block with x. */
  lemma {:induction false} SameFloor(x: nat, lo: nat, j: nat, k: nat)
    requires j <= k && Aligned(lo, j) && InBlock(lo, j, x)
    ensures Floor(x, Pow2(k)) == Floor(lo, Pow2(k))
  {
    var base := Floor(x, Pow2(k));
    FloorAligned(x, Pow2(k));
    Nested(lo, j, base, k);
    FloorOf(base, lo, Pow2(k));
  }

  lemma {:induction false} FloorAligned(x: nat, P: nat)
    requires P > 0
    ensures x % P <= x && (x - x % P) % P == 0 && x < x - x % P + P
  {
    assert x == x / P * P + x % P;
    IsMultiple(x / P, P);
  }

  lemma {:induction false} FloorOf(base: nat, x: nat, P: nat)
    requires P > 0 && base % P == 0 && base <= x < base + P
    ensures Floor(x, P) == base
  {
    var q := MultipleOf(base, P);
    DivModUnique(x, P, q, x - base);
  }

  /** From p to q the free halves beside obj of orders i to t left their lists. */
  ghost predicate HalvesTaken(p: Pool, q: Pool, obj: nat, i: nat, t: nat)
    requires p.Shaped() && q.Shaped()
  {
    && (forall k :: 0 <= k < MAX_ORDER && i <= k < t ==> Removed(p.lists[k], OtherHalf(obj, k), q.lists[k]))
    && (forall k :: 0 <= k < MAX_ORDER && !(i <= k < t) ==> q.lists[k] == p.lists[k])
  }

  lemma {:induction false} MergeLists(p: Pool, H: set<nat>, obj: nat, i: nat)
    requires Held(p, H, obj, i) && i < MAX_ORDER && OrderMatch(p, obj, i) && !p.used[obj] && p.order[obj] == i
    ensures MergeTook(p, obj, i)
    decreases MAX_ORDER - i
  {
    HeldAligned(p, H, obj, i);
    var r := BuddyOf(p, obj, i);
    if r.Some? && !p.used[r.value] {
      var G := AbsorbTakes(p, H, obj, r.value, i);
      var (p1, obj1) := Absorb(p, obj, r.value, i);
      MergeLists(p1, G, obj1, i + 1);
      MergeTakes(p, p1, obj, obj1, i);
      assert Merge(p, obj, i) == Merge(p1, obj1, i + 1);
    }
  }

  /** What the cascade from obj at order i does to the lists. */
  ghost predicate MergeTook(p: Pool, obj: nat, i: nat)
    requires p.Shaped() && obj < p.Size()
  {
    var (q, top) := Merge(p, obj, i);
    var t := q.order[top];
    i <= t < MAX_ORDER && Aligned(top, t) && InBlock(top, t, obj) && HalvesTaken(p, q, obj, i, t)
  }

  /** One merge takes the other half out of its list, and leaves the rest of OrderMatch as it was. */
  lemma {:induction false} AbsorbTakes(p: Pool, H: set<nat>, obj: nat, b: nat, i: nat) returns (G: set<nat>)
    requires Held(p, H, obj, i) && i < MAX_ORDER && OrderMatch(p, obj, i) && !p.used[obj] && p.order[obj] == i
    requires BuddyOf(p, obj, i) == Some(b) && !p.used[b] && Aligned(obj, i)
    ensures var (p1, obj1) := Absorb(p, obj, b, i);
            && i < TOP && Held(p1, G, obj1, i + 1) && !p1.used[obj1] && p1.order[obj1] == i + 1
            && OrderMatch(p1, obj1, i + 1) && Aligned(obj1, i + 1) && InBlock(obj1, i + 1, obj)
            && Removed(p.lists[i], OtherHalf(obj, i), p1.lists[i])
            && forall k :: 0 <= k < MAX_ORDER && k != i ==> p1.lists[k] == p.lists[k]
  {
    BuddyIsHead(p, H, obj, i);
    Buddies(obj, i);
    HalfListed(p, H, obj, b, i);
    WithoutRemoves(p.lists[i], b);
    G := AbsorbKeeps(p, H, obj, b, i);
    MatchStep(p, obj, b, i);
  }

  lemma {:induction false} HalfListed(p: Pool, H: set<nat>, obj: nat, b: nat, i: nat)
    requires Held(p, H, obj, i) && i < MAX_ORDER && b in H && b < p.Size() && b != obj && !p.used[b] && p.order[b] == i
    ensures b in p.lists[i]
  {
    var v := p.SetOrder(obj, i).Mark(obj, true);
    assert ListExact(v, H, i) && IsFree(v, H, b, i);
  }

  /** One step of the cascade and the rest. */
  lemma {:induction false} MergeTakes(p: Pool, p1: Pool, obj: nat, obj1: nat, i: nat)
    requires p.Shaped() && p1.Shaped() && obj1 < p1.Size() && i < MAX_ORDER && Aligned(obj, i) && Aligned(obj1, i + 1)
    requires InBlock(obj1, i + 1, obj)
    requires Removed(p.lists[i], OtherHalf(obj, i), p1.lists[i])
    requires forall k :: 0 <= k < MAX_ORDER && k != i ==> p1.lists[k] == p.lists[k]
    requires MergeTook(p1, obj1, i + 1)
    ensures var (q, top) := Merge(p1, obj1, i + 1); var t := q.order[top];
            InBlock(top, t, obj) && HalvesTaken(p, q, obj, i, t)
  {
    var (q, top) := Merge(p1, obj1, i + 1);
    var t := q.order[top];
    Nested(obj1, i + 1, top, t);
    forall k | 0 <= k < MAX_ORDER && i <= k < t ensures Removed(p.lists[k], OtherHalf(obj, k), q.lists[k]) {
      if i < k {
        SameFloor(obj, obj1, i + 1, k);
      }
    }
  }

  /** From p to q the block top of order t, which contains the released one, was added at the end of its list, and
      the free halves it was merged with left theirs. */
  ghost predicate PutBack(p: Pool, q: Pool, obj: nat, i: nat, top: nat, t: nat)
    requires p.Shaped() && q.Shaped()
  {
    && i <= t < MAX_ORDER && Aligned(top, t) && InBlock(top, t, obj)
    && q.lists[t] == p.lists[t] + [top]
    && (forall k :: 0 <= k < MAX_ORDER && i <= k < t ==> Removed(p.lists[k], OtherHalf(obj, k), q.lists[k]))
    && (forall k :: 0 <= k < MAX_ORDER && !(i <= k <= t) ==> q.lists[k] == p.lists[k])
  }

  /** Under OrderMatch `free` takes the halves it merges with out of their lists, and appends the maximal free range
      around the released block to the list of its order. */
  lemma {:induction false} FreeLists(p: Pool, obj: nat)
    requires Inv(p) && obj in Live(p) && OrderMatch(p, obj, Live(p)[obj])
    ensures var r := Free(p, obj);
            r.Some? && exists top: nat, t: nat ::
              PutBack(p, r.value, obj, Live(p)[obj], top, t) && MaximalRange(r.value, top, t)
  {
    var H, i := Heads(p), p.order[obj];
    var p0 := p.Mark(obj, false);
    assert p0.SetOrder(obj, i).Mark(obj, true) == p;
    OrderMatchFrame(p, p0, obj, i);
    MergeLists(p0, H, obj, i);
    var (q, top) := Merge(p0, obj, i);
    FreeExactly(p, obj);
    var u := Free(p, obj).value;
    assert PutBack(p, u, obj, i, top, q.order[top]);
    CanonicalForm(u, Heads(u), top, q.order[top]);
  }

  // ----- how far the cascade gets, in any state

  /** The other half of order k is managed and its record does not say used. */
  predicate HalfUnused(p: Pool, x: nat, k: nat)
    requires |p.used| == p.Size()
  {
    0 <= OtherHalf(x, k) < p.Size() && !p.used[OtherHalf(x, k)]
  }

  /** The cascade from order i gets to order t: through all halves that are not used, up to the first other one. */
  predicate ClimbsTo(p: Pool, x: nat, i: nat, t: nat)
    requires |p.used| == p.Size()
  {
    && i <= t <= MAX_ORDER && (t < MAX_ORDER ==> !HalfUnused(p, x, t))
    && forall k :: i <= k < t ==> HalfUnused(p, x, k)
  }

  lemma {:induction false} HalfIsBuddy(p: Pool, x: nat, k: nat)
    requires p.Shaped() && x < p.Size() && Aligned(x, k) && k < MAX_ORDER
    ensures OtherHalf(x, k) == Flip(x, k) && 0 <= Flip(x, k)
    ensures BuddyOf(p, x, k) == if Flip(x, k) < p.Size() then Some(Flip(x, k)) else None
  {
    XorFlips(x, k);
    Buddies(x, k);
  }

  lemma {:induction false} MergeClimbs(p: Pool, obj: nat, i: nat)
    requires p.Shaped() && obj < p.Size() && p.order[obj] == i <= MAX_ORDER && Aligned(obj, i)
    ensures Climbed(p, obj, i, Merge(p, obj, i).0, Merge(p, obj, i).1)
    decreases MAX_ORDER - i
  {
    if i < MAX_ORDER {
      HalfIsBuddy(p, obj, i);
      if HalfUnused(p, obj, i) {
        var (p1, obj1) := Absorb(p, obj, Flip(obj, i), i);
        Buddies(obj, i);
        MergeClimbs(p1, obj1, i + 1);
        var (q, top) := Merge(p1, obj1, i + 1);
        ClimbsOn(p, p1, obj, obj1, i, q.order[top], top);
      }
    }
  }

  ghost predicate Climbed(p: Pool, obj: nat, i: nat, q: Pool, top: nat)
    requires p.Shaped() && top < q.Size()
  {
    ClimbsTo(p, obj, i, q.order[top]) && Aligned(top, q.order[top]) && InBlock(top, q.order[top], obj)
  }

  lemma {:induction false} ClimbsOn(p: Pool, p1: Pool, obj: nat, obj1: nat, i: nat, t: nat, top: nat)
    requires p.Shaped() && p1.Shaped() && p1.used == p.used && HalfUnused(p, obj, i) && ClimbsTo(p1, obj1, i + 1, t)
    requires Aligned(obj1, i + 1) && InBlock(obj1, i + 1, obj) && Aligned(top, t) && InBlock(top, t, obj1)
    ensures ClimbsTo(p, obj, i, t) && InBlock(top, t, obj)
  {
    Nested(obj1, i + 1, top, t);
    forall k | i + 1 <= k <= t ensures HalfUnused(p, obj, k) <==> HalfUnused(p1, obj1, k) {
      SameFloor(obj, obj1, i + 1, k);
    }
  }

  /** Whatever the records and lists hold: `free` of an aligned object merges up to the first order at which the other
      half is used or not managed. It panics exactly when there is none below 15, and otherwise appends the aligned
      block of that order around the object. */
  lemma {:induction false} FreeClimbs(p: Pool, obj: nat)
    requires p.Shaped() && obj < p.Size() && p.order[obj] < MAX_ORDER && Aligned(obj, p.order[obj])
    ensures exists t: nat :: ClimbsTo(p, obj, p.order[obj], t) && FreeEnds(Free(p, obj), obj, t)
  {
    var p0, i := p.Mark(obj, false), p.order[obj];
    MergeClimbs(p0, obj, i);
    var (q, top) := Merge(p0, obj, i);
    var t := q.order[top];
    forall k | i <= k <= t ensures HalfUnused(p0, obj, k) <==> HalfUnused(p, obj, k) {
      OtherThan(obj, k);
    }
    FloorAligned(obj, Pow2(t));
    SameFloor(obj, top, t, t);
    assert FreeEnds(Free(p, obj), obj, t);
  }

  lemma {:induction false} OtherThan(x: nat, k: nat)
    ensures OtherHalf(x, k) != x
  {
    FloorAligned(x, Pow2(k));
    Buddies(Floor(x, Pow2(k)), k);
  }

  ghost predicate FreeEnds(r: Option<Pool>, obj: nat, t: nat) {
    match r
    case None => t == MAX_ORDER
    case Some(q) =>
      && t < MAX_ORDER && q.Shaped() && q.lists[t] != [] && q.lists[t][|q.lists[t]| - 1] == Floor(obj, Pow2(t))
      && Floor(obj, Pow2(t)) < q.Size() && q.order[Floor(obj, Pow2(t))] == t
  }

  // ----- new

  /** `count` consecutive blocks of P frames from x on. */
  function Row(x: nat, P: nat, count: nat): (s: seq<nat>)
    ensures |s| == count
    decreases count
  {
    if count == 0 then [] else [x] + Row(x + P, P, count - 1)
  }

  lemma {:induction false} RowAt(x: nat, P: nat, count: nat, j: nat)
    requires j < count
    ensures Row(x, P, count)[j] == x + j * P
    decreases count
  {
    if 0 < j {
      RowAt(x + P, P, count - 1, j - 1);
      assert (j - 1) * P + P == j * P;
    }
  }

  /** From p to q, and from frame x to frame y, the inner loop added as many blocks of P frames as fit. */
  predicate Filled(p: Pool, q: Pool, x: nat, y: nat, o: nat, P: nat)
    requires p.Shaped() && x <= p.Size() && o < MAX_ORDER && P > 0
  {
    var left: nat := p.Size() - x;
    q.lists == p.lists[o := p.lists[o] + Row(x, P, left / P)] && p.Size() - y == left % P
  }

  lemma {:induction false} FillOrderLists(p: Pool, x: nat, o: nat, P: nat)
    requires p.Shaped() && x <= p.Size() && o < MAX_ORDER && P == Pow2(o)
    ensures Filled(p, FillOrder(p, x, o).0, x, FillOrder(p, x, o).1, o, P)
    decreases p.Size() - x
  {
    if P <= p.Size() - x {
      DivStep(p.Size() - x, P);
      FillOrderLists(Shed(p, x, o), x + P, o, P);
      RowLists(p.lists, o, x, P, (p.Size() - x) / P);
    } else {
      DivModUnique(p.Size() - x, P, 0, p.Size() - x);
      assert p.lists[o] + [] == p.lists[o];
    }
  }

  lemma {:induction false} RowLists(lists: seq<seq<nat>>, o: nat, x: nat, P: nat, count: nat)
    requires o < |lists| && 0 < count
    ensures var a := lists[o := lists[o] + [x]];
            a[o := a[o] + Row(x + P, P, count - 1)] == lists[o := lists[o] + Row(x, P, count)]
  {
    assert lists[o] + [x] + Row(x + P, P, count - 1) == lists[o] + Row(x, P, count);
  }

  /** Below the top order a list holds the block of its bit in the number n of frames, if it is set, behind the blocks
      of all higher bits; the top list holds the rest, from frame 0 on. */
  ghost predicate NewList(n: nat, o: nat, s: seq<nat>) {
    if o == TOP then |s| == n / Pow2(TOP) && forall j :: 0 <= j < |s| ==> s[j] == j * Pow2(TOP)
    else s == if n / Pow2(o) % 2 == 1 then [Floor(n, Pow2(o + 1))] else []
  }

  /** As many blocks of order o as fit into the last `rest` frames. */
  ghost predicate FirstBlocks(n: nat, o: nat, rest: nat)
    requires rest <= n
  {
    NewList(n, o, Row(n - rest, Pow2(o), Fitting(rest, Pow2(o))))
  }

  function Fitting(rest: nat, P: nat): nat
    requires P > 0
  {
    rest / P
  }

  /** The list of one order, where `rest` frames are left for it. */
  lemma {:induction false} OrderList(n: nat, o: nat, rest: nat)
    requires o < MAX_ORDER && rest == (if o == TOP then n else n % Pow2(o + 1)) && rest <= n
    ensures FirstBlocks(n, o, rest)
  {
    GreedyStep(n, o, rest);
    if o == TOP {
      TopRow(Pow2(TOP), n / Pow2(TOP));
    } else {
      ShortRow(n - rest, Pow2(o), n / Pow2(o) % 2);
    }
  }

  lemma {:induction false} TopRow(P: nat, count: nat)
    ensures forall j :: 0 <= j < count ==> Row(0, P, count)[j] == j * P
  {
    forall j | 0 <= j < count ensures Row(0, P, count)[j] == j * P {
      RowAt(0, P, count, j);
    }
  }

  lemma {:induction false} ShortRow(x: nat, P: nat, bit: nat)
    requires bit < 2
    ensures Row(x, P, bit) == if bit == 1 then [x] else []
  {
    assert Row(x + P, P, 0) == [];
  }

  lemma {:induction false} FillLists(p: Pool, x: nat, k: nat, o: nat)
    requires p.Shaped() && x <= p.Size() && k <= MAX_ORDER && o < MAX_ORDER
    requires p.Size() - x == if k == MAX_ORDER then p.Size() else p.Size() % Pow2(k)
    requires forall j :: 0 <= j < k ==> p.lists[j] == []
    ensures if o < k then NewList(p.Size(), o, Fill(p, x, k).0.lists[o]) else Fill(p, x, k).0.lists[o] == p.lists[o]
    decreases k
  {
    if k != 0 {
      var i: nat := k - 1;
      var (q, y) := FillOrder(p, x, i);
      OneOrder(p, x, i, q, y);
      FillLists(q, y, i, o);
      FillUnfold(p, x, i, q, y);
    }
  }

  lemma {:induction false} OneOrder(p: Pool, x: nat, i: nat, q: Pool, y: nat)
    requires p.Shaped() && x <= p.Size() && i < MAX_ORDER && (q, y) == FillOrder(p, x, i) && p.lists[i] == []
    requires p.Size() - x == if i == TOP then p.Size() else p.Size() % Pow2(i + 1)
    ensures NewList(p.Size(), i, q.lists[i]) && p.Size() - y == p.Size() % Pow2(i)
    ensures forall k :: 0 <= k < MAX_ORDER && k != i ==> q.lists[k] == p.lists[k]
  {
    FillOrderLists(p, x, i, Pow2(i));
    GreedyStep(p.Size(), i, p.Size() - x);
    OrderList(p.Size(), i, p.Size() - x);
  }

  /** The lists `new` builds, in order. */
  lemma {:induction false} NewLists(order: seq<nat>, used: seq<bool>, o: nat)
    requires |order| == |used| && o < MAX_ORDER
    ensures NewList(|order|, o, New(order, used).lists[o])
  {
    FillLists(Blank(order, used), 0, MAX_ORDER, o);
  }
}
