/**
 The merge cascade of `free`: what it keeps when every absorbed buddy has the
 order of the current step, and that nothing less will do.
 */
module BuddyFree {
  import opened Wrappers
  import opened Bits
  import opened Blocks
  import opened BuddySystem
  import opened BuddyCanon
  import opened BuddyCorrect

  /** At every step of the cascade from `obj` at order `i`, a buddy that is not used has
      the order of that step, and no merge happens at the top order. Read off the state
      before the call. */
  predicate OrderMatch(p: Pool, obj: nat, i: nat)
    requires p.Shaped()
    decreases MAX_ORDER - i
  {
    match BuddyOf(p, obj, i)
    case None => true
    case Some(b) => p.used[b] || (p.order[b] == i && i < TOP && OrderMatch(p, Min(obj, b), i + 1))
  }

  /** Under the tiling, a managed buddy of a block of order i heads a block of order at most i. */
  lemma {:induction false} BuddyIsHead(p: Pool, H: set<nat>, obj: nat, i: nat)
    requires Held(p, H, obj, i) && i < MAX_ORDER && BuddyOf(p, obj, i).Some?
    ensures var b := BuddyOf(p, obj, i).value;
            b == Flip(obj, i) && b != obj && b in H && p.order[b] <= i && Aligned(b, i)
  {
    var v := p.SetOrder(obj, i).Mark(obj, true);
    assert v.order[obj] == i && Aligned(obj, i);
    XorFlips(obj, i);
    Buddies(obj, i);
    var b := BuddyOf(p, obj, i).value;
    assert Owned(v, H, b);
    var g :| g in H && InBlock(g, v.order[g], b);
    var k := v.order[g];
    if k <= i {
      AlignedDown(b, k, i);
      SameBlock(g, b, Pow2(k));
    } else {
      var lo := Min(obj, b);
      Nested(lo, i + 1, g, k);
      assert false;
    }
  }

  lemma {:induction false} AbsorbKeeps(p: Pool, H: set<nat>, obj: nat, b: nat, i: nat) returns (G: set<nat>)
    requires Held(p, H, obj, i) && i < TOP && BuddyOf(p, obj, i) == Some(b)
    requires !p.used[obj] && !p.used[b] && p.order[b] == i
    ensures var (q, top) := Absorb(p, obj, b, i);
            && q.Size() == p.Size() && top == Min(obj, b)
            && Held(q, G, top, i + 1) && SameLive(p, H, q, G)
            && !q.used[top] && q.order[top] == i + 1
            && G <= H && q.order == p.order[top := i + 1] && q.used == p.used
  {
    BuddyIsHead(p, H, obj, i);
    Buddies(obj, i);
    var v := p.SetOrder(obj, i).Mark(obj, true);
    assert IsFree(v, H, b, i);
    Take(v, H, b);
    var v1 := v.Remove(i, b).Mark(b, true);
    var lo := Min(obj, b);
    var hi := lo + Pow2(i);
    assert v1.order[obj] == i == v1.order[b] && {obj, b} == {lo, hi};
    Join(v1, H, lo, hi, i);
    G := H - {hi};
    var (q, top) := Absorb(p, obj, b, i);
    InteriorIrrelevant(v1.SetOrder(lo, i + 1), q.SetOrder(lo, i + 1).Mark(lo, true), G);
  }

  /** OrderMatch looks only outside the block it starts from. */
  lemma {:induction false} OrderMatchFrame(p: Pool, q: Pool, x: nat, j: nat)
    requires p.Shaped() && q.Shaped() && q.Size() == p.Size() && Aligned(x, j)
    requires forall y :: 0 <= y < p.Size() && !InBlock(x, j, y) ==> q.order[y] == p.order[y] && q.used[y] == p.used[y]
    ensures OrderMatch(p, x, j) <==> OrderMatch(q, x, j)
    decreases MAX_ORDER - j
  {
    if BuddyOf(p, x, j).Some? {
      XorFlips(x, j);
      Buddies(x, j);
      OrderMatchFrame(p, q, Min(x, BuddyOf(p, x, j).value), j + 1);
    }
  }

  lemma {:induction false} MergeKeeps(p: Pool, H: set<nat>, obj: nat, i: nat) returns (G: set<nat>)
    requires Held(p, H, obj, i) && i < MAX_ORDER && OrderMatch(p, obj, i)
    requires !p.used[obj] && p.order[obj] == i
    ensures var (q, top) := Merge(p, obj, i); var j := q.order[top];
            && j < MAX_ORDER && Held(q, G, top, j) && SameLive(p, H, q, G) && !q.used[top]
            && !IsFree(q.Mark(top, true), G, Flip(top, j), j)
    decreases MAX_ORDER - i
  {
    G := H;
    var r := BuddyOf(p, obj, i);
    if r.Some? && !p.used[r.value] {
      var b := r.value;
      BuddyIsHead(p, H, obj, i);
      G := AbsorbKeeps(p, H, obj, b, i);
      var (p1, obj1) := Absorb(p, obj, b, i);
      Buddies(obj, i);
      OrderMatchFrame(p, p1, obj1, i + 1);
      G := MergeKeeps(p1, G, obj1, i + 1);
    } else {
      MergeStops(p, H, obj, i);
    }
  }

  lemma {:induction false} MergeStops(p: Pool, H: set<nat>, obj: nat, i: nat)
    requires Held(p, H, obj, i) && i < MAX_ORDER && p.order[obj] == i
    requires var r := BuddyOf(p, obj, i); r.None? || p.used[r.value]
    ensures Merge(p, obj, i) == (p, obj) && !IsFree(p.Mark(obj, true), H, Flip(obj, i), i)
  {
    XorFlips(obj, i);
  }

  lemma {:induction false} FreeKeeps(p: Pool, H: set<nat>, obj: nat) returns (G: set<nat>)
    requires InvOn(p, H) && obj in H && p.used[obj] && OrderMatch(p, obj, p.order[obj])
    ensures var r := Free(p, obj);
            && r.Some? && r.value.Size() == p.Size() && InvOn(r.value, G)
            && forall g: nat, o: nat :: IsLive(r.value, G, g, o) <==> IsLive(p, H, g, o) && g != obj
  {
    var p0, i := p.Mark(obj, false), p.order[obj];
    assert p0.SetOrder(obj, i).Mark(obj, true) == p;
    OrderMatchFrame(p, p0, obj, i);
    G := MergeKeeps(p0, H, obj, i);
    var (q, top) := Merge(p0, obj, i);
    FreeTail(q, G, top);
    assert forall g: nat, o: nat :: IsLive(p0, H, g, o) <==> IsLive(p, H, g, o) && g != obj;
  }

  /** The last step of `free`: the merged block joins its list. */
  lemma {:induction false} FreeTail(q: Pool, G: set<nat>, top: nat)
    requires q.Shaped() && top < q.Size() && !q.used[top]
    requires q.order[top] < MAX_ORDER && Held(q, G, top, q.order[top])
    requires !IsFree(q.Mark(top, true), G, Flip(top, q.order[top]), q.order[top])
    ensures InvOn(q.Push(q.order[top], top), G)
    ensures SameLive(q, G, q.Push(q.order[top], top), G)
  {
    var v := q.Mark(top, true);
    assert q.SetOrder(top, q.order[top]) == q;
    Put(v, G, top);
    assert v.Mark(top, false) == q;
  }

  // ----- the converse

  lemma {:induction false} MergeGrows(p: Pool, obj: nat, i: nat)
    requires p.Shaped() && obj < p.Size() && p.order[obj] == i <= MAX_ORDER && Aligned(obj, i)
    ensures var (q, top) := Merge(p, obj, i); var j := q.order[top];
            i <= j <= MAX_ORDER && Aligned(top, j) && top <= obj && obj + Pow2(i) <= top + Pow2(j)
    decreases MAX_ORDER - i
  {
    var r := BuddyOf(p, obj, i);
    if r.Some? && !p.used[r.value] {
      XorFlips(obj, i);
      Buddies(obj, i);
      var (p1, obj1) := Absorb(p, obj, r.value, i);
      MergeGrows(p1, obj1, i + 1);
    }
  }

  /** [b, b + 2^k) lies in [top, top + 2^j), apart from [obj, obj + 2^i), and its head is too small for it. */
  ghost predicate Swallowed(p: Pool, H: set<nat>, b: nat, k: nat, top: nat, j: nat, obj: nat, i: nat)
    requires p.Shaped()
  {
    && b in H && b < p.Size() && p.order[b] < k < MAX_ORDER && Aligned(b, k)
    && top <= b && b + Pow2(k) <= top + Pow2(j)
    && (b + Pow2(k) <= obj || obj + Pow2(i) <= b)
  }

  /** The first step at which OrderMatch fails. */
  lemma {:induction false} MismatchSwallows(p: Pool, H: set<nat>, obj: nat, b: nat, i: nat)
    requires Held(p, H, obj, i) && i < MAX_ORDER && BuddyOf(p, obj, i) == Some(b)
    requires !p.used[b] && (p.order[b] != i || i == TOP)
    ensures var (q, top) := Merge(p, obj, i); var j := q.order[top];
            j <= MAX_ORDER && (j < MAX_ORDER ==> Swallowed(p, H, b, i, top, j, obj, i))
  {
    BuddyIsHead(p, H, obj, i);
    assert Aligned(obj, i) by {
      assert p.SetOrder(obj, i).Mark(obj, true).order[obj] == i;
    }
    Buddies(obj, i);
    var (p1, obj1) := Absorb(p, obj, b, i);
    MergeGrows(p1, obj1, i + 1);
  }

  /** A violated OrderMatch: the cascade panics, or ends in a block that swallows the range
      of some order k at a head of smaller order. */
  lemma {:induction false} MergeSwallows(p: Pool, H: set<nat>, obj: nat, i: nat) returns (b: nat, k: nat)
    requires Held(p, H, obj, i) && i < MAX_ORDER && !OrderMatch(p, obj, i)
    requires !p.used[obj] && p.order[obj] == i
    ensures var (q, top) := Merge(p, obj, i); var j := q.order[top];
            j <= MAX_ORDER && (j < MAX_ORDER ==> Swallowed(p, H, b, k, top, j, obj, i))
    decreases MAX_ORDER - i, 1
  {
    b, k := BuddyOf(p, obj, i).value, i;
    if p.order[b] != i || i == TOP {
      MismatchSwallows(p, H, obj, b, i);
    } else {
      b, k := MatchSwallows(p, H, obj, b, i);
    }
  }

  lemma {:induction false} MatchSwallows(p: Pool, H: set<nat>, obj: nat, b0: nat, i: nat) returns (b: nat, k: nat)
    requires Held(p, H, obj, i) && i < TOP && !OrderMatch(p, obj, i)
    requires !p.used[obj] && p.order[obj] == i && BuddyOf(p, obj, i) == Some(b0) && !p.used[b0] && p.order[b0] == i
    ensures var (q, top) := Merge(p, obj, i); var j := q.order[top];
            j <= MAX_ORDER && (j < MAX_ORDER ==> Swallowed(p, H, b, k, top, j, obj, i))
    decreases MAX_ORDER - i, 0
  {
    HeldAligned(p, H, obj, i);
    MatchStep(p, obj, b0, i);
    var (p1, obj1) := Absorb(p, obj, b0, i);
    var G := AbsorbKeeps(p, H, obj, b0, i);
    b, k := MergeSwallows(p1, G, obj1, i + 1);
    var (q, top) := Merge(p1, obj1, i + 1);
    XorFlips(obj, i);
    Buddies(obj, i);
    if q.order[top] < MAX_ORDER {
      SwallowedBack(p, H, p1, G, b, k, top, q.order[top], obj, b0, i);
    }
  }

  lemma {:induction false} HeldAligned(p: Pool, H: set<nat>, obj: nat, i: nat)
    requires Held(p, H, obj, i)
    ensures Aligned(obj, i) && i < MAX_ORDER && obj + Pow2(i) <= p.Size()
  {
    assert p.SetOrder(obj, i).Mark(obj, true).order[obj] == i;
  }

  /** A matching step leaves the rest of OrderMatch as it was. */
  lemma {:induction false} MatchStep(p: Pool, obj: nat, b: nat, i: nat)
    requires p.Shaped() && obj < p.Size() && Aligned(obj, i) && i < TOP && BuddyOf(p, obj, i) == Some(b)
    requires !p.used[obj] && !p.used[b] && p.order[b] == i
    ensures OrderMatch(p, obj, i) <==> OrderMatch(Absorb(p, obj, b, i).0, Absorb(p, obj, b, i).1, i + 1)
  {
    XorFlips(obj, i);
    Buddies(obj, i);
    var (p1, obj1) := Absorb(p, obj, b, i);
    OrderMatchFrame(p, p1, obj1, i + 1);
  }

  lemma {:induction false} SwallowedBack(p: Pool, H: set<nat>, p1: Pool, G: set<nat>, b: nat, k: nat, top: nat, j: nat,
                                         obj: nat, b0: nat, i: nat)
    requires p.Shaped() && p1.Shaped() && p1.Size() == p.Size() && G <= H && Min(obj, b0) >= 0
    requires b0 == obj + Pow2(i) || obj == b0 + Pow2(i)
    requires Min(obj, b0) < p.Size() && p1.order == p.order[Min(obj, b0) := i + 1]
    requires Swallowed(p1, G, b, k, top, j, Min(obj, b0), i + 1)
    ensures Swallowed(p, H, b, k, top, j, obj, i)
  {
  }

  /** The exact condition. `free` gives the block back, and nothing else, if and only if OrderMatch holds;
      otherwise it panics, breaks the invariant, or turns frames of other blocks into free ones. */
  lemma {:induction false} FreeExactly(p: Pool, obj: nat)
    requires Inv(p) && obj in Live(p)
    ensures OrderMatch(p, obj, p.order[obj]) <==>
            var r := Free(p, obj);
            r.Some? && r.value.Size() == p.Size() && Inv(r.value) && Live(r.value) == Live(p) - {obj}
  {
    var H := Heads(p);
    HeadsUnique(p, H);
    if OrderMatch(p, obj, p.order[obj]) {
      FreeSafe(p, H, obj);
    } else {
      FreeUnsafe(p, H, obj);
    }
  }

  lemma {:induction false} FreeSafe(p: Pool, H: set<nat>, obj: nat)
    requires InvOn(p, H) && obj in H && p.used[obj] && OrderMatch(p, obj, p.order[obj])
    ensures Inv(p)
    ensures var r := Free(p, obj);
            r.Some? && r.value.Size() == p.Size() && Inv(r.value) && Live(r.value) == Live(p) - {obj}
  {
    HeadsUnique(p, H);
    var G := FreeKeeps(p, H, obj);
    var q := Free(p, obj).value;
    HeadsUnique(q, G);
    forall g: nat ensures g in Live(q) <==> g in Live(p) - {obj} {
      assert g in Live(q) ==> IsLive(q, G, g, q.order[g]);
      assert g in Live(p) ==> IsLive(p, H, g, p.order[g]);
    }
    forall g | g in Live(q) ensures Live(q)[g] == Live(p)[g] {
      assert IsLive(q, G, g, q.order[g]);
    }
  }

  lemma {:induction false} FreeUnsafe(p: Pool, H: set<nat>, obj: nat)
    requires InvOn(p, H) && obj in H && p.used[obj] && !OrderMatch(p, obj, p.order[obj])
    ensures Inv(p)
    ensures var r := Free(p, obj);
            !(r.Some? && r.value.Size() == p.Size() && Inv(r.value) && Live(r.value) == Live(p) - {obj})
  {
    HeadsUnique(p, H);
    var r := Free(p, obj);
    if r.Some? && r.value.Size() == p.Size() && Inv(r.value) && Live(r.value) == Live(p) - {obj} {
      var b, k, top, j := FreeSwallows(p, H, obj);
      NotFreeElsewhere(p, H, obj, r.value, top, j, b, k);
      var g := Cohesion(p, H, b, k);
      assert false;
    }
  }

  lemma {:induction false} FreeSwallows(p: Pool, H: set<nat>, obj: nat) returns (b: nat, k: nat, top: nat, j: nat)
    requires InvOn(p, H) && obj in H && p.used[obj] && !OrderMatch(p, obj, p.order[obj])
    requires Free(p, obj).Some?
    ensures j < MAX_ORDER && top in Free(p, obj).value.lists[j]
    ensures Swallowed(p, H, b, k, top, j, obj, p.order[obj])
  {
    var p0, i := p.Mark(obj, false), p.order[obj];
    assert p0.SetOrder(obj, i).Mark(obj, true) == p;
    OrderMatchFrame(p, p0, obj, i);
    b, k := MergeSwallows(p0, H, obj, i);
    top := Merge(p0, obj, i).1;
    j := Merge(p0, obj, i).0.order[top];
  }

  /** A list block of q covers only frames that were free in p, or the block given back. */
  lemma {:induction false} NotFreeElsewhere(p: Pool, H: set<nat>, obj: nat, q: Pool, top: nat, j: nat, b: nat, k: nat)
    requires InvOn(p, H) && obj in H && p.used[obj] && Inv(p) && Inv(q) && q.Size() == p.Size()
    requires Live(q) == Live(p) - {obj}
    requires j < MAX_ORDER && top in q.lists[j] && Swallowed(p, H, b, k, top, j, obj, p.order[obj])
    ensures FreeRange(p, b, k)
  {
    HeadsUnique(p, H);
    forall y | InBlock(b, k, y) ensures FreeAt(p, y) {
      assert InBlock(top, j, y);
      assert FreeAt(q, y);
      var t := FreeOwner(q, Heads(q), y);
      assert Owned(p, H, y);
      var g :| g in H && InBlock(g, p.order[g], y);
      if p.used[g] {
        assert g in Live(q) && Live(q)[g] == p.order[g];
        HeadFree(q, Heads(q), g, y);
      }
      HeadFree(p, H, g, y);
    }
  }
}
