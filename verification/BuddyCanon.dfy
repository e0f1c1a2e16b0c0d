/**
 The free lists are a canonical form: they hold exactly the maximal aligned
 power-of-two ranges of free frames.
 */
module BuddyCanon {
  import opened Bits
  import opened Blocks
  import opened BuddySystem

  const TOP: nat := MAX_ORDER - 1

  /** Frame x lies in a block of some free list. */
  ghost predicate FreeAt(p: Pool, x: int)
    requires p.Shaped()
  {
    exists h: nat, o: nat :: o < MAX_ORDER && h in p.lists[o] && InBlock(h, o, x)
  }

  /** The aligned range of `2^k` frames at x consists of free frames only. */
  ghost predicate FreeRange(p: Pool, x: nat, k: nat)
    requires p.Shaped()
  {
    Aligned(x, k) && forall y :: InBlock(x, k, y) ==> FreeAt(p, y)
  }

  /** A free range that is not part of a larger one. */
  ghost predicate MaximalRange(p: Pool, x: nat, k: nat)
    requires p.Shaped()
  {
    && k < MAX_ORDER
    && FreeRange(p, x, k)
    && (k < TOP ==> !EnclosingFree(p, x, k))
  }

  ghost predicate EnclosingFree(p: Pool, x: nat, k: nat)
    requires p.Shaped() && Aligned(x, k)
  {
    Buddies(x, k);
    FreeRange(p, Min(x, Flip(x, k)), k + 1)
  }

  /** A free frame belongs to a free head. */
  lemma {:induction false} FreeOwner(p: Pool, H: set<nat>, x: nat) returns (h: nat)
    requires InvOn(p, H) && FreeAt(p, x)
    ensures h in H && !p.used[h] && h in p.lists[p.order[h]] && InBlock(h, p.order[h], x) && x < p.Size()
  {
    var g: nat, o: nat :| o < MAX_ORDER && g in p.lists[o] && InBlock(g, o, x);
    assert ListExact(p, H, o);
    assert IsFree(p, H, g, o);
    h := g;
  }

  lemma {:induction false} HeadFree(p: Pool, H: set<nat>, h: nat, x: int)
    requires InvOn(p, H) && h in H && InBlock(h, p.order[h], x)
    ensures FreeAt(p, x) <==> !p.used[h]
  {
    var o := p.order[h];
    assert ListExact(p, H, o);
    if !p.used[h] {
      assert IsFree(p, H, h, o);
      assert h in p.lists[o];
    } else if FreeAt(p, x) {
      var g := FreeOwner(p, H, x);
      assert false;
    }
  }

  /** A free aligned range lies inside one free block: nothing is left unmerged. */
  lemma {:induction false} Cohesion(p: Pool, H: set<nat>, x: nat, k: nat) returns (h: nat)
    requires InvOn(p, H) && k < MAX_ORDER && FreeRange(p, x, k)
    ensures h in H && IsFree(p, H, h, p.order[h]) && k <= p.order[h]
    ensures h <= x && x + Pow2(k) <= h + Pow2(p.order[h])
    decreases k
  {
    if k == 0 {
      assert InBlock(x, 0, x);
      h := FreeOwner(p, H, x);
    } else {
      var i: nat := k - 1;
      var mid := x + Pow2(i);
      Halves(x, i);
      assert forall y :: InBlock(x, i, y) || InBlock(mid, i, y) ==> InBlock(x, k, y);
      h := Cohesion(p, H, x, i);
      var g := Cohesion(p, H, mid, i);
      if p.order[h] > i {
        Nested(x, k, h, p.order[h]);
      } else if p.order[g] > i {
        Nested(x, k, g, p.order[g]);
        h := g;
      } else {
        assert false;
      }
    }
  }

  lemma {:induction false} BlockIsFreeRange(p: Pool, H: set<nat>, h: nat)
    requires InvOn(p, H) && h in H && !p.used[h]
    ensures FreeRange(p, h, p.order[h])
  {
    forall y | InBlock(h, p.order[h], y) ensures FreeAt(p, y) {
      HeadFree(p, H, h, y);
    }
  }

  lemma {:induction false} EnclosedFree(p: Pool, H: set<nat>, h: nat, y: nat, j: nat)
    requires InvOn(p, H) && h in H && !p.used[h] && Aligned(y, j)
    requires h <= y && y + Pow2(j) <= h + Pow2(p.order[h])
    ensures FreeRange(p, y, j)
  {
    forall z | InBlock(y, j, z) ensures FreeAt(p, z) {
      HeadFree(p, H, h, z);
    }
  }

  /** Canonical form: a list holds exactly the maximal free ranges of its order. */
  lemma {:induction false} CanonicalForm(p: Pool, H: set<nat>, h: nat, o: nat)
    requires InvOn(p, H) && o < MAX_ORDER
    ensures h in p.lists[o] <==> MaximalRange(p, h, o)
  {
    assert ListExact(p, H, o);
    if h in p.lists[o] {
      assert IsFree(p, H, h, o);
      BlockIsFreeRange(p, H, h);
      Buddies(h, o);
      if o < TOP && EnclosingFree(p, h, o) {
        var g := Cohesion(p, H, Min(h, Flip(h, o)), o + 1);
        assert false;
      }
    }
    if MaximalRange(p, h, o) {
      var g := Cohesion(p, H, h, o);
      var k := p.order[g];
      if k == o {
        SameBlock(g, h, Pow2(o));
      } else {
        Buddies(h, o);
        var lo := Min(h, Flip(h, o));
        Nested(lo, o + 1, g, k);
        EnclosedFree(p, H, g, lo, o + 1);
        assert false;
      }
    }
  }

  /** The same frames are free in both pools. */
  ghost predicate SameFrames(p: Pool, q: Pool)
    requires p.Shaped() && q.Shaped()
  {
    forall x :: FreeAt(p, x) <==> FreeAt(q, x)
  }

  /** Two pools with the same free frames have the same free blocks and the same counters. */
  lemma {:induction false} FreeFramesDetermineLists(p: Pool, H: set<nat>, q: Pool, G: set<nat>, o: nat)
    requires InvOn(p, H) && InvOn(q, G) && SameFrames(p, q) && o < MAX_ORDER
    ensures multiset(p.lists[o]) == multiset(q.lists[o])
    ensures p.counts[o] == q.counts[o]
  {
    forall h: nat ensures h in p.lists[o] <==> h in q.lists[o] {
      CanonicalForm(p, H, h, o);
      CanonicalForm(q, G, h, o);
      SameRanges(p, q, h, o);
    }
    assert ListExact(p, H, o) && ListExact(q, G, o);
    SameElements(p.lists[o], q.lists[o]);
  }

  lemma {:induction false} SameRanges(p: Pool, q: Pool, x: nat, k: nat)
    requires p.Shaped() && q.Shaped() && SameFrames(p, q)
    ensures MaximalRange(p, x, k) <==> MaximalRange(q, x, k)
  {
    assert forall x: nat, k: nat :: FreeRange(p, x, k) <==> FreeRange(q, x, k);
  }

  lemma {:induction false} NoDupMultiset(s: seq<nat>, x: nat)
    requires NoDup(s)
    ensures multiset(s)[x] == if x in s then 1 else 0
  {
    if s != [] {
      NoDupMultiset(s[1..], x);
      assert s == [s[0]] + s[1..];
    }
  }

  lemma {:induction false} SameElements(s: seq<nat>, t: seq<nat>)
    requires NoDup(s) && NoDup(t)
    requires forall x :: x in s <==> x in t
    ensures multiset(s) == multiset(t) && |s| == |t|
  {
    forall x: nat ensures multiset(s)[x] == multiset(t)[x] {
      NoDupMultiset(s, x);
      NoDupMultiset(t, x);
    }
    assert multiset(s) == multiset(t);
    assert |multiset(s)| == |s| && |multiset(t)| == |t|;
  }
}
