/**
 What `allocate` and `free` do to the set of live blocks, when `allocate`
 fails, and exactly when `free` is safe.
 */
module BuddyCorrect {
  import opened Wrappers
  import opened Bits
  import opened Blocks
  import opened BuddySystem
  import opened BuddyCanon

  /** h heads a block of order o that has been handed out. */
  predicate IsLive(p: Pool, H: set<nat>, h: nat, o: nat)
    requires p.Shaped()
  {
    h in H && h < p.Size() && p.used[h] && p.order[h] == o
  }

  ghost predicate SameLive(p: Pool, H: set<nat>, q: Pool, G: set<nat>)
    requires p.Shaped() && q.Shaped()
  {
    forall h: nat, o: nat :: IsLive(q, G, h, o) <==> IsLive(p, H, h, o)
  }

  /** The invariant with h regarded as a used block of order i, whatever its record says. */
  ghost predicate Held(p: Pool, H: set<nat>, h: nat, i: nat) {
    && p.Shaped()
    && h in H
    && h < p.Size()
    && InvOn(p.SetOrder(h, i).Mark(h, true), H)
  }

  // ----- allocate

  lemma {:induction false} SplitBuddy(p: Pool, h: nat, i: nat, o: nat)
    requires p.Shaped() && i < o < MAX_ORDER && Aligned(h, o) && h + Pow2(o) <= p.Size()
    ensures BuddyOf(p, h, i) == Some(h + Pow2(i))
  {
    AlignedDown(h, i + 1, o);
    Halves(h, i);
    XorFlips(h, i);
    Pow2Mono(i, o);
  }

  lemma {:induction false} ShedCommutes(p: Pool, a: nat, i: nat, b: nat, k: nat)
    requires p.Shaped() && a < p.Size() && b < p.Size() && a != b && i < k < MAX_ORDER
    ensures Shed(Shed(p, a, i), b, k) == Shed(Shed(p, b, k), a, i)
  {
    assert p.order[a := i][b := k] == p.order[b := k][a := i];
    assert p.used[a := false][b := false] == p.used[b := false][a := false];
    var x, y := p.lists[i] + [a], p.lists[k] + [b];
    assert p.lists[i := x][k := y] == p.lists[k := y][i := x];
    var c, d := p.counts[i] + 1, p.counts[k] + 1;
    assert p.counts[i := c][k := d] == p.counts[k := d][i := c];
  }

  /** Shedding a half below the ones still to come can be postponed. */
  lemma {:induction false} SplitAfterShed(p: Pool, h: nat, i: nat, k: nat, o: nat)
    requires p.Shaped() && i < k <= o < MAX_ORDER && Aligned(h, o) && h + Pow2(o) <= p.Size()
    ensures h + Pow2(i) < p.Size() && Split(p, h, k, o).Size() == p.Size()
    ensures Split(Shed(p, h + Pow2(i), i), h, k, o) == Shed(Split(p, h, k, o), h + Pow2(i), i)
    decreases o - k
  {
    Pow2Mono(i, o);
    var a := h + Pow2(i);
    if k < o {
      SplitBuddy(p, h, k, o);
      SplitBuddy(Shed(p, a, i), h, k, o);
      Pow2Mono(i, k);
      var b := h + Pow2(k);
      ShedCommutes(p, a, i, b, k);
      SplitAfterShed(Shed(p, b, k), h, i, k + 1, o);
    }
  }

  /** Halving a held block once: the upper half becomes a free block. */
  lemma {:induction false} ShedKeeps(p: Pool, H: set<nat>, h: nat, hi: nat, i: nat)
    requires Held(p, H, h, i + 1) && i + 1 < MAX_ORDER && hi == h + Pow2(i)
    ensures hi < p.Size() && hi !in H
    ensures Held(Shed(p, hi, i), H + {hi}, h, i)
  {
    var v := p.SetOrder(h, i + 1).Mark(h, true);
    Cut(v, H, h, hi, i);
    var G := H + {hi};
    var w := v.SetOrder(h, i).SetOrder(hi, i).Mark(hi, true);
    Halves(h, i);
    Put(w, G, hi);
    var q := Shed(p, hi, i).SetOrder(h, i).Mark(h, true);
    assert w.Mark(hi, false).Push(i, hi) == q by {
      assert v.order[h := i][hi := i] == p.order[hi := i][h := i];
      assert v.used[hi := true][hi := false] == p.used[hi := false][h := true];
    }
  }

  lemma {:induction false} SplitKeeps(p: Pool, H: set<nat>, h: nat, i: nat, o: nat) returns (G: set<nat>)
    requires Held(p, H, h, o) && i <= o < MAX_ORDER && p.used[h] && p.order[h] == i
    ensures Split(p, h, i, o).Size() == p.Size()
    ensures InvOn(Split(p, h, i, o), G) && SameLive(p, H, Split(p, h, i, o), G) && h in G
  {
    var q;
    q, G := SplitHolds(p, H, h, i, o);
    assert q.SetOrder(h, i).Mark(h, true) == q;
    assert p.SetOrder(h, i) == p;
  }

  lemma {:induction false} SplitHolds(p: Pool, H: set<nat>, h: nat, i: nat, o: nat) returns (q: Pool, G: set<nat>)
    requires Held(p, H, h, o) && i <= o < MAX_ORDER && p.used[h]
    ensures q == Split(p, h, i, o) && q.Size() == p.Size() && Held(q, G, h, i)
    ensures q.order[h] == p.order[h] && q.used[h]
    ensures forall j: nat :: SameLive(p.SetOrder(h, j), H, q.SetOrder(h, j), G)
    decreases o - i
  {
    q, G := p, H;
    if i < o {
      var hi := h + Pow2(i);
      var q1, G1 := SplitHolds(p, H, h, i + 1, o);
      var v := p.SetOrder(h, o).Mark(h, true);
      assert Aligned(h, v.order[h]) && h + Pow2(v.order[h]) <= p.Size();
      SplitBuddy(p, h, i, o);
      SplitAfterShed(p, h, i, i + 1, o);
      ShedKeeps(q1, G1, h, hi, i);
      q, G := Shed(q1, hi, i), G1 + {hi};
    }
  }

  lemma {:induction false} AllocateKeeps(p: Pool, H: set<nat>, r: nat) returns (G: set<nat>)
    requires InvOn(p, H) && Allocate(p, r).1.Some?
    ensures var (q, got) := Allocate(p, r);
            && q.Size() == p.Size()
            && InvOn(q, G)
            && FreeRange(p, got.value, r)
            && forall g: nat, o: nat :: IsLive(q, G, g, o) <==> IsLive(p, H, g, o) || (g == got.value && o == r)
  {
    var o := FirstStocked(p, r);
    var h := p.lists[o][0];
    assert h in p.lists[o] && ListExact(p, H, o);
    Take(p, H, h);
    RemoveShaped(p, o, h);
    var p1 := p.Remove(o, h).SetOrder(h, r).Mark(h, true);
    assert p1.SetOrder(h, o).Mark(h, true) == p.Remove(o, h).Mark(h, true) by {
      assert p.order[h := r][h := o] == p.order;
    }
    G := SplitKeeps(p1, H, h, r, o);
    AlignedDown(h, r, o);
    Pow2Mono(r, o);
    EnclosedFree(p, H, h, h, r);
  }

  lemma {:induction false} AllocateFails(p: Pool, H: set<nat>, r: nat, x: nat)
    requires InvOn(p, H) && r < MAX_ORDER && FreeRange(p, x, r)
    ensures Allocate(p, r).1.Some?
  {
    var h := Cohesion(p, H, x, r);
    assert ListExact(p, H, p.order[h]);
    assert h in p.lists[p.order[h]];
  }

  // ----- the invariant and the live blocks, without naming the heads

  ghost predicate Inv(p: Pool) {
    exists H :: InvOn(p, H)
  }

  ghost function Heads(p: Pool): (H: set<nat>)
    requires Inv(p)
    ensures InvOn(p, H)
  {
    var H :| InvOn(p, H);
    H
  }

  lemma {:induction false} SameHeads(p: Pool, H: set<nat>, G: set<nat>, x: nat)
    requires InvOn(p, H) && InvOn(p, G)
    ensures forall y :: 0 <= y < x ==> (y in H <==> y in G)
  {
    if x != 0 {
      SameHeads(p, H, G, x - 1);
      if x - 1 in H {
        HeadAlike(p, H, G, x - 1);
      }
      if x - 1 in G {
        HeadAlike(p, G, H, x - 1);
      }
    }
  }

  lemma {:induction false} HeadAlike(p: Pool, H: set<nat>, G: set<nat>, x: nat)
    requires InvOn(p, H) && InvOn(p, G) && x in H
    requires forall y :: 0 <= y < x ==> (y in H <==> y in G)
    ensures x in G
  {
    assert Owned(p, G, x);
    var g :| g in G && InBlock(g, p.order[g], x);
  }

  /** The records determine the block heads. */
  lemma {:induction false} HeadsUnique(p: Pool, H: set<nat>)
    requires InvOn(p, H)
    ensures Inv(p) && Heads(p) == H
  {
    SameHeads(p, H, Heads(p), p.Size());
    assert forall y :: y in H <==> y in Heads(p);
  }

  /** The blocks handed out and not yet given back: head to order. */
  ghost function Live(p: Pool): map<nat, nat>
    requires Inv(p)
  {
    map h | h in Heads(p) && p.used[h] :: p.order[h]
  }

  /** `allocate` fails exactly when no aligned run of `2^r` free frames exists, and
      otherwise adds one such run to the live blocks. */
  lemma {:induction false} AllocateCorrect(p: Pool, r: nat)
    requires Inv(p)
    ensures var (q, got) := Allocate(p, r);
            && Inv(q)
            && q.Size() == p.Size()
            && (got.None? <==> MAX_ORDER <= r || !exists x: nat :: FreeRange(p, x, r))
            && (got.None? ==> q == p)
            && (got.Some? ==> got.value !in Live(p) && FreeRange(p, got.value, r) && Live(q) == Live(p)[got.value := r])
  {
    var (q, got) := Allocate(p, r);
    var H := Heads(p);
    HeadsUnique(p, H);
    if got.None? {
      if r < MAX_ORDER && exists x: nat :: FreeRange(p, x, r) {
        var x: nat :| FreeRange(p, x, r);
        AllocateFails(p, H, r, x);
      }
    } else {
      var G := AllocateKeeps(p, H, r);
      HeadsUnique(q, G);
      LiveGrows(p, H, q, G, got.value, r);
    }
  }

  /** The split loop of `allocate` never leaves early: every half it pushes is managed. */
  lemma {:induction false} SplitNeverBreaks(p: Pool, o: nat, i: nat)
    requires Inv(p) && i < o < MAX_ORDER && p.lists[o] != []
    ensures BuddyOf(p, p.lists[o][0], i) == Some(p.lists[o][0] + Pow2(i))
  {
    var H, h := Heads(p), p.lists[o][0];
    assert ListExact(p, H, o) && h in p.lists[o];
    assert IsFree(p, H, h, o);
    SplitBuddy(p, h, i, o);
  }

  lemma {:induction false} LiveGrows(p: Pool, H: set<nat>, q: Pool, G: set<nat>, h: nat, r: nat)
    requires InvOn(p, H) && InvOn(q, G) && FreeRange(p, h, r)
    requires forall g: nat, o: nat :: IsLive(q, G, g, o) <==> IsLive(p, H, g, o) || (g == h && o == r)
    ensures Inv(p) && Inv(q) && h !in Live(p) && Live(q) == Live(p)[h := r]
  {
    HeadsUnique(p, H);
    HeadsUnique(q, G);
    assert InBlock(h, r, h);
    if h in Live(p) {
      HeadFree(p, H, h, h);
      assert false;
    }
    forall g: nat ensures g in Live(q) <==> g in Live(p)[h := r] {
      assert g in Live(q) ==> IsLive(q, G, g, q.order[g]);
      assert g in Live(p) ==> IsLive(p, H, g, p.order[g]);
      assert IsLive(q, G, h, r);
    }
    forall g | g in Live(q) ensures Live(q)[g] == Live(p)[h := r][g] {
      assert IsLive(q, G, g, q.order[g]);
    }
  }
}
