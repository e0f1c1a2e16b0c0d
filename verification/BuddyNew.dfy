/**
 The greedy construction of the initial free lists.
 */
module BuddyNew {
  import opened Bits
  import opened Blocks
  import opened BuddySystem
  import opened BuddyCanon
  import opened BuddyCorrect
  import opened BuddyCount

  /** The inner loop of `new`: blocks of order o while they fit. */
  function FillOrder(p: Pool, index: nat, o: nat): (r: (Pool, nat))
    requires p.Shaped() && index <= p.Size() && o < MAX_ORDER
    ensures r.0.Shaped() && r.0.Size() == p.Size() && index <= r.1 <= p.Size()
    decreases p.Size() - index
  {
    if Pow2(o) <= p.Size() - index then FillOrder(Shed(p, index, o), index + Pow2(o), o) else (p, index)
  }

  /** The outer loop of `new`, for the orders below k. */
  function Fill(p: Pool, index: nat, k: nat): (r: (Pool, nat))
    requires p.Shaped() && index <= p.Size() && k <= MAX_ORDER
    ensures r.0.Shaped() && r.0.Size() == p.Size() && index <= r.1 <= p.Size()
    decreases k
  {
    if k == 0 then (p, index)
    else
      var (q, j) := FillOrder(p, index, k - 1);
      Fill(q, j, k - 1)
  }

  lemma {:induction false} FillUnfold(p: Pool, index: nat, o: nat, q: Pool, j: nat)
    requires p.Shaped() && index <= p.Size() && o < MAX_ORDER && (q, j) == FillOrder(p, index, o)
    ensures Fill(p, index, o + 1) == Fill(q, j, o)
  {
  }

  /** Records with arbitrary contents and empty lists. */
  function Blank(order: seq<nat>, used: seq<bool>): (p: Pool)
    requires |order| == |used|
    ensures p.Shaped() && p.Size() == |order|
  {
    Pool(order, used, seq(MAX_ORDER, _ => []), seq(MAX_ORDER, _ => 0))
  }

  /** `new` over records whose cells hold anything at all. */
  function New(order: seq<nat>, used: seq<bool>): (p: Pool)
    requires |order| == |used|
    ensures p.Shaped() && p.Size() == |order|
  {
    Fill(Blank(order, used), 0, MAX_ORDER).0
  }

  /** The first x frames are tiled by free blocks. */
  ghost predicate Built(p: Pool, H: set<nat>, x: nat) {
    && p.Shaped()
    && x <= p.Size()
    && Fits(p, H)
    && (forall h :: h in H ==> h + Pow2(p.order[h]) <= x && !p.used[h])
    && Disjoint(p, H)
    && (forall y :: 0 <= y < x ==> Owned(p, H, y))
    && Listed(p, H)
  }

  lemma {:induction false} BuildOne(p: Pool, H: set<nat>, x: nat, o: nat)
    requires Built(p, H, x) && o < MAX_ORDER && Aligned(x, o) && x + Pow2(o) <= p.Size()
    ensures Built(Shed(p, x, o), H + {x}, x + Pow2(o))
  {
    var q, G := Shed(p, x, o), H + {x};
    BuildFits(p, H, x, o);
    forall y | 0 <= y < x + Pow2(o) ensures Owned(q, G, y) {
      BuildOwned(p, H, x, o, y);
    }
    forall k | 0 <= k < MAX_ORDER ensures ListExact(q, G, k) {
      BuildListed(p, H, x, o, k);
    }
  }

  lemma {:induction false} BuildFits(p: Pool, H: set<nat>, x: nat, o: nat)
    requires Built(p, H, x) && o < MAX_ORDER && Aligned(x, o) && x + Pow2(o) <= p.Size()
    ensures var q, G := Shed(p, x, o), H + {x};
            && x !in H && Fits(q, G) && Disjoint(q, G)
            && forall h :: h in G ==> h + Pow2(q.order[h]) <= x + Pow2(o) && !q.used[h]
  {
    var q := Shed(p, x, o);
    assert x !in H;
    assert forall h :: h in H ==> q.order[h] == p.order[h] && q.used[h] == p.used[h];
  }

  lemma {:induction false} BuildOwned(p: Pool, H: set<nat>, x: nat, o: nat, y: nat)
    requires Built(p, H, x) && o < MAX_ORDER && x + Pow2(o) <= p.Size() && y < x + Pow2(o)
    requires x !in H && Fits(Shed(p, x, o), H + {x})
    ensures Owned(Shed(p, x, o), H + {x}, y)
  {
    var q, G := Shed(p, x, o), H + {x};
    if y < x {
      assert Owned(p, H, y);
      var h :| h in H && InBlock(h, p.order[h], y);
      assert h in G && InBlock(h, q.order[h], y);
    } else {
      assert x in G && InBlock(x, q.order[x], y);
    }
  }

  lemma {:induction false} BuildListed(p: Pool, H: set<nat>, x: nat, o: nat, k: nat)
    requires Built(p, H, x) && o < MAX_ORDER && x + Pow2(o) <= p.Size() && k < MAX_ORDER && x !in H
    ensures ListExact(Shed(p, x, o), H + {x}, k)
  {
    assert ListExact(p, H, k);
    var q := Shed(p, x, o);
    assert !IsFree(p, H, x, k);
    forall h: nat ensures h in q.lists[k] <==> IsFree(q, H + {x}, h, k) {
      assert h != x ==> (IsFree(q, H + {x}, h, k) <==> IsFree(p, H, h, k));
    }
  }

  lemma {:induction false} DivStep(r: nat, P: nat)
    requires P > 0 && P <= r
    ensures r / P == 1 + (r - P) / P && r % P == (r - P) % P
  {
    var s: nat := r - P;
    assert s == (s / P) * P + s % P;
    DivModUnique(r, P, s / P + 1, s % P);
  }

  /** `(n - x) / 2^o` blocks of order o were placed, and `(n - x) % 2^o` frames are left. */
  ghost predicate PlacedBlocks(p: Pool, q: Pool, x: nat, y: nat, o: nat)
    requires p.Shaped() && o < MAX_ORDER
  {
    && p.Size() - y == (p.Size() - x) % Pow2(o)
    && q.counts == p.counts[o := p.counts[o] + (p.Size() - x) / Pow2(o)]
  }

  lemma {:induction false} PlacedOneMore(p: Pool, q: Pool, x: nat, y: nat, o: nat, P: nat)
    requires p.Shaped() && o < MAX_ORDER && P == Pow2(o) && x + P <= p.Size()
    requires PlacedBlocks(Shed(p, x, o), q, x + P, y, o)
    ensures PlacedBlocks(p, q, x, y, o)
  {
    DivStep(p.Size() - x, P);
  }

  lemma {:induction false} PlacedNone(p: Pool, x: nat, o: nat)
    requires p.Shaped() && o < MAX_ORDER && x <= p.Size() < x + Pow2(o)
    ensures PlacedBlocks(p, p, x, x, o)
  {
    DivModUnique(p.Size() - x, Pow2(o), 0, p.Size() - x);
  }

  /** What the inner loop places. */
  lemma {:induction false} FillOrderBuilds(p: Pool, H: set<nat>, x: nat, o: nat) returns (G: set<nat>)
    requires Built(p, H, x) && o < MAX_ORDER && Aligned(x, o)
    ensures var (q, y) := FillOrder(p, x, o); Built(q, G, y) && Aligned(y, o) && PlacedBlocks(p, q, x, y, o)
    decreases p.Size() - x
  {
    var P := Pow2(o);
    if P <= p.Size() - x {
      BuildOne(p, H, x, o);
      NextAligned(x, P);
      G := FillOrderBuilds(Shed(p, x, o), H + {x}, x + P, o);
      var (q, y) := FillOrder(Shed(p, x, o), x + P, o);
      PlacedOneMore(p, q, x, y, o, P);
    } else {
      G := H;
      PlacedNone(p, x, o);
    }
  }

  lemma {:induction false} NextAligned(x: nat, P: nat)
    requires P > 0 && x % P == 0
    ensures (x + P) % P == 0
  {
    var q := MultipleOf(x, P);
    IsMultiple(q + 1, P);
    assert (q + 1) * P == x + P;
  }

  /** The number of blocks of order o in the greedy tiling of n frames. */
  function GreedyCount(n: nat, o: nat): nat {
    if o == TOP then n / Pow2(TOP) else n / Pow2(o) % 2
  }

  lemma {:induction false} ModHalf(n: nat, P: nat)
    requires P > 0
    ensures n % (2 * P) / P == n / P % 2 && n % (2 * P) % P == n % P
  {
    var q, r := n / P, n % P;
    BitOf(n, q, r, q / 2, q % 2, P);
  }

  lemma {:induction false} BitOf(n: nat, q: nat, r: nat, h: nat, e: nat, P: nat)
    requires P > 0 && n == q * P + r && r < P && q == 2 * h + e && e < 2
    ensures n % (2 * P) / P == e && n % (2 * P) % P == r
  {
    assert q * P == h * (2 * P) + e * P;
    var s := if e == 0 then r else P + r;
    DivModUnique(n, 2 * P, h, s);
    DivModUnique(s, P, e, r);
  }

  lemma {:induction false} GreedyStep(n: nat, o: nat, rest: nat)
    requires o < MAX_ORDER && rest == if o == TOP then n else n % Pow2(o + 1)
    ensures rest / Pow2(o) == GreedyCount(n, o) && rest % Pow2(o) == n % Pow2(o)
  {
    ModHalf(n, Pow2(o));
  }

  /** After the orders k and above, `n % 2^k` frames remain; each order k' below gets one bit of n. */
  lemma {:induction false} FillBuilds(p: Pool, H: set<nat>, x: nat, k: nat) returns (G: set<nat>)
    requires Built(p, H, x) && k <= MAX_ORDER && Aligned(x, k)
    requires if k == MAX_ORDER then x == 0 else p.Size() - x == p.Size() % Pow2(k)
    requires forall o :: 0 <= o < k ==> p.counts[o] == 0
    ensures var (q, y) := Fill(p, x, k);
            && Built(q, G, y) && y == p.Size()
            && (forall o :: 0 <= o < k ==> q.counts[o] == GreedyCount(p.Size(), o))
            && (forall o :: k <= o < MAX_ORDER ==> q.counts[o] == p.counts[o])
    decreases k
  {
    G := H;
    if k != 0 {
      var o: nat := k - 1;
      AlignedDown(x, o, k);
      G := FillOrderBuilds(p, H, x, o);
      GreedyStep(p.Size(), o, p.Size() - x);
      var (q, y) := FillOrder(p, x, o);
      G := FillBuilds(q, G, y, o);
    }
  }

  lemma {:induction false} FewPerOrder(p: Pool, H: set<nat>)
    requires p.Shaped() && Listed(p, H) && forall o :: 0 <= o < TOP ==> p.counts[o] <= 1
    requires Fits(p, H)
    ensures Coalesced(p, H)
  {
    forall h: nat, o: nat | IsFree(p, H, h, o) && o < TOP ensures !IsFree(p, H, Flip(h, o), o) {
      assert ListExact(p, H, o);
      Buddies(h, o);
      var b := Flip(h, o);
      if IsFree(p, H, b, o) {
        assert false;
      }
    }
  }

  /** `new` tiles all frames with free blocks, one for each bit of the count below the top
      order and `n / 2^14` at the top, whatever the record cells held before. */
  lemma {:induction false} NewCorrect(order: seq<nat>, used: seq<bool>)
    requires |order| == |used|
    ensures var p := New(order, used);
            && Inv(p)
            && Live(p) == map[]
            && (forall o :: 0 <= o < MAX_ORDER ==> p.counts[o] == |p.lists[o]| == GreedyCount(|order|, o))
            && CountFree(p) == |order|
  {
    var b := Blank(order, used);
    assert Built(b, {}, 0);
    DivModUnique(0, Pow2(MAX_ORDER), 0, 0);
    var G := FillBuilds(b, {}, 0, MAX_ORDER);
    var p := New(order, used);
    forall o | 0 <= o < TOP ensures p.counts[o] <= 1 {
      assert p.counts[o] == GreedyCount(|order|, o);
    }
    FewPerOrder(p, G);
    assert Covered(p, G);
    HeadsUnique(p, G);
    assert Live(p) == map[];
    forall o | 0 <= o < MAX_ORDER ensures p.counts[o] == |p.lists[o]| {
      assert ListExact(p, G, o);
    }
    NothingLive(p);
  }

  lemma {:induction false} NothingLive(p: Pool)
    requires Inv(p) && Live(p) == map[]
    ensures CountFree(p) == p.Size()
  {
    CountIsFreeFrames(p);
    IntervalSize(0, p.Size());
    forall y: int ensures y in FreeFrames(p) <==> y in Interval(0, p.Size()) {
      FreeXorOccupied(p, y);
    }
    assert FreeFrames(p) == Interval(0, p.Size());
  }
}
