/**
 The buddy frame allocator as a transition system on values: frame records
 (order and state cells), one free list and one counter per order.
 */
module BuddySystem {
  import opened Wrappers
  import opened Bits
  import opened Blocks

  const MAX_ORDER: nat := 15

  /** First occurrence of x taken out of s (the whole of s when x does not occur). */
  function Without(s: seq<nat>, x: nat): seq<nat> {
    if s == [] then [] else if s[0] == x then s[1..] else [s[0]] + Without(s[1..], x)
  }

  /** The frame records, the free lists and their counters. */
  datatype Pool = Pool(order: seq<nat>, used: seq<bool>, lists: seq<seq<nat>>, counts: seq<int>) {

    function Size(): nat { |order| }

    predicate Shaped() {
      && |used| == |order|
      && |lists| == MAX_ORDER
      && |counts| == MAX_ORDER
      && forall o, h :: 0 <= o < MAX_ORDER && h in lists[o] ==> h < |order|
    }

    function SetOrder(i: nat, o: nat): Pool
      requires i < |order|
    {
      this.(order := order[i := o])
    }

    function Mark(i: nat, u: bool): Pool
      requires i < |used|
    {
      this.(used := used[i := u])
    }

    function Push(o: nat, i: nat): Pool
      requires o < |lists| && o < |counts|
    {
      this.(lists := lists[o := lists[o] + [i]], counts := counts[o := counts[o] + 1])
    }

    function Remove(o: nat, i: nat): Pool
      requires o < |lists| && o < |counts|
    {
      this.(lists := lists[o := Without(lists[o], i)], counts := counts[o := counts[o] - 1])
    }
  }

  // ----- operations

  /** The object `2^o` away in the enclosing block, if it is managed. */
  function BuddyOf(p: Pool, i: nat, o: nat): (r: Option<nat>)
    ensures r.Some? ==> o < MAX_ORDER && r.value < p.Size()
  {
    if MAX_ORDER <= o then None
    else if p.Size() < i then None
    else
      var b := Xor(i, Pow2(o));
      if b < p.Size() then Some(b) else None
  }

  /** The first order from `o` upward whose free list is not empty; MAX_ORDER if there is none. */
  function FirstStocked(p: Pool, o: nat): (r: nat)
    requires p.Shaped() && o <= MAX_ORDER
    ensures o <= r <= MAX_ORDER
    ensures r < MAX_ORDER ==> p.lists[r] != []
    ensures forall k :: o <= k < r ==> p.lists[k] == []
    decreases MAX_ORDER - o
  {
    if o == MAX_ORDER || p.lists[o] != [] then o else FirstStocked(p, o + 1)
  }

  /** Give the buddy of `h` at order `i` back as a free block of that order. */
  function Shed(p: Pool, b: nat, i: nat): Pool
    requires p.Shaped() && b < p.Size() && i < MAX_ORDER
    ensures Shed(p, b, i).Shaped()
  {
    p.SetOrder(b, i).Mark(b, false).Push(i, b)
  }

  function Split(p: Pool, h: nat, i: nat, o: nat): Pool
    requires p.Shaped() && o <= MAX_ORDER
    ensures Split(p, h, i, o).Shaped()
    decreases o - i
  {
    if o <= i then p
    else match BuddyOf(p, h, i)
      case None => p
      case Some(b) => Split(Shed(p, b, i), h, i + 1, o)
  }

  function Allocate(p: Pool, r: nat): (Pool, Option<nat>)
    requires p.Shaped()
    ensures Allocate(p, r).0.Shaped()
  {
    if MAX_ORDER <= r then (p, None)
    else
      var o := FirstStocked(p, r);
      if o == MAX_ORDER then (p, None)
      else
        var h := p.lists[o][0];
        assert h in p.lists[o];
        RemoveShaped(p, o, h);
        (Split(p.Remove(o, h).SetOrder(h, r).Mark(h, true), h, r, o), Some(h))
  }

  /** One pass of the merge loop: absorb the free buddy `b` of `obj` at order `i`. */
  function Absorb(p: Pool, obj: nat, b: nat, i: nat): (Pool, nat)
    requires p.Shaped() && obj < p.Size() && b < p.Size() && i < MAX_ORDER
    ensures Absorb(p, obj, b, i).0.Shaped() && Absorb(p, obj, b, i).1 < p.Size() == Absorb(p, obj, b, i).0.Size()
  {
    RemoveShaped(p, i, b);
    var p1 := p.Remove(i, b);
    if b < obj then (p1.Mark(b, false).SetOrder(b, i + 1), b) else (p1.SetOrder(obj, i + 1), obj)
  }

  function Merge(p: Pool, obj: nat, i: nat): (r: (Pool, nat))
    requires p.Shaped() && obj < p.Size()
    ensures r.0.Shaped() && r.1 < r.0.Size() == p.Size()
    decreases MAX_ORDER - i
  {
    match BuddyOf(p, obj, i)
    case None => (p, obj)
    case Some(b) =>
      if p.used[b] then (p, obj)
      else var (p1, obj1) := Absorb(p, obj, b, i); Merge(p1, obj1, i + 1)
  }

  /** None stands for the out-of-bounds panic on the list of order MAX_ORDER. */
  function Free(p: Pool, obj: nat): (r: Option<Pool>)
    requires p.Shaped() && obj < p.Size()
    ensures r.Some? ==> r.value.Shaped()
  {
    var (q, top) := Merge(p.Mark(obj, false), obj, p.order[obj]);
    if q.order[top] < MAX_ORDER then Some(q.Push(q.order[top], top)) else None
  }

  function CountFrom(p: Pool, o: nat): int
    requires p.Shaped() && o <= MAX_ORDER
    decreases MAX_ORDER - o
  {
    if o == MAX_ORDER then 0 else p.counts[o] * Pow2(o) + CountFrom(p, o + 1)
  }

  function CountFree(p: Pool): int
    requires p.Shaped()
  {
    CountFrom(p, 0)
  }

  lemma {:induction false} WithoutIn(s: seq<nat>, x: nat, y: nat)
    ensures y in Without(s, x) ==> y in s
    ensures y in s && y != x ==> y in Without(s, x)
    ensures |Without(s, x)| == if x in s then |s| - 1 else |s|
  {
    if s != [] && s[0] != x {
      WithoutIn(s[1..], x, y);
    }
  }

  lemma {:induction false} RemoveShaped(p: Pool, o: nat, h: nat)
    requires p.Shaped() && o < MAX_ORDER
    ensures p.Remove(o, h).Shaped()
  {
    forall y | y in Without(p.lists[o], h) ensures y in p.lists[o] {
      WithoutIn(p.lists[o], h, y);
    }
  }

  // ----- the invariant

  /** `H` is the set of block heads; every block is aligned to its size and managed. */
  ghost predicate Fits(p: Pool, H: set<nat>) {
    forall h :: h in H ==>
                  h < p.Size() && p.order[h] < MAX_ORDER && Aligned(h, p.order[h]) && h + Pow2(p.order[h]) <= p.Size()
  }

  ghost predicate Disjoint(p: Pool, H: set<nat>)
    requires Fits(p, H)
  {
    forall g, h :: g in H && h in H && g < h ==> g + Pow2(p.order[g]) <= h
  }

  ghost predicate Owned(p: Pool, H: set<nat>, x: nat)
    requires Fits(p, H)
  {
    exists h :: h in H && InBlock(h, p.order[h], x)
  }

  ghost predicate Covered(p: Pool, H: set<nat>)
    requires Fits(p, H)
  {
    forall x :: 0 <= x < p.Size() ==> Owned(p, H, x)
  }

  predicate IsFree(p: Pool, H: set<nat>, h: int, o: nat)
    requires |p.used| == |p.order|
  {
    h in H && 0 <= h < p.Size() && !p.used[h] && p.order[h] == o
  }

  predicate NoDup(s: seq<nat>) {
    forall i, j :: 0 <= i < j < |s| ==> s[i] != s[j]
  }

  ghost predicate ListExact(p: Pool, H: set<nat>, o: nat)
    requires p.Shaped() && o < MAX_ORDER
  {
    && NoDup(p.lists[o])
    && p.counts[o] == |p.lists[o]|
    && forall h: nat :: h in p.lists[o] <==> IsFree(p, H, h, o)
  }

  ghost predicate Listed(p: Pool, H: set<nat>)
    requires p.Shaped()
  {
    forall o :: 0 <= o < MAX_ORDER ==> ListExact(p, H, o)
  }

  /** No free block could be merged with a free buddy of its own order. */
  ghost predicate Coalesced(p: Pool, H: set<nat>)
    requires p.Shaped()
  {
    forall h: nat, o: nat :: IsFree(p, H, h, o) && o < MAX_ORDER - 1 ==> !IsFree(p, H, Flip(h, o), o)
  }

  ghost predicate Tiling(p: Pool, H: set<nat>) {
    && p.Shaped()
    && Fits(p, H)
    && Disjoint(p, H)
    && Covered(p, H)
  }

  ghost predicate InvOn(p: Pool, H: set<nat>) {
    && Tiling(p, H)
    && Listed(p, H)
    && Coalesced(p, H)
  }

  // ----- the four elementary moves

  lemma {:induction false} WithoutNoDup(s: seq<nat>, x: nat)
    requires NoDup(s)
    ensures NoDup(Without(s, x))
    ensures x !in Without(s, x)
  {
    if s != [] && s[0] != x {
      WithoutNoDup(s[1..], x);
      WithoutIn(s[1..], x, s[0]);
      var t := Without(s[1..], x);
      assert s[0] !in s[1..];
      forall j | 0 < j < |t| + 1 ensures ([s[0]] + t)[j] != s[0] {
        assert t[j - 1] in t;
      }
    }
  }

  /** A free block leaves its list and becomes used. */
  lemma {:induction false} Take(p: Pool, H: set<nat>, h: nat)
    requires InvOn(p, H) && h < p.Size() && IsFree(p, H, h, p.order[h])
    ensures InvOn(p.Remove(p.order[h], h).Mark(h, true), H)
  {
    var o := p.order[h];
    RemoveShaped(p, o, h);
    var q := p.Remove(o, h).Mark(h, true);
    assert ListExact(p, H, o);
    WithoutNoDup(p.lists[o], h);
    WithoutIn(p.lists[o], h, h);
    assert Tiling(q, H) by { TilingSame(p, q, H); }
    forall k | 0 <= k < MAX_ORDER ensures ListExact(q, H, k) {
      assert ListExact(p, H, k);
      forall g: nat ensures g in q.lists[k] <==> IsFree(q, H, g, k) {
        WithoutIn(p.lists[o], h, g);
      }
    }
    assert forall g: nat, k: nat :: IsFree(q, H, g, k) ==> IsFree(p, H, g, k);
  }

  lemma {:induction false} TilingSame(p: Pool, q: Pool, H: set<nat>)
    requires Tiling(p, H) && q.Shaped() && q.Size() == p.Size()
    requires forall h :: h in H ==> q.order[h] == p.order[h]
    ensures Tiling(q, H)
  {
    forall x | 0 <= x < q.Size() ensures Owned(q, H, x) {
      assert Owned(p, H, x);
    }
  }

  /** A used block whose buddy cannot absorb it joins the free list of its order. */
  lemma {:induction false} Put(p: Pool, H: set<nat>, h: nat)
    requires InvOn(p, H) && h in H && p.used[h]
    requires p.order[h] < MAX_ORDER - 1 ==> !IsFree(p, H, Flip(h, p.order[h]), p.order[h])
    ensures InvOn(p.Mark(h, false).Push(p.order[h], h), H)
  {
    var o := p.order[h];
    var q := p.Mark(h, false).Push(o, h);
    assert Tiling(q, H) by { TilingSame(p, q, H); }
    forall k | 0 <= k < MAX_ORDER ensures ListExact(q, H, k) {
      assert ListExact(p, H, k);
      assert h !in p.lists[k];
    }
    forall g: nat, k: nat | IsFree(q, H, g, k) && k < MAX_ORDER - 1 ensures !IsFree(q, H, Flip(g, k), k) {
      Buddies(g, k);
      assert g != h ==> IsFree(p, H, g, k);
    }
  }

  /** A block of order i + 1 is cut into two blocks of order i. */
  lemma {:induction false} CutTiling(p: Pool, H: set<nat>, h: nat, hi: nat, i: nat, q: Pool)
    requires Tiling(p, H) && h in H && p.order[h] == i + 1 && hi == h + Pow2(i) && hi < p.Size()
    requires q.Shaped() && q.order == p.order[h := i][hi := i]
    ensures hi !in H && Tiling(q, H + {hi})
  {
    CutFits(p, H, h, hi, i, q);
    forall x | 0 <= x < q.Size() ensures Owned(q, H + {hi}, x) {
      assert Owned(p, H, x);
      var g :| g in H && InBlock(g, p.order[g], x);
      var g' := if g == h && hi <= x then hi else g;
      assert g' in H + {hi} && InBlock(g', q.order[g'], x);
    }
  }

  lemma {:induction false} CutFits(p: Pool, H: set<nat>, h: nat, hi: nat, i: nat, q: Pool)
    requires Tiling(p, H) && h in H && p.order[h] == i + 1 && hi == h + Pow2(i) && hi < p.Size()
    requires q.Shaped() && q.order == p.order[h := i][hi := i]
    ensures hi !in H && Fits(q, H + {hi}) && Disjoint(q, H + {hi})
  {
    Halves(h, i);
    assert Pow2(i + 1) == 2 * Pow2(i);
    assert hi !in H;
    assert forall g :: g in H && g != h ==> q.order[g] == p.order[g];
    assert forall g :: g in H && h < g ==> hi + Pow2(i) <= g;
    assert q.order[h] == i && q.order[hi] == i;
    CutApart(p, H, h, hi, i, q);
  }

  lemma {:induction false} CutApart(p: Pool, H: set<nat>, h: nat, hi: nat, i: nat, q: Pool)
    requires Fits(p, H) && Disjoint(p, H) && h in H && h < hi < |q.order| && Fits(q, H + {hi})
    requires q.order[h] == i == q.order[hi] && h + Pow2(i) == hi
    requires forall g :: g in H && g != h ==> q.order[g] == p.order[g] && (h < g ==> hi + Pow2(i) <= g)
    ensures Disjoint(q, H + {hi})
  {
  }

  /** A used block of order i + 1 is cut into two used blocks of order i. */
  lemma {:induction false} Cut(p: Pool, H: set<nat>, h: nat, hi: nat, i: nat)
    requires InvOn(p, H) && h in H && p.used[h] && p.order[h] == i + 1 && hi == h + Pow2(i)
    ensures hi < p.Size() && hi !in H
    ensures InvOn(p.SetOrder(h, i).SetOrder(hi, i).Mark(hi, true), H + {hi})
  {
    assert hi < p.Size();
    var q := p.SetOrder(h, i).SetOrder(hi, i).Mark(hi, true);
    CutTiling(p, H, h, hi, i, q);
    SameFree(p, H, q, H + {hi});
  }

  /** Two buddies of order i become one block of order i + 1. */
  lemma {:induction false} JoinTiling(p: Pool, H: set<nat>, h: nat, hi: nat, i: nat, q: Pool)
    requires Tiling(p, H) && h in H && hi in H && hi == h + Pow2(i)
    requires p.order[h] == i == p.order[hi] && Aligned(h, i + 1) && i + 1 < MAX_ORDER
    requires q.Shaped() && q.order == p.order[h := i + 1]
    ensures Tiling(q, H - {hi})
  {
    var G := H - {hi};
    assert Fits(q, G);
    forall x | 0 <= x < q.Size() ensures Owned(q, G, x) {
      assert Owned(p, H, x);
      var g :| g in H && InBlock(g, p.order[g], x);
      if g == h || g == hi {
        assert InBlock(h, q.order[h], x);
      } else {
        assert InBlock(g, q.order[g], x);
      }
    }
  }

  /** Two used buddies of order i become one used block of order i + 1. */
  lemma {:induction false} Join(p: Pool, H: set<nat>, h: nat, hi: nat, i: nat)
    requires InvOn(p, H) && h in H && hi in H && hi == h + Pow2(i) && p.used[h] && p.used[hi]
    requires p.order[h] == i == p.order[hi] && Aligned(h, i + 1) && i + 1 < MAX_ORDER
    ensures InvOn(p.SetOrder(h, i + 1), H - {hi})
  {
    var q := p.SetOrder(h, i + 1);
    JoinTiling(p, H, h, hi, i, q);
    SameFree(p, H, q, H - {hi});
  }

  /** Lists and coalescing depend on the free blocks alone. */
  lemma {:induction false} SameFree(p: Pool, H: set<nat>, q: Pool, G: set<nat>)
    requires InvOn(p, H) && q.Shaped() && q.lists == p.lists && q.counts == p.counts
    requires forall g: nat, k: nat :: IsFree(q, G, g, k) <==> IsFree(p, H, g, k)
    ensures Listed(q, G) && Coalesced(q, G)
  {
    forall k | 0 <= k < MAX_ORDER ensures ListExact(q, G, k) {
      assert ListExact(p, H, k);
    }
  }

  /** Record cells inside a block do not matter. */
  lemma {:induction false} InteriorIrrelevant(p: Pool, q: Pool, H: set<nat>)
    requires InvOn(p, H) && q.Shaped() && q.Size() == p.Size()
    requires q.lists == p.lists && q.counts == p.counts
    requires forall h :: h in H ==> q.order[h] == p.order[h] && q.used[h] == p.used[h]
    ensures InvOn(q, H)
  {
    TilingSame(p, q, H);
    SameFree(p, H, q, H);
  }
}
