/**
 Conservation: the counters add up to the number of free frames, and the free
 frames are exactly those outside the live blocks.
 */
module BuddyCount {
  import opened Bits
  import opened Blocks
  import opened BuddySystem
  import opened BuddyCanon
  import opened BuddyCorrect

  ghost function FreeFrames(p: Pool): set<int>
    requires p.Shaped()
  {
    set x | 0 <= x < p.Size() && FreeAt(p, x)
  }

  predicate Within(a: int, n: nat, y: int) {
    a <= y < a + n
  }

  function Interval(a: int, n: nat): set<int> {
    set y | a <= y < a + n && Within(a, n, y)
  }

  lemma {:induction false} IntervalSize(a: int, n: nat)
    ensures |Interval(a, n)| == n
  {
    if n != 0 {
      IntervalSize(a, n - 1);
      assert Interval(a, n) == Interval(a, n - 1) + {a + n - 1};
    }
  }

  ghost function ListFrames(s: seq<nat>, o: nat): set<int> {
    if s == [] then {} else Interval(s[0], Pow2(o)) + ListFrames(s[1..], o)
  }

  lemma {:induction false} ListFramesIn(s: seq<nat>, o: nat, y: int)
    ensures y in ListFrames(s, o) <==> exists h :: h in s && InBlock(h, o, y)
  {
    if s != [] {
      ListFramesIn(s[1..], o, y);
      if y in ListFrames(s[1..], o) {
        var h :| h in s[1..] && InBlock(h, o, y);
        assert h in s;
      } else if InBlock(s[0], o, y) {
        assert s[0] in s;
      }
    }
  }

  ghost predicate BlocksApart(s: seq<nat>, o: nat) {
    forall i, j :: 0 <= i < j < |s| ==> s[i] + Pow2(o) <= s[j] || s[j] + Pow2(o) <= s[i]
  }

  lemma {:induction false} FirstApart(s: seq<nat>, o: nat)
    requires s != [] && BlocksApart(s, o)
    ensures BlocksApart(s[1..], o) && Interval(s[0], Pow2(o)) !! ListFrames(s[1..], o)
  {
    assert forall i :: 0 <= i < |s| - 1 ==> s[1..][i] == s[i + 1];
    forall y | y in ListFrames(s[1..], o) ensures y !in Interval(s[0], Pow2(o)) {
      ListFramesIn(s[1..], o, y);
    }
  }

  lemma {:induction false} ListFramesSize(s: seq<nat>, o: nat)
    requires BlocksApart(s, o)
    ensures |ListFrames(s, o)| == |s| * Pow2(o)
  {
    if s != [] {
      var a, b := Interval(s[0], Pow2(o)), ListFrames(s[1..], o);
      assert |a + b| == Pow2(o) + (|s| - 1) * Pow2(o) by {
        FirstApart(s, o);
        ListFramesSize(s[1..], o);
        IntervalSize(s[0], Pow2(o));
      }
      MulGap(|s| - 1, |s|, Pow2(o));
      assert |s| * Pow2(o) == (|s| - 1) * Pow2(o) + Pow2(o);
    }
  }

  ghost function FramesFrom(p: Pool, o: nat): set<int>
    requires p.Shaped() && o <= MAX_ORDER
    decreases MAX_ORDER - o
  {
    if o == MAX_ORDER then {} else ListFrames(p.lists[o], o) + FramesFrom(p, o + 1)
  }

  lemma {:induction false} FramesFromIn(p: Pool, o: nat, y: int)
    requires p.Shaped() && o <= MAX_ORDER
    ensures y in FramesFrom(p, o) <==>
            exists h: nat, k: nat :: o <= k < MAX_ORDER && h in p.lists[k] && InBlock(h, k, y)
    decreases MAX_ORDER - o
  {
    if o < MAX_ORDER {
      ListFramesIn(p.lists[o], o, y);
      FramesFromIn(p, o + 1, y);
    }
  }

  lemma {:induction false} ListedApart(p: Pool, H: set<nat>, g: nat, i: nat, h: nat, j: nat)
    requires InvOn(p, H) && i < MAX_ORDER && j < MAX_ORDER
    requires g in p.lists[i] && h in p.lists[j]
    ensures g < h ==> g + Pow2(i) <= h
    ensures i != j ==> g != h
  {
    assert ListExact(p, H, i) && ListExact(p, H, j);
    assert IsFree(p, H, g, i) && IsFree(p, H, h, j);
  }

  lemma {:induction false} ListApart(p: Pool, H: set<nat>, o: nat)
    requires InvOn(p, H) && o < MAX_ORDER
    ensures BlocksApart(p.lists[o], o)
  {
    var s := p.lists[o];
    assert ListExact(p, H, o);
    forall i, j | 0 <= i < j < |s| ensures s[i] + Pow2(o) <= s[j] || s[j] + Pow2(o) <= s[i] {
      ListedApart(p, H, s[i], o, s[j], o);
      ListedApart(p, H, s[j], o, s[i], o);
    }
  }

  lemma {:induction false} FramesFromSize(p: Pool, H: set<nat>, o: nat)
    requires InvOn(p, H) && o <= MAX_ORDER
    ensures |FramesFrom(p, o)| == CountFrom(p, o)
    decreases MAX_ORDER - o
  {
    if o < MAX_ORDER {
      FramesFromSize(p, H, o + 1);
      assert ListExact(p, H, o);
      ListApart(p, H, o);
      ListFramesSize(p.lists[o], o);
      forall y | y in ListFrames(p.lists[o], o) ensures y !in FramesFrom(p, o + 1) {
        ListFramesIn(p.lists[o], o, y);
        var g :| g in p.lists[o] && InBlock(g, o, y);
        FramesFromIn(p, o + 1, y);
        forall h: nat, k: nat | o + 1 <= k < MAX_ORDER && h in p.lists[k] ensures !InBlock(h, k, y) {
          ListedApart(p, H, g, o, h, k);
          ListedApart(p, H, h, k, g, o);
        }
      }
      assert ListFrames(p.lists[o], o) !! FramesFrom(p, o + 1);
    }
  }

  /** `count_free_objs` is the number of free frames. */
  lemma {:induction false} CountIsFreeFrames(p: Pool)
    requires Inv(p)
    ensures CountFree(p) == |FreeFrames(p)|
  {
    var H := Heads(p);
    FramesFromSize(p, H, 0);
    forall y ensures y in FramesFrom(p, 0) <==> y in FreeFrames(p) {
      FramesFromIn(p, 0, y);
      if FreeAt(p, y) {
        var h: nat, o: nat :| o < MAX_ORDER && h in p.lists[o] && InBlock(h, o, y);
        var g := FreeOwner(p, H, y);
      }
    }
    assert FramesFrom(p, 0) == FreeFrames(p);
  }

  /** Some live block contains y. */
  ghost predicate Occupied(live: map<nat, nat>, y: int) {
    exists h :: h in live && InBlock(h, live[h], y)
  }

  /** A managed frame is either free or in a live block, never both. */
  lemma {:induction false} FreeXorOccupied(p: Pool, y: int)
    requires Inv(p)
    ensures FreeAt(p, y) <==> 0 <= y < p.Size() && !Occupied(Live(p), y)
  {
    var H := Heads(p);
    if FreeAt(p, y) {
      var h := FreeOwner(p, H, y);
      if Occupied(Live(p), y) {
        var g :| g in Live(p) && InBlock(g, Live(p)[g], y);
        HeadFree(p, H, g, y);
        assert false;
      }
    } else if 0 <= y < p.Size() {
      assert Owned(p, H, y);
      var g :| g in H && InBlock(g, p.order[g], y);
      HeadFree(p, H, g, y);
      assert g in Live(p) && InBlock(g, Live(p)[g], y);
    }
  }

  /** Adding a live block takes exactly its frames from the free ones. */
  lemma {:induction false} OneBlockLess(p: Pool, q: Pool, h: nat, r: nat)
    requires Inv(p) && Inv(q) && q.Size() == p.Size() && h !in Live(p) && Live(q) == Live(p)[h := r]
    ensures forall y :: FreeAt(q, y) <==> FreeAt(p, y) && !InBlock(h, r, y)
    ensures CountFree(q) == CountFree(p) - Pow2(r)
  {
    forall y: int ensures FreeAt(q, y) <==> FreeAt(p, y) && !InBlock(h, r, y) {
      FreeXorOccupied(p, y);
      FreeXorOccupied(q, y);
      OccupiedPlus(Live(p), h, r, y);
    }
    forall y | InBlock(h, r, y) ensures FreeAt(p, y) {
      NewBlockWasFree(p, q, h, r, y);
    }
    CountIsFreeFrames(p);
    CountIsFreeFrames(q);
    IntervalSize(h, Pow2(r));
    forall y | y in Interval(h, Pow2(r)) ensures y in FreeFrames(p) {
      assert InBlock(h, r, y);
      FreeXorOccupied(p, y);
    }
    assert FreeFrames(q) == FreeFrames(p) - Interval(h, Pow2(r));
    assert Interval(h, Pow2(r)) <= FreeFrames(p);
  }

  lemma {:induction false} OccupiedPlus(live: map<nat, nat>, h: nat, r: nat, y: int)
    requires h !in live
    ensures Occupied(live[h := r], y) <==> Occupied(live, y) || InBlock(h, r, y)
  {
    var m := live[h := r];
    if Occupied(live, y) {
      var g :| g in live && InBlock(g, live[g], y);
      assert g in m && InBlock(g, m[g], y);
    } else if InBlock(h, r, y) {
      assert h in m && InBlock(h, m[h], y);
    }
  }

  lemma {:induction false} NewBlockWasFree(p: Pool, q: Pool, h: nat, r: nat, y: int)
    requires Inv(p) && Inv(q) && q.Size() == p.Size() && h !in Live(p) && Live(q) == Live(p)[h := r]
    requires InBlock(h, r, y)
    ensures FreeAt(p, y)
  {
    var G := Heads(q);
    assert h in Live(q) && Live(q)[h] == r;
    FreeXorOccupied(p, y);
    if Occupied(Live(p), y) {
      var g :| g in Live(p) && InBlock(g, Live(p)[g], y);
      assert g in Live(q) && g != h;
      LiveApart(q, g, h, y);
    }
  }

  lemma {:induction false} LiveApart(p: Pool, g: nat, h: nat, y: int)
    requires Inv(p) && g in Live(p) && h in Live(p) && g != h
    ensures !(InBlock(g, Live(p)[g], y) && InBlock(h, Live(p)[h], y))
  {
    var H := Heads(p);
    assert Disjoint(p, H) && g in H && h in H;
  }
}
