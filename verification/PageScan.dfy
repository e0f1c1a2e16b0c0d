/**
 Searching a table for free slots, and `find_empty_pages`, which descends
 through the first free slot of each level.
 */
module PageScan {
  import opened Frames
  import opened Wrappers
  import opened BuddySystem
  import opened BuddyCorrect
  import opened PageTables
  import opened PageLink
  import opened PageMap

  // ----- one table

  /** Slots k, ..., k + count - 1 exist and are all free. */
  predicate FreeRun(t: seq<nat>, k: nat, count: nat)
    requires |t| == ENTRIES
  {
    1 <= k && k + count <= ENTRIES && forall j :: k <= j < k + count ==> !IsPresent(t[j])
  }

  ghost predicate HasRun(t: seq<nat>, count: nat)
    requires |t| == ENTRIES
  {
    exists k: nat :: FreeRun(t, k, count)
  }

  /** The first free slot from k upward; ENTRIES if there is none. Slot 0 is never considered. */
  function FirstFree(t: seq<nat>, k: nat): (r: nat)
    requires |t| == ENTRIES && 1 <= k <= ENTRIES
    ensures k <= r <= ENTRIES
    ensures forall j :: k <= j < r ==> IsPresent(t[j])
    ensures r < ENTRIES ==> !IsPresent(t[r])
    decreases ENTRIES - k
  {
    if k == ENTRIES || !IsPresent(t[k]) then k else FirstFree(t, k + 1)
  }

  /** `find_free_entry_index_with`: the first free slot whenever some run is long enough. */
  ghost function FindFree(t: seq<nat>, count: nat): Option<Slot>
    requires |t| == ENTRIES && 1 <= count
  {
    if HasRun(t, count) then
      var k: nat :| FreeRun(t, k, count);
      assert !IsPresent(t[k]);
      Some(FirstFree(t, 1) as Slot)
    else None
  }

  /** The `run` slots before slot i are free, and no more than those. */
  predicate FreeTail(t: seq<nat>, i: nat, run: nat)
    requires |t| == ENTRIES && 1 <= i <= ENTRIES
  {
    && run < i && (forall j :: i - run <= j < i ==> !IsPresent(t[j]))
    && (run == i - 1 || IsPresent(t[i - 1 - run]))
  }

  ghost predicate NoRunBefore(t: seq<nat>, i: nat, count: nat)
    requires |t| == ENTRIES
  {
    forall k: nat :: k + count <= i ==> !FreeRun(t, k, count)
  }

  /** The first free slot among those before slot i, if there is one. */
  predicate FirstSeen(t: seq<nat>, i: nat, index: Option<nat>)
    requires |t| == ENTRIES && 1 <= i <= ENTRIES
  {
    match index
    case None => FirstFree(t, 1) == FirstFree(t, i)
    case Some(k) => FirstFree(t, 1) == k && 1 <= k < i
  }

  /** One more free slot does not complete a run. */
  lemma {:induction false} NoRunAt(t: seq<nat>, i: nat, run: nat, count: nat)
    requires |t| == ENTRIES && 1 <= i <= ENTRIES && FreeTail(t, i, run) && run < count
    requires 1 < i && NoRunBefore(t, i - 1, count)
    ensures NoRunBefore(t, i, count)
  {
    forall k: nat | k + count <= i ensures !FreeRun(t, k, count) {
      if k + count == i && 1 <= k {
        assert k <= i - 1 - run < i;
        assert IsPresent(t[i - 1 - run]);
      }
    }
  }

  /** After slots 1 to i - 1: c more free slots would complete a run, and `index` is the first free one so far. */
  ghost predicate Scanned(t: seq<nat>, i: nat, count: nat, c: nat, index: Option<nat>)
    requires |t| == ENTRIES && 1 <= i <= ENTRIES
  {
    && 1 <= c <= count && FreeTail(t, i, count - c) && NoRunBefore(t, i, count)
    && FirstSeen(t, i, index) && (c < count ==> index.Some?)
  }

  lemma {:induction false} ScanStart(t: seq<nat>, count: nat)
    requires |t| == ENTRIES && 1 <= count
    ensures Scanned(t, 1, count, count, None)
  {
  }

  lemma {:induction false} ScanStep(t: seq<nat>, i: nat, count: nat, c: nat, index: Option<nat>, c1: nat,
                                    index1: Option<nat>)
    requires |t| == ENTRIES && 1 <= i < ENTRIES && Scanned(t, i, count, c, index)
    requires if IsPresent(t[i]) then c1 == count && index1 == index
             else 1 <= c1 == c - 1 && index1 == if index.None? then Some(i) else index
    ensures Scanned(t, i + 1, count, c1, index1)
  {
    NoRunAt(t, i + 1, count - c1, count);
  }

  /** The scanning loop. It never resets `index`, so it answers with the first free slot. */
  method FindFreeEntryIndexWith(t: seq<nat>, count: nat) returns (r: Option<Slot>)
    requires |t| == ENTRIES && 1 <= count
    ensures r == FindFree(t, count)
    ensures r.Some? <==> HasRun(t, count)
    ensures r.Some? ==> 1 <= r.value && !IsPresent(t[r.value]) && forall j :: 1 <= j < r.value ==> IsPresent(t[j])
  {
    var index: Option<nat> := None;
    var c := count;
    var i: nat := 1;
    ScanStart(t, count);
    while i < 512
      invariant 1 <= i <= 512
      invariant Scanned(t, i, count, c, index)
    {
      ghost var seen, left := index, c;
      if !IsPresent(t[i]) {
        if index.None? {
          index := Some(i);
        }
        c := c - 1;
        if c == 0 {
          RunEnds(t, i, count, seen, index.value);
          return Some(index.value);
        }
      } else {
        c := count;
      }
      ScanStep(t, i, count, left, seen, c, index);
      i := i + 1;
    }
    NoRunAtAll(t, count, c, index);
    return None;
  }

  /** The run is complete: the first free slot is the answer. */
  lemma {:induction false} RunEnds(t: seq<nat>, i: nat, count: nat, seen: Option<nat>, index: nat)
    requires |t| == ENTRIES && 1 <= i < ENTRIES && Scanned(t, i, count, 1, seen) && !IsPresent(t[i])
    requires index == if seen.None? then i else seen.value
    ensures index < ENTRIES && HasRun(t, count) && FindFree(t, count) == Some(index)
    ensures 1 <= index && !IsPresent(t[index]) && forall j :: 1 <= j < index ==> IsPresent(t[j])
  {
    assert FreeRun(t, i + 1 - count, count);
  }

  lemma {:induction false} NoRunAtAll(t: seq<nat>, count: nat, c: nat, index: Option<nat>)
    requires |t| == ENTRIES && 1 <= count && Scanned(t, ENTRIES, count, c, index)
    ensures !HasRun(t, count) && FindFree(t, count) == None
  {
  }

  predicate IsFresh(t: seq<nat>, f: nat) {
    t == ZeroTable()[SELF := Writable(Link(0, f))]
  }

  lemma {:induction false} FirstFreeIs(t: seq<nat>, k: nat)
    requires |t| == ENTRIES && 1 <= k < ENTRIES && !IsPresent(t[k]) && forall j :: 1 <= j < k ==> IsPresent(t[j])
    ensures FirstFree(t, 1) == k
  {
    var r := FirstFree(t, 1);
    assert !(k < r);
  }

  lemma {:induction false} FreshSlots(t: seq<nat>, f: nat)
    requires IsFresh(t, f)
    ensures |t| == ENTRIES && IsPresent(t[SELF])
    ensures forall j :: 0 <= j < 511 ==> t[j] == 0
  {
    SelfWordPresent(f);
  }

  lemma {:induction false} SelfWordPresent(f: nat)
    ensures IsPresent(Writable(Link(0, f)))
  {
    var w := f * FRAME + 1;
    assert w == 2 * (2048 * f) + 1;
  }

  /** In a fresh table a run of up to 510 slots is found, and it starts at slot 1. */
  lemma {:induction false} FreshScan(t: seq<nat>, f: nat, count: nat)
    requires IsFresh(t, f) && 1 <= count
    ensures FindFree(t, count) == if count <= 510 then Some(1) else None
    ensures FreeRun(t, 1, 510)
  {
    FreshSlots(t, f);
    FirstFreeIs(t, 1);
    if count <= 510 {
      assert FreeRun(t, 1, count);
    } else {
      forall k: nat ensures !FreeRun(t, k, count) {
        assert FreeRun(t, k, count) ==> k <= 511 < k + count;
      }
    }
  }

  /** Exactly when the answer starts a run: the free slots from the first free one on are enough. */
  lemma {:induction false} AnswerStartsRun(t: seq<nat>, count: nat)
    requires |t| == ENTRIES && 1 <= count && HasRun(t, count)
    ensures FindFree(t, count) == Some(FirstFree(t, 1)) && FirstFree(t, 1) < ENTRIES
    ensures FreeRun(t, FirstFree(t, 1), count) <==> count <= FirstPresent(t, FirstFree(t, 1)) - FirstFree(t, 1)
  {
    var x: nat :| FreeRun(t, x, count);
    assert !IsPresent(t[x]);
    assert FirstFree(t, 1) <= x;
  }

  /** The first present slot from k upward; ENTRIES if there is none. */
  function FirstPresent(t: seq<nat>, k: nat): (r: nat)
    requires |t| == ENTRIES && 1 <= k <= ENTRIES
    ensures k <= r <= ENTRIES
    ensures forall j :: k <= j < r ==> !IsPresent(t[j])
    ensures r < ENTRIES ==> IsPresent(t[r])
    decreases ENTRIES - k
  {
    if k == ENTRIES || IsPresent(t[k]) then k else FirstPresent(t, k + 1)
  }

  /** In other tables the answer for two or more slots need not start a run. */
  lemma {:induction false} AnswerCanMiss()
    ensures exists t: seq<nat> :: |t| == ENTRIES && FindFree(t, 2) == Some(1) && !FreeRun(t, 1, 2)
  {
    var t := ZeroTable()[2 := 1];
    assert FreeRun(t, 3, 2);
    FirstFreeIs(t, 1);
    assert IsPresent(t[2]);
  }

  // ----- find_empty_pages

  /** Through the first free slot of k levels, then a run of `count` slots in the table reached. */
  ghost function Probe(s: Sys, t: nat, k: nat, count: nat): (r: (Sys, Option<seq<Slot>>))
    requires s.pool.Shaped() && 1 <= count
    ensures r.0.pool.Shaped()
    ensures r.1.Some? ==> |r.1.value| == k + 1
    decreases k
  {
    match FindFree(Tab(s.mem, t), if k == 0 then count else 1)
    case None => (s, None)
    case Some(i) =>
      if k == 0 then (s, Some([i]))
      else
        var (s1, next) := CreateNext(s, t, i);
        match next
        case None => (s1, None)
        case Some(g) =>
          var (s2, rest) := Probe(s1, g, k - 1, count);
          (s2, match rest case None => None case Some(p) => Some([i] + p))
  }

  ghost function FindEmptyPages(s: Sys, q: nat, count: nat): (r: (Sys, Option<seq<Slot>>))
    requires s.pool.Shaped() && 1 <= count
    ensures r.0.pool.Shaped()
    ensures r.1.Some? ==> |r.1.value| == 4
  {
    Probe(s, q, 3, count)
  }

  function Ones(k: nat): seq<Slot> {
    seq(k, _ => 1)
  }

  lemma {:induction false} FreeSlotNoHuge(m: Memory, f: nat, i: Slot)
    requires FindFree(Tab(m, f), 1) == Some(i)
    ensures HugeFree(m, f, [i])
  {
    assert HasRun(Tab(m, f), 1);
    var j: nat :| FreeRun(Tab(m, f), j, 1);
    assert !IsPresent(Tab(m, f)[j]);
  }

  /** One level of the search: through slot i, if it is the first free one. */
  lemma {:induction false} ProbeStep(s: Sys, q: nat, p: seq<Slot>, i: Slot, k: nat, count: nat)
    requires SpaceOk(s, q) && Node(s.mem, q, p) && |p| + k == 3 && 1 <= count && 0 < k && i != SELF
    requires FindFree(Tab(s.mem, At(s.mem, q, p)), 1) == Some(i)
    ensures var (s1, next) := CreateNext(s, At(s.mem, q, p), i); var (t, r) := Probe(s, At(s.mem, q, p), k, count);
            && SpaceOk(s1, q) && Grows(s, s1, q) && SamePages(s.mem, s1.mem, q)
            && (next.None? <==> CountFree(s.pool) == 0)
            && (next.None? ==> r.None? && t == s)
            && (next.Some? ==>
                  && CountFree(s1.pool) == CountFree(s.pool) - 1
                  && Node(s1.mem, q, p + [i]) && At(s1.mem, q, p + [i]) == next.value
                  && IsFresh(Tab(s1.mem, next.value), next.value)
                  && t == Probe(s1, next.value, k - 1, count).0
                  && r == match Probe(s1, next.value, k - 1, count).1 case None => None case Some(b) => Some([i] + b))
  {
    var tab := At(s.mem, q, p);
    assert HasRun(Tab(s.mem, tab), 1);
    var j: nat :| FreeRun(Tab(s.mem, tab), j, 1);
    assert !IsPresent(Entry(s.mem, tab, i));
    CreateNextCorrect(s, q, p, i);
    var (s1, next) := CreateNext(s, tab, i);
    if next.Some? {
      NodeBelow(s1.mem, q, p, i, [i]);
    }
  }

  /** Below a fresh table the search always goes through slot 1, creating every table on the way. */
  lemma {:induction false} ProbeFresh(s: Sys, q: nat, p: seq<Slot>, k: nat, count: nat)
    requires SpaceOk(s, q) && Node(s.mem, q, p) && |p| + k == 3 && 1 <= count
    requires IsFresh(Tab(s.mem, At(s.mem, q, p)), At(s.mem, q, p))
    ensures ProbeOutcome(s, q, p, k, count, Ones(k + 1), p + Ones(k))
    decreases k
  {
    var tab := At(s.mem, q, p);
    if k == 0 {
      ProbeLeaf(s, q, p, count);
    } else {
      assert FindFree(Tab(s.mem, tab), 1) == Some(1) by { FreshScan(Tab(s.mem, tab), tab, 1); }
      var (s1, next) := CreateNext(s, tab, 1);
      if next.Some? {
        assert SpaceOk(s1, q) && Node(s1.mem, q, p + [1])
               && IsFresh(Tab(s1.mem, At(s1.mem, q, p + [1])), At(s1.mem, q, p + [1])) by {
          ProbeStep(s, q, p, 1, k, count);
        }
        ProbeFresh(s1, q, p + [1], k - 1, count);
        OnesExtend(p, k);
        ProbeExtend(s, q, p, 1, k, count);
      } else {
        ProbeStarved(s, q, p, k, count);
      }
    }
  }

  lemma {:induction false} ProbeStarved(s: Sys, q: nat, p: seq<Slot>, k: nat, count: nat)
    requires SpaceOk(s, q) && Node(s.mem, q, p) && |p| + k == 3 && 1 <= count && 0 < k
    requires FindFree(Tab(s.mem, At(s.mem, q, p)), 1) == Some(1) && CreateNext(s, At(s.mem, q, p), 1).1.None?
    ensures ProbeOutcome(s, q, p, k, count, Ones(k + 1), p + Ones(k))
  {
    ProbeStep(s, q, p, 1, k, count);
    GrowsRefl(s, q);
  }

  lemma {:induction false} OnesExtend(p: seq<Slot>, k: nat)
    requires 0 < k
    ensures p + [1] + Ones(k - 1) == p + Ones(k) && [1] + Ones(k) == Ones(k + 1)
  {
  }

  lemma {:induction false} ProbeLeaf(s: Sys, q: nat, p: seq<Slot>, count: nat)
    requires SpaceOk(s, q) && Node(s.mem, q, p) && |p| == 3 && 1 <= count
    requires IsFresh(Tab(s.mem, At(s.mem, q, p)), At(s.mem, q, p))
    ensures ProbeOutcome(s, q, p, 0, count, Ones(1), p + Ones(0))
  {
    FreshScan(Tab(s.mem, At(s.mem, q, p)), At(s.mem, q, p), count);
    NoneFree(s.pool);
    GrowsRefl(s, q);
    assert p + Ones(0) == p;
    assert Ones(1) == [1];
  }

  /** The search from p answers with ans, a page of the table at path, if k frames can be had. */
  ghost predicate ProbeOutcome(s: Sys, q: nat, p: seq<Slot>, k: nat, count: nat, ans: seq<Slot>, path: seq<Slot>)
    requires SpaceOk(s, q) && Node(s.mem, q, p) && 1 <= count
  {
    var (t, r) := Probe(s, At(s.mem, q, p), k, count);
    && SpaceOk(t, q) && Grows(s, t, q) && SamePages(s.mem, t.mem, q)
    && (r.Some? <==> k <= CountFree(s.pool) && count <= 510)
    && (r.Some? ==> r.value == ans && RunBelow(t, q, path))
    && CountFree(t.pool) == if k <= CountFree(s.pool) then CountFree(s.pool) - k else 0
  }

  /** The last-level table at path has its slots 1 to 510 free. */
  ghost predicate RunBelow(t: Sys, q: nat, path: seq<Slot>) {
    Node(t.mem, q, path) && FreeRun(Tab(t.mem, At(t.mem, q, path)), 1, 510)
  }

  lemma {:induction false} ProbeExtend(s: Sys, q: nat, p: seq<Slot>, i: Slot, k: nat, count: nat)
    requires SpaceOk(s, q) && Node(s.mem, q, p) && |p| + k == 3 && 1 <= count && 0 < k && i != SELF
    requires FindFree(Tab(s.mem, At(s.mem, q, p)), 1) == Some(i) && CreateNext(s, At(s.mem, q, p), i).1.Some?
    requires var s1 := CreateNext(s, At(s.mem, q, p), i).0;
             SpaceOk(s1, q) && Node(s1.mem, q, p + [i])
               && ProbeOutcome(s1, q, p + [i], k - 1, count, Ones(k), p + [i] + Ones(k - 1))
    ensures ProbeOutcome(s, q, p, k, count, [i] + Ones(k), p + [i] + Ones(k - 1))
  {
    ProbeStep(s, q, p, i, k, count);
    var (s1, next) := CreateNext(s, At(s.mem, q, p), i);
    GrowsTrans(s, s1, Probe(s1, next.value, k - 1, count).0, q);
    NoneFree(s1.pool);
  }

  /** `find_empty_pages` always opens a new slot of the root: it needs a free root slot, exactly three
      frames, and at most 510 pages, and answers with the first page of the new tables. With a free root slot it takes
      the three frames, or as many as there are, even when it fails; without one it takes none. */
  lemma {:induction false} FindEmptyCorrect(s: Sys, q: nat, count: nat)
    requires SpaceOk(s, q) && IsPresent(Entry(s.mem, q, SELF)) && 1 <= count
    ensures var (t, r) := FindEmptyPages(s, q, count); var i := FirstFree(Tab(s.mem, q), 1);
            && SpaceOk(t, q) && Grows(s, t, q) && SamePages(s.mem, t.mem, q)
            && (r.Some? <==> i < SELF && 3 <= CountFree(s.pool) && count <= 510)
            && CountFree(t.pool) == (if SELF <= i then CountFree(s.pool)
                                     else if 3 <= CountFree(s.pool) then CountFree(s.pool) - 3 else 0)
            && (r.Some? ==> r.value == [i, 1, 1, 1] && RunBelow(t, q, [i, 1, 1]))
  {
    var i := FirstFree(Tab(s.mem, q), 1);
    NoneFree(s.pool);
    RootScan(s.mem, q);
    if i < SELF {
      FindEmptyAt(s, q, i, count);
    } else {
      GrowsRefl(s, q);
    }
  }

  lemma {:induction false} FindEmptyAt(s: Sys, q: nat, i: Slot, count: nat)
    requires SpaceOk(s, q) && 1 <= count && i != SELF && FindFree(Tab(s.mem, q), 1) == Some(i)
    ensures FoundAt(s, q, i, count)
  {
    var next := CreateNext(s, q, i).1;
    var root: seq<Slot> := [];
    assert Follow(s.mem, q, root) == Some(q) && Node(s.mem, q, root) && At(s.mem, q, root) == q;
    if next.Some? {
      FoundDown(s, q, i, count);
    } else {
      FoundStarved(s, q, i, count);
    }
  }

  lemma {:induction false} FoundDown(s: Sys, q: nat, i: Slot, count: nat)
    requires SpaceOk(s, q) && 1 <= count && i != SELF && FindFree(Tab(s.mem, q), 1) == Some(i)
    requires Node(s.mem, q, []) && At(s.mem, q, []) == q && CreateNext(s, q, i).1.Some?
    ensures FoundAt(s, q, i, count)
  {
    var s1 := CreateNext(s, q, i).0;
    var root: seq<Slot> := [];
    assert SpaceOk(s1, q) && Node(s1.mem, q, root + [i])
           && IsFresh(Tab(s1.mem, At(s1.mem, q, root + [i])), At(s1.mem, q, root + [i])) by {
      ProbeStep(s, q, root, i, 3, count);
    }
    ProbeFresh(s1, q, root + [i], 2, count);
    FoundThrough(s, q, i, count);
  }

  lemma {:induction false} FoundStarved(s: Sys, q: nat, i: Slot, count: nat)
    requires SpaceOk(s, q) && 1 <= count && i != SELF && FindFree(Tab(s.mem, q), 1) == Some(i)
    requires Node(s.mem, q, []) && At(s.mem, q, []) == q && CreateNext(s, q, i).1.None?
    ensures FoundAt(s, q, i, count)
  {
    var root: seq<Slot> := [];
    ProbeStep(s, q, root, i, 3, count);
    GrowsRefl(s, q);
  }

  ghost predicate FoundAt(s: Sys, q: nat, i: Slot, count: nat)
    requires Inv(s.pool) && 1 <= count
  {
    var (t, r) := FindEmptyPages(s, q, count);
    && SpaceOk(t, q) && Grows(s, t, q) && SamePages(s.mem, t.mem, q)
    && (r.Some? <==> 3 <= CountFree(s.pool) && count <= 510)
    && CountFree(t.pool) == (if 3 <= CountFree(s.pool) then CountFree(s.pool) - 3 else 0)
    && (r.Some? ==> r.value == [i, 1, 1, 1] && RunBelow(t, q, [i, 1, 1]))
  }

  lemma {:induction false} FoundThrough(s: Sys, q: nat, i: Slot, count: nat)
    requires SpaceOk(s, q) && 1 <= count && i != SELF && FindFree(Tab(s.mem, q), 1) == Some(i)
    requires Node(s.mem, q, []) && CreateNext(s, q, i).1.Some?
    requires var s1 := CreateNext(s, q, i).0;
             SpaceOk(s1, q) && Node(s1.mem, q, [] + [i])
               && ProbeOutcome(s1, q, [] + [i], 2, count, Ones(3), [] + [i] + Ones(2))
    ensures FoundAt(s, q, i, count)
  {
    var root: seq<Slot> := [];
    ProbeExtend(s, q, root, i, 3, count);
    OnesBelow(root, i);
  }

  lemma {:induction false} OnesBelow(root: seq<Slot>, i: Slot)
    requires root == []
    ensures root + [i] + Ones(2) == [i, 1, 1] && [i] + Ones(3) == [i, 1, 1, 1]
  {
  }

  lemma {:induction false} RunStart(t: seq<nat>, k: nat, count: nat)
    requires |t| == ENTRIES && 1 <= count && FreeRun(t, k, count)
    ensures !IsPresent(t[k])
  {
  }

  lemma {:induction false} RootScan(m: Memory, q: nat)
    requires IsPresent(Entry(m, q, SELF))
    ensures var i := FirstFree(Tab(m, q), 1);
            && i != SELF
            && FindFree(Tab(m, q), 1) == if i < SELF then Some(i) else None
  {
    var t := Tab(m, q);
    var i := FirstFree(t, 1);
    if i < SELF {
      assert FreeRun(t, i, 1);
    } else {
      forall k: nat ensures !FreeRun(t, k, 1) {
        if FreeRun(t, k, 1) {
          RunStart(t, k, 1);
          assert false;
        }
      }
    }
  }
}
