/**
 Two edits of an address space: hanging a fresh table into a free slot, which
 changes no translation, and writing a leaf, which changes exactly one.
 */
module PageLink {
  import opened Wrappers
  import opened PageTables

  /** A walk whose first steps lead to table g continues from g. */
  lemma {:induction false} LookupAppend(m: Memory, f: nat, a: seq<Slot>, g: nat, b: seq<Slot>)
    requires Follow(m, f, a) == Some(g) && b != [] && |a + b| <= 4
    ensures Lookup(m, f, a + b) == Lookup(m, g, b)
    decreases a
  {
    if a == [] {
      assert a + b == b;
    } else {
      assert (a + b)[1..] == a[1..] + b;
      LookupAppend(m, Next(m, f, a[0]).value, a[1..], g, b);
    }
  }

  /** `next_level_table_create_mut` once it has frame f: link, clear, self slot. */
  function Linked(m: Memory, t: nat, i: Slot, f: nat): Memory {
    Write(Clear(Write(m, t, i, Link(Entry(m, t, i), f)), f), f, SELF, Writable(Link(0, f)))
  }

  lemma {:induction false} LinkedEntries(m: Memory, t: nat, i: Slot, f: nat)
    requires t != f
    ensures var n := Linked(m, t, i, f);
            && (forall g :: g != t && g != f ==> Tab(n, g) == Tab(m, g))
            && Tab(n, t) == Tab(m, t)[i := Link(Entry(m, t, i), f)]
            && Tab(n, f) == ZeroTable()[SELF := Writable(Link(0, f))]
  {
  }

  /** The situation in which a table is created: slot i of the table at p is free, f is no table of q. */
  ghost predicate Creatable(m: Memory, q: nat, p: seq<Slot>, i: Slot, f: nat) {
    && TreeOk(m, q)
    && Node(m, q, p) && |p| <= 2 && i != SELF
    && !IsPresent(Entry(m, At(m, q, p), i))
    && f < MAX_FRAME && !TableOf(m, q, f)
  }

  lemma {:induction false} LinkAgrees(m: Memory, q: nat, p: seq<Slot>, i: Slot, f: nat)
    requires Creatable(m, q, p, i, f)
    ensures At(m, q, p) != f
    ensures AgreeOff(m, Linked(m, At(m, q, p), i, f), q, p, i)
  {
    var t := At(m, q, p);
    assert TableOf(m, q, t);
    LinkedEntries(m, t, i, f);
    var n := Linked(m, t, i, f);
    forall a: seq<Slot>, j: Slot | Node(m, q, a) && j != SELF && !(a == p && j == i)
      ensures Entry(n, At(m, q, a), j) == Entry(m, At(m, q, a), j)
    {
      var g := At(m, q, a);
      assert TableOf(m, q, g);
      assert g == t ==> a == p;
    }
  }

  lemma {:induction false} OrdinaryParts(a: seq<Slot>, i: Slot, b: seq<Slot>)
    ensures Ordinary(a + [i] + b) <==> Ordinary(a) && i != SELF && Ordinary(b)
  {
    var r := a + [i] + b;
    assert forall k :: 0 <= k < |a| ==> r[k] == a[k];
    assert r[|a|] == i;
    assert forall k :: 0 <= k < |b| ==> b[k] == r[|a| + 1 + k];
  }

  /** Where the tables are after a link. */
  lemma {:induction false} LinkedFollow(m: Memory, q: nat, p: seq<Slot>, i: Slot, f: nat, r: seq<Slot>)
    requires Creatable(m, q, p, i, f) && Ordinary(r) && |r| <= 3
    ensures Follow(Linked(m, At(m, q, p), i, f), q, r) == if r == p + [i] then Some(f) else Follow(m, q, r)
  {
    var t := At(m, q, p);
    var n := Linked(m, t, i, f);
    LinkAgrees(m, q, p, i, f);
    if p + [i] <= r {
      LinkedPath(m, q, p, i, f);
      var b := r[|p| + 1..];
      assert r == p + [i] + b;
      OrdinaryParts(p, i, b);
      FollowAppend(m, q, p + [i], b);
      FollowAppend(n, q, p + [i], b);
      LinkedEntries(m, t, i, f);
    } else {
      PathKept(m, n, q, p, i, r);
    }
  }

  lemma {:induction false} LinkedPath(m: Memory, q: nat, p: seq<Slot>, i: Slot, f: nat)
    requires Creatable(m, q, p, i, f)
    ensures Follow(m, q, p + [i]) == None
    ensures Follow(Linked(m, At(m, q, p), i, f), q, p + [i]) == Some(f)
  {
    var t := At(m, q, p);
    var n := Linked(m, t, i, f);
    LinkAgrees(m, q, p, i, f);
    PathKept(m, n, q, p, i, p);
    FollowOne(m, q, p, i);
    FollowOne(n, q, p, i);
    LinkedEntries(m, t, i, f);
    assert WordOk(Entry(m, At(m, q, p), i));
    LinkZero(f);
  }

  /** Creating a table changes no translation of an ordinary page. */
  lemma {:induction false} LinkedLookup(m: Memory, q: nat, p: seq<Slot>, i: Slot, f: nat, idx: seq<Slot>)
    requires Creatable(m, q, p, i, f) && Ordinary(idx) && |idx| == 4
    ensures Lookup(Linked(m, At(m, q, p), i, f), q, idx) == Lookup(m, q, idx)
  {
    var t := At(m, q, p);
    var n := Linked(m, t, i, f);
    LinkAgrees(m, q, p, i, f);
    if p + [i] <= idx {
      var b := idx[|p| + 1..];
      assert idx == p + [i] + b && idx == p + ([i] + b);
      OrdinaryParts(p, i, b);
      LinkedPath(m, q, p, i, f);
      LookupAppend(n, q, p + [i], f, b);
      LookupAppend(m, q, p, t, [i] + b);
      LinkedEntries(m, t, i, f);
      assert b[0] != SELF;
    } else {
      PageKept(m, n, q, p, i, idx);
    }
  }

  lemma {:induction false} LinkedTree(m: Memory, q: nat, p: seq<Slot>, i: Slot, f: nat)
    requires Creatable(m, q, p, i, f)
    ensures TreeOk(Linked(m, At(m, q, p), i, f), q)
  {
    var t := At(m, q, p);
    var n := Linked(m, t, i, f);
    forall a: seq<Slot> | Node(n, q, a)
      ensures if a == p + [i] then At(n, q, a) == f
              else Node(m, q, a) && At(n, q, a) == At(m, q, a) && TableOf(m, q, At(m, q, a))
    {
      LinkedFollow(m, q, p, i, f, a);
    }
    assert NoAlias(n, q);
    LinkAgrees(m, q, p, i, f);
    LinkedEntries(m, t, i, f);
    LinkZero(f);
    assert WordOk(Entry(m, At(m, q, p), i));
    forall a: seq<Slot>, j: Slot | Node(n, q, a) ensures WordOk(Entry(n, At(n, q, a), j)) {
      if a != p + [i] {
        assert WordOk(Entry(m, At(m, q, a), j));
      }
    }
  }

  // ----- leaves

  lemma {:induction false} LeafAgrees(m: Memory, q: nat, p: seq<Slot>, i: Slot, w: nat)
    requires TreeOk(m, q) && Node(m, q, p)
    ensures AgreeOff(m, Write(m, At(m, q, p), i, w), q, p, i)
  {
    var t := At(m, q, p);
    var n := Write(m, t, i, w);
    forall a: seq<Slot>, j: Slot | Node(m, q, a) && j != SELF && !(a == p && j == i)
      ensures Entry(n, At(m, q, a), j) == Entry(m, At(m, q, a), j)
    {
      assert At(m, q, a) == t ==> a == p;
    }
  }

  /** Writing slot i of a last-level table: all tables stay where they are. */
  lemma {:induction false} LeafFollow(m: Memory, q: nat, p: seq<Slot>, i: Slot, w: nat, r: seq<Slot>)
    requires TreeOk(m, q) && Node(m, q, p) && |p| == 3 && Ordinary(r) && |r| <= 3
    ensures Follow(Write(m, At(m, q, p), i, w), q, r) == Follow(m, q, r)
  {
    LeafAgrees(m, q, p, i, w);
    PathKept(m, Write(m, At(m, q, p), i, w), q, p, i, r);
  }

  /** ... and only the page at that slot changes its translation. */
  lemma {:induction false} LeafLookup(m: Memory, q: nat, p: seq<Slot>, i: Slot, w: nat, idx: seq<Slot>)
    requires TreeOk(m, q) && Node(m, q, p) && |p| == 3 && i != SELF && Ordinary(idx) && |idx| == 4
    ensures Lookup(Write(m, At(m, q, p), i, w), q, idx) ==
            if idx == p + [i] then (if IsPresent(w) then Some(FrameOf(w)) else None) else Lookup(m, q, idx)
  {
    var t := At(m, q, p);
    var n := Write(m, t, i, w);
    LeafAgrees(m, q, p, i, w);
    if idx == p + [i] {
      LeafFollow(m, q, p, i, w, p);
      LookupAppend(n, q, p, t, [i]);
    } else {
      PageKept(m, n, q, p, i, idx);
    }
  }

  lemma {:induction false} LeafTree(m: Memory, q: nat, p: seq<Slot>, i: Slot, w: nat)
    requires TreeOk(m, q) && Node(m, q, p) && |p| == 3 && WordOk(w)
    ensures TreeOk(Write(m, At(m, q, p), i, w), q)
  {
    var t := At(m, q, p);
    var n := Write(m, t, i, w);
    forall a: seq<Slot> | Node(n, q, a) ensures Node(m, q, a) && At(n, q, a) == At(m, q, a) {
      LeafFollow(m, q, p, i, w, a);
    }
    forall a: seq<Slot>, j: Slot | Node(n, q, a) ensures WordOk(Entry(n, At(n, q, a), j)) {
      assert WordOk(Entry(m, At(m, q, a), j));
    }
  }

  // ----- tables left alone

  /** Every ordinary page of q translates alike. */
  ghost predicate SamePages(m: Memory, n: Memory, q: nat) {
    forall idx: seq<Slot> :: |idx| == 4 && Ordinary(idx) ==> Lookup(n, q, idx) == Lookup(m, q, idx)
  }

  /** All tables of q are where they were, and every ordinary page translates alike. */
  ghost predicate SameSpace(m: Memory, n: Memory, q: nat) {
    && SamePages(m, n, q)
    && (forall r: seq<Slot> :: Ordinary(r) && |r| <= 3 ==> Follow(n, q, r) == Follow(m, q, r))
    && (forall r: seq<Slot> :: Ordinary(r) && |r| <= 3 && HugeFree(m, q, r) ==> HugeFree(n, q, r))
  }

  /** An address space depends on its tables alone, self slots apart. */
  lemma {:induction false} TablesKept(m: Memory, n: Memory, q: nat)
    requires forall a: seq<Slot>, j: Slot :: Node(m, q, a) && j != SELF ==>
             Entry(n, At(m, q, a), j) == Entry(m, At(m, q, a), j)
    ensures SameSpace(m, n, q)
  {
    var p: seq<Slot> := [0, 0, 0, 0];
    assert AgreeOff(m, n, q, p, 0);
    forall r: seq<Slot> | Ordinary(r) && |r| <= 3
      ensures Follow(n, q, r) == Follow(m, q, r) && (HugeFree(m, q, r) ==> HugeFree(n, q, r))
    {
      PathKept(m, n, q, p, 0, r);
      if HugeFree(m, q, r) {
        RootHugeFree(m, n, q, p, 0, r);
      }
    }
    forall idx: seq<Slot> | |idx| == 4 && Ordinary(idx) ensures Lookup(n, q, idx) == Lookup(m, q, idx) {
      PageKept(m, n, q, p, 0, idx);
    }
  }

  // ----- huge pages and missing tables on a path

  /** No huge page on the way from t along the path. */
  predicate HugeFree(m: Memory, t: nat, path: seq<Slot>)
    decreases path
  {
    path == [] ||
    (var w := Entry(m, t, path[0]);
     if !IsPresent(w) then true else !IsHuge(w) && HugeFree(m, FrameOf(w), path[1..]))
  }

  /** How many tables are missing on the way from t along the path. */
  function Missing(m: Memory, t: nat, path: seq<Slot>): nat
    decreases path
  {
    if path == [] then 0
    else
      match Next(m, t, path[0])
      case None => |path|
      case Some(g) => Missing(m, g, path[1..])
  }

  /** Fresh tables have nothing below them. */
  lemma {:induction false} FreshBelow(m: Memory, f: nat, path: seq<Slot>)
    requires Tab(m, f) == ZeroTable()[SELF := Writable(Link(0, f))] && Ordinary(path)
    ensures HugeFree(m, f, path) && Missing(m, f, path) == |path|
  {
    if path != [] {
      assert path[0] != SELF;
    }
  }

  /** An edit at (p, i) puts no huge page on any path: it writes a leaf, or links a fresh table. */
  ghost predicate NoNewHuge(m: Memory, n: Memory, q: nat, p: seq<Slot>, i: Slot) {
    AgreeOff(m, n, q, p, i) &&
    (|p| >= 3 ||
     (Node(m, q, p) &&
      var w := Entry(n, At(m, q, p), i);
      IsPresent(w) && !IsHuge(w) && Tab(n, FrameOf(w)) == ZeroTable()[SELF := Writable(Link(0, FrameOf(w)))]))
  }

  lemma {:induction false} HugeFreeKept(m: Memory, n: Memory, q: nat, p: seq<Slot>, i: Slot, a: seq<Slot>, g: nat,
                                        r: seq<Slot>)
    requires NoNewHuge(m, n, q, p, i)
    requires Follow(m, q, a) == Some(g) && Ordinary(a + r) && |a + r| <= 3 && HugeFree(m, g, r)
    ensures HugeFree(n, g, r)
    decreases r
  {
    if r != [] {
      PrefixStep(a, r);
      assert Node(m, q, a) && At(m, q, a) == g;
      if a == p && r[0] == i {
        TailOrdinary(a, r);
        FreshBelow(n, FrameOf(Entry(n, g, i)), r[1..]);
      } else {
        FollowOne(m, q, a, r[0]);
        var w := Entry(m, g, r[0]);
        assert Entry(n, g, r[0]) == w;
        if IsPresent(w) {
          HugeFreeKept(m, n, q, p, i, a + [r[0]], FrameOf(w), r[1..]);
        }
      }
    }
  }

  lemma {:induction false} TailOrdinary(a: seq<Slot>, r: seq<Slot>)
    requires r != [] && Ordinary(a + r)
    ensures Ordinary(r[1..])
  {
    assert forall k :: 0 <= k < |r| - 1 ==> r[1..][k] == (a + r)[|a| + 1 + k];
  }

  lemma {:induction false} RootHugeFree(m: Memory, n: Memory, q: nat, p: seq<Slot>, i: Slot, r: seq<Slot>)
    requires NoNewHuge(m, n, q, p, i)
    requires Ordinary(r) && |r| <= 3 && HugeFree(m, q, r)
    ensures HugeFree(n, q, r)
  {
    assert [] + r == r;
    HugeFreeKept(m, n, q, p, i, [], q, r);
  }
}
