/**
 Four-level page tables in physical memory: the walk the processor makes
 (section 4.5 of the Intel 64 SDM, volume 3A), the tables reachable from a
 root, and how single writes change them.
 */
module PageTables {
  import opened Frames
  import opened Wrappers

  const ENTRIES: nat := 512
  const SELF: Slot := 511
  const MAX_FRAME: nat := 0x10_0000_0000  // 2^36: physical addresses are below 2^48

  type Slot = i: nat | i < 512

  function ZeroTable(): (t: seq<nat>)
    ensures |t| == ENTRIES && forall i :: 0 <= i < ENTRIES ==> t[i] == 0
  {
    seq(ENTRIES, _ => 0)
  }

  /** Physical memory by frame number; a frame that was never written reads as zero. */
  type Memory = map<nat, seq<nat>>

  function Tab(m: Memory, f: nat): (t: seq<nat>)
    ensures |t| == ENTRIES
  {
    if f in m && |m[f]| == ENTRIES then m[f] else ZeroTable()
  }

  function Entry(m: Memory, f: nat, i: Slot): nat {
    Tab(m, f)[i]
  }

  function Write(m: Memory, f: nat, i: Slot, w: nat): Memory {
    m[f := Tab(m, f)[i := w]]
  }

  function Clear(m: Memory, f: nat): Memory {
    m[f := ZeroTable()]
  }

  // ----- entry words, arithmetically

  predicate IsPresent(w: nat) { w % 2 == 1 }

  predicate IsHuge(w: nat) { w / 128 % 2 == 1 }

  /** Bits 51:12. */
  function FrameOf(w: nat): nat { w / FRAME % 0x100_0000_0000 }

  /** `set_frame_addr`: the address, the old flags, PRESENT. */
  function Link(w: nat, f: nat): nat {
    f * FRAME + w % 512 + (if IsPresent(w) then 0 else 1)
  }

  /** `set_flags(WRITABLE)`. */
  function Writable(w: nat): nat {
    if w / 2 % 2 == 1 then w else w + 2
  }

  /** Words the kernel and its boot code put into tables: zero, or present with no bit above 47. */
  predicate WordOk(w: nat) {
    w < MAX_FRAME * FRAME && (IsPresent(w) || w == 0)
  }

  lemma {:induction false} LinkZero(f: nat)
    requires f < MAX_FRAME
    ensures var w := Link(0, f); WordOk(w) && IsPresent(w) && !IsHuge(w) && FrameOf(w) == f
    ensures var w := Writable(Link(0, f)); WordOk(w) && IsPresent(w) && !IsHuge(w) && FrameOf(w) == f
  {
    LowBits(f, 1);
    LowBits(f, 3);
    assert (f * FRAME + 1) / 2 == 2048 * f;
  }

  lemma {:induction false} LowBits(f: nat, b: nat)
    requires f < MAX_FRAME && b < 128 && b % 2 == 1
    ensures var w := f * FRAME + b; WordOk(w) && IsPresent(w) && !IsHuge(w) && FrameOf(w) == f
  {
    var w := f * FRAME + b;
    assert w / 128 == 32 * f;
    assert w / FRAME == f;
  }

  // ----- walks

  /** The table linked from slot i. */
  function Next(m: Memory, f: nat, i: Slot): Option<nat> {
    var w := Entry(m, f, i);
    if IsPresent(w) && !IsHuge(w) then Some(FrameOf(w)) else None
  }

  /** The table reached from f along a path of slots. */
  function Follow(m: Memory, f: nat, path: seq<Slot>): Option<nat>
    decreases path
  {
    if path == [] then Some(f)
    else
      match Next(m, f, path[0])
      case None => None
      case Some(g) => Follow(m, g, path[1..])
  }

  /** The frame inside a huge page, from the remaining indices. */
  function HugeFrame(w: nat, rest: seq<Slot>): nat
    requires 1 <= |rest| <= 2
  {
    if |rest| == 1 then FrameOf(w) / 512 * 512 + rest[0] as nat
    else FrameOf(w) / 0x4_0000 * 0x4_0000 + rest[0] as nat * 512 + rest[1] as nat
  }

  /** The processor's walk from table f along the page indices that are left:
      the frame the page translates to, or None for a page fault. */
  function Lookup(m: Memory, f: nat, idx: seq<Slot>): Option<nat>
    requires 1 <= |idx| <= 4
    decreases idx
  {
    var w := Entry(m, f, idx[0]);
    if !IsPresent(w) then None
    else if |idx| == 1 then Some(FrameOf(w))
    else if IsHuge(w) then (if |idx| == 4 then None else Some(HugeFrame(w, idx[1..])))
    else Lookup(m, FrameOf(w), idx[1..])
  }

  lemma {:induction false} FollowAppend(m: Memory, f: nat, a: seq<Slot>, b: seq<Slot>)
    ensures Follow(m, f, a + b) ==
            match Follow(m, f, a) case None => None case Some(g) => Follow(m, g, b)
    decreases a
  {
    if a == [] {
      assert a + b == b;
    } else {
      assert (a + b)[1..] == a[1..] + b;
      match Next(m, f, a[0]) {
        case None =>
        case Some(g) => FollowAppend(m, g, a[1..], b);
      }
    }
  }

  lemma {:induction false} FollowOne(m: Memory, f: nat, a: seq<Slot>, i: Slot)
    ensures Follow(m, f, a + [i]) ==
            match Follow(m, f, a) case None => None case Some(g) => Next(m, g, i)
  {
    FollowAppend(m, f, a, [i]);
    match Follow(m, f, a) {
      case None =>
      case Some(g) =>
        assert [i][1..] == [];
        match Next(m, g, i) {
          case None =>
          case Some(h) => assert Follow(m, h, []) == Some(h);
        }
    }
  }

  // ----- the tables of an address space

  /** No index is the self slot. */
  predicate Ordinary(path: seq<Slot>) {
    forall k :: 0 <= k < |path| ==> path[k] != SELF
  }

  /** path leads from q to a table (at most three steps below the root). */
  predicate Node(m: Memory, q: nat, path: seq<Slot>) {
    Ordinary(path) && |path| <= 3 && Follow(m, q, path).Some?
  }

  function At(m: Memory, q: nat, path: seq<Slot>): nat
    requires Node(m, q, path)
  {
    Follow(m, q, path).value
  }

  /** Different paths lead to different tables. */
  ghost predicate NoAlias(m: Memory, q: nat) {
    forall a: seq<Slot>, b: seq<Slot> :: Node(m, q, a) && Node(m, q, b) && At(m, q, a) == At(m, q, b) ==> a == b
  }

  ghost predicate WordsOk(m: Memory, q: nat) {
    forall a: seq<Slot>, i: Slot :: Node(m, q, a) ==> WordOk(Entry(m, At(m, q, a), i))
  }

  ghost predicate TreeOk(m: Memory, q: nat) {
    NoAlias(m, q) && WordsOk(m, q)
  }

  /** f is one of the tables of q. */
  ghost predicate TableOf(m: Memory, q: nat, f: nat) {
    exists a: seq<Slot> :: Node(m, q, a) && At(m, q, a) == f
  }

  // ----- what a write leaves alone

  /** Every entry of every table of q except the one at slot i of the table at path p reads the same. */
  ghost predicate AgreeOff(m: Memory, n: Memory, q: nat, p: seq<Slot>, i: Slot) {
    forall a: seq<Slot>, j: Slot :: Node(m, q, a) && j != SELF && !(a == p && j == i)
                         ==> Entry(n, At(m, q, a), j) == Entry(m, At(m, q, a), j)
  }

  lemma {:induction false} PrefixStep(a: seq<Slot>, r: seq<Slot>)
    requires r != []
    ensures (a + [r[0]]) + r[1..] == a + r && a + [r[0]] <= a + r
    ensures Ordinary(a + r) ==> r[0] != SELF && Ordinary(a + [r[0]]) && Ordinary(a)
  {
    if Ordinary(a + r) {
      assert (a + r)[|a|] == r[0];
      forall k | 0 <= k < |a| ensures a[k] != SELF {
        assert (a + r)[k] == a[k];
      }
    }
  }

  lemma {:induction false} StepKept(m: Memory, n: Memory, q: nat, p: seq<Slot>, i: Slot, a: seq<Slot>, f: nat,
                                    r: seq<Slot>)
    requires AgreeOff(m, n, q, p, i) && r != []
    requires Follow(m, q, a) == Some(f) && Ordinary(a + r) && |a| <= 3 && !(p + [i] <= a + r)
    ensures Entry(n, f, r[0]) == Entry(m, f, r[0])
    ensures Next(m, f, r[0]) == Next(n, f, r[0]) == Follow(m, q, a + [r[0]])
    ensures (a + [r[0]]) + r[1..] == a + r
  {
    PrefixStep(a, r);
    assert !(a == p && r[0] == i);
    assert Node(m, q, a) && At(m, q, a) == f;
    FollowOne(m, q, a, r[0]);
  }

  /** A walk that does not pass the changed entry is unchanged. */
  lemma {:induction false} FollowKept(m: Memory, n: Memory, q: nat, p: seq<Slot>, i: Slot, a: seq<Slot>, f: nat,
                                      r: seq<Slot>)
    requires AgreeOff(m, n, q, p, i)
    requires Follow(m, q, a) == Some(f) && Ordinary(a + r) && |a + r| <= 3 && !(p + [i] <= a + r)
    ensures Follow(n, f, r) == Follow(m, f, r)
    decreases r
  {
    if r != [] {
      StepKept(m, n, q, p, i, a, f, r);
      match Next(m, f, r[0]) {
        case None =>
        case Some(g) => FollowKept(m, n, q, p, i, a + [r[0]], g, r[1..]);
      }
    }
  }

  lemma {:induction false} LookupKept(m: Memory, n: Memory, q: nat, p: seq<Slot>, i: Slot, a: seq<Slot>, f: nat,
                                      r: seq<Slot>)
    requires AgreeOff(m, n, q, p, i)
    requires Follow(m, q, a) == Some(f) && Ordinary(a + r) && |a + r| == 4 && r != [] && !(p + [i] <= a + r)
    ensures Lookup(n, f, r) == Lookup(m, f, r)
    decreases r
  {
    StepKept(m, n, q, p, i, a, f, r);
    if |r| > 1 && Next(m, f, r[0]).Some? {
      LookupKept(m, n, q, p, i, a + [r[0]], Next(m, f, r[0]).value, r[1..]);
    }
  }

  lemma {:induction false} PathKept(m: Memory, n: Memory, q: nat, p: seq<Slot>, i: Slot, r: seq<Slot>)
    requires AgreeOff(m, n, q, p, i)
    requires Ordinary(r) && |r| <= 3 && !(p + [i] <= r)
    ensures Follow(n, q, r) == Follow(m, q, r)
  {
    assert [] + r == r;
    FollowKept(m, n, q, p, i, [], q, r);
  }

  lemma {:induction false} PageKept(m: Memory, n: Memory, q: nat, p: seq<Slot>, i: Slot, idx: seq<Slot>)
    requires AgreeOff(m, n, q, p, i)
    requires Ordinary(idx) && |idx| == 4 && !(p + [i] <= idx)
    ensures Lookup(n, q, idx) == Lookup(m, q, idx)
  {
    assert [] + idx == idx;
    LookupKept(m, n, q, p, i, [], q, idx);
  }
}
