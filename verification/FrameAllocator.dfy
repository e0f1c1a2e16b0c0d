/**
 The allocator as the kernel runs it: record cells, free lists and counters
 updated in place. Every method is tied to the transition system on values.
 */
module FrameAllocator {
  import opened Frames
  import opened Wrappers
  import opened Bits
  import opened BuddySystem
  import opened BuddyCorrect
  import opened BuddyCount
  import opened BuddyNew

  class BuddyAllocator {
    const baseAddr: nat
    const number: array<nat>
    const order: array<nat>
    const used: array<bool>
    const freeLists: array<seq<nat>>
    const freeCounts: array<int>

    ghost const Repr: set<object> := {order, used, freeLists, freeCounts}

    ghost function View(): Pool
      reads Repr
    {
      Pool(order[..], used[..], freeLists[..], freeCounts[..])
    }

    ghost predicate Valid()
      reads Repr, number
    {
      && View().Shaped()
      && number as object !in Repr
      && order as object != freeCounts as object
      && number.Length == order.Length
      && forall i :: 0 <= i < number.Length ==> number[i] == baseAddr / FRAME + i
    }

    /** `new` over numbered records whose order and state cells hold anything. */
    constructor (baseAddr: nat, number: array<nat>, order: array<nat>, used: array<bool>)
      requires number.Length == order.Length == used.Length && number != order
      requires forall i :: 0 <= i < number.Length ==> number[i] == baseAddr / FRAME + i
      modifies order, used
      ensures Valid()
      ensures this.baseAddr == baseAddr && this.number == number && this.order == order && this.used == used
      ensures fresh(freeLists) && fresh(freeCounts)
      ensures View() == New(old(order[..]), old(used[..]))
    {
      this.baseAddr, this.number, this.order, this.used := baseAddr, number, order, used;
      freeLists := new seq<nat>[MAX_ORDER](_ => []);
      freeCounts := new int[MAX_ORDER](_ => 0);
      new;
      assert View() == Blank(old(order[..]), old(used[..]));
      BuildLists();
    }

    /** Insert every record into the list of the largest order that fits. */
    method BuildLists()
      requires Valid()
      modifies Repr
      ensures Valid()
      ensures View() == Fill(old(View()), 0, MAX_ORDER).0
    {
      ghost var all := Fill(View(), 0, MAX_ORDER).0;
      var index: nat, k: nat := 0, MAX_ORDER;
      while 0 < k
        invariant k <= MAX_ORDER && index <= order.Length
        invariant Valid()
        invariant Fill(View(), index, k).0 == all
      {
        ghost var p := View();
        k := k - 1;
        ghost var start := index;
        index := FillBlocks(index, k);
        FillUnfold(p, start, k, View(), index);
      }
    }

    /** Blocks of order o from `index` on, while they fit. */
    method FillBlocks(start: nat, o: nat) returns (index: nat)
      requires Valid() && start <= order.Length && o < MAX_ORDER
      modifies Repr
      ensures Valid()
      ensures (View(), index) == FillOrder(old(View()), start, o)
    {
      index := start;
      while Pow2(o) <= order.Length - index
        invariant index <= order.Length
        invariant Valid()
        invariant FillOrder(View(), index, o) == FillOrder(old(View()), start, o)
      {
        SetOrder(index, o);
        Mark(index, false);
        PushBack(o, index);
        index := index + Pow2(o);
      }
    }

    // ----- single cells and list operations

    method SetOrder(i: nat, o: nat)
      requires Valid() && i < order.Length
      modifies order
      ensures Valid() && View() == old(View()).SetOrder(i, o)
    {
      order[i] := o;
    }

    method Mark(i: nat, u: bool)
      requires Valid() && i < used.Length
      modifies used
      ensures Valid() && View() == old(View()).Mark(i, u)
    {
      used[i] := u;
    }

    method PushBack(o: nat, i: nat)
      requires Valid() && o < MAX_ORDER && i < order.Length
      modifies freeLists, freeCounts
      ensures Valid() && View() == old(View()).Push(o, i)
    {
      freeLists[o] := freeLists[o] + [i];
      freeCounts[o] := freeCounts[o] + 1;
    }

    method RemoveFrom(o: nat, i: nat)
      requires Valid() && o < MAX_ORDER
      modifies freeLists, freeCounts
      ensures Valid() && View() == old(View()).Remove(o, i)
    {
      RemoveShaped(View(), o, i);
      freeLists[o] := Without(freeLists[o], i);
      freeCounts[o] := freeCounts[o] - 1;
    }

    // ----- queries

    predicate IsManaged(index: nat) {
      index < order.Length
    }

    method Buddy(index: nat, o: nat) returns (r: Option<nat>)
      requires Valid() && IsManaged(index)
      ensures r == BuddyOf(View(), index, o)
    {
      if MAX_ORDER <= o {
        return None;
      }
      if order.Length < index {
        return None;
      }
      var b := Xor(index, Pow2(o));
      if IsManaged(b) {
        r := Some(b);
      } else {
        r := None;
      }
    }

    method CountFreeObjs() returns (total: int)
      requires Valid()
      ensures total == CountFree(View())
      ensures Inv(View()) ==> total == |FreeFrames(View())|
    {
      total := 0;
      var o := 0;
      while o < MAX_ORDER
        invariant o <= MAX_ORDER
        invariant total + CountFrom(View(), o) == CountFree(View())
      {
        total := total + freeCounts[o] * Pow2(o);
        o := o + 1;
      }
      if Inv(View()) {
        CountIsFreeFrames(View());
      }
    }

    // ----- allocate and free

    method Allocate(requestOrder: nat) returns (r: Option<nat>)
      requires Valid()
      modifies Repr
      ensures Valid()
      ensures (View(), r) == BuddySystem.Allocate(old(View()), requestOrder)
      ensures r.Some? ==> r.value < order.Length
    {
      if MAX_ORDER <= requestOrder {
        return None;
      }
      ghost var p := View();
      var o := requestOrder;
      while o < MAX_ORDER
        invariant requestOrder <= o <= MAX_ORDER
        invariant Valid() && View() == p
        invariant FirstStocked(p, requestOrder) == FirstStocked(p, o)
      {
        if freeLists[o] != [] {
          var obj := freeLists[o][0];
          assert obj in p.lists[o];
          RemoveFrom(o, obj);
          SetOrder(obj, requestOrder);
          Mark(obj, true);
          SplitOff(obj, requestOrder, o);
          return Some(obj);
        }
        o := o + 1;
      }
      return None;
    }

    /** Push the extra halves of `obj` between the two orders. */
    method SplitOff(obj: nat, requestOrder: nat, o: nat)
      requires Valid() && IsManaged(obj) && o <= MAX_ORDER
      modifies Repr
      ensures Valid()
      ensures View() == Split(old(View()), obj, requestOrder, o)
    {
      ghost var all := Split(View(), obj, requestOrder, o);
      var i := requestOrder;
      while i < o
        invariant Valid() && IsManaged(obj)
        invariant Split(View(), obj, i, o) == all
      {
        var buddy := Buddy(obj, i);
        match buddy {
          case None =>
            break;
          case Some(b) =>
            SetOrder(b, i);
            Mark(b, false);
            PushBack(i, b);
        }
        i := i + 1;
      }
    }

    /** Returns false where the kernel would panic on the missing list of order MAX_ORDER. */
    method Free(freed: nat) returns (ok: bool)
      requires Valid() && IsManaged(freed)
      modifies Repr
      ensures Valid()
      ensures var r := BuddySystem.Free(old(View()), freed);
              ok == r.Some? && (ok ==> View() == r.value)
    {
      Mark(freed, false);
      var obj := MergeUp(freed);
      var top := order[obj];
      if MAX_ORDER <= top {
        return false;
      }
      PushBack(top, obj);
      return true;
    }

    /** Merge with free buddies as far as possible. */
    method MergeUp(freed: nat) returns (obj: nat)
      requires Valid() && IsManaged(freed)
      modifies Repr
      ensures Valid() && IsManaged(obj)
      ensures (View(), obj) == Merge(old(View()), freed, old(order[freed]))
    {
      obj := freed;
      ghost var all := Merge(View(), obj, order[obj]);
      var i := order[obj];
      while i < MAX_ORDER
        invariant Valid() && IsManaged(obj)
        invariant Merge(View(), obj, i) == all
        decreases MAX_ORDER - i
      {
        var buddy := Buddy(obj, i);
        match buddy {
          case None =>
            break;
          case Some(b) =>
            if used[b] {
              break;
            }
            obj := AbsorbBuddy(obj, b, i);
        }
        i := i + 1;
      }
    }

    /** Take the free buddy out of its list; the lower half stands for the merged block. */
    method AbsorbBuddy(freed: nat, b: nat, i: nat) returns (obj: nat)
      requires Valid() && IsManaged(freed) && IsManaged(b) && i < MAX_ORDER
      modifies Repr
      ensures Valid() && (View(), obj) == Absorb(old(View()), freed, b, i)
    {
      obj := freed;
      RemoveFrom(i, b);
      if b < obj {
        obj := b;
        Mark(obj, false);
      }
      SetOrder(obj, i + 1);
    }

    // ----- the frame-number interface

    method AllocOne() returns (r: Option<nat>)
      requires Valid()
      modifies Repr
      ensures Valid()
      ensures var (q, got) := BuddySystem.Allocate(old(View()), 0);
              && View() == q
              && r == match got case None => None case Some(h) => Some(baseAddr / FRAME + h)
    {
      var got := Allocate(0);
      match got {
        case None => r := None;
        case Some(h) => r := Some(number[h]);
      }
    }

    method FreeFrame(n: nat) returns (ok: bool)
      requires Valid() && baseAddr / FRAME <= n < baseAddr / FRAME + order.Length
      modifies Repr
      ensures Valid()
      ensures var r := BuddySystem.Free(old(View()), n - baseAddr / FRAME);
              ok == r.Some? && (ok ==> View() == r.value)
    {
      ok := Free(n - baseAddr / FRAME);
    }
  }

  /** The frame-numbering loop of the kernel's memory initialisation. */
  method NumberFrames(number: array<nat>, baseAddr: nat)
    modifies number
    ensures forall i :: 0 <= i < number.Length ==> number[i] == baseAddr / FRAME + i
  {
    var i := 0;
    while i < number.Length
      invariant i <= number.Length
      invariant forall k :: 0 <= k < i ==> number[k] == baseAddr / FRAME + k
    {
      number[i] := baseAddr / FRAME + i;
      i := i + 1;
    }
  }
}
