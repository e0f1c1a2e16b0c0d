/**
 The page-table code as the kernel runs it: every read and write of an entry
 goes through a virtual address that the processor resolves in the current
 memory. Each method is tied to the direct edit of the tree of tables.
 */
module ActiveTables {
  import opened Frames
  import opened Wrappers
  import opened Bits
  import opened BuddySystem
  import opened FrameAllocator
  import opened PageTables
  import opened PageLink
  import opened PageMap
  import opened PageScan
  import opened PageOps
  import opened PageUnmap
  import opened PageEntry
  import opened AddressSpaces
  import opened RecursiveAddress
  import opened TableSteps
  import opened SpaceSteps

  class ActivePageTable {
    var mem: Memory
    var cr3: nat
    const allocator: BuddyAllocator

    ghost function View(): Sys
      reads this, allocator.Repr
    {
      Sys(mem, cr3, allocator.View(), allocator.baseAddr / FRAME)
    }

    ghost predicate Valid()
      reads this, allocator.Repr, allocator.number
    {
      allocator.Valid()
    }

    /** q is the address space behind the recursive slot, and sound. */
    ghost predicate Active(q: nat)
      reads this, allocator.Repr, allocator.number
    {
      Valid() && SpaceOk(View(), q) && Window(mem, cr3, q) && !FrameFree(View(), cr3)
    }

    constructor (mem: Memory, cr3: nat, allocator: BuddyAllocator)
      ensures this.mem == mem && this.cr3 == cr3 && this.allocator == allocator
    {
      this.mem, this.cr3, this.allocator := mem, cr3, allocator;
    }

    // ----- single entries

    function Resolve(va: nat): (f: nat)
      requires Canonical(va) && Lookup(mem, cr3, IdxOf(va)).Some?
      reads this
    {
      Lookup(mem, cr3, IdxOf(va)).value
    }

    method ReadEntry(va: nat, i: Slot) returns (w: nat)
      requires Mmu(View(), va).Some?
      ensures w == Entry(mem, Mmu(View(), va).value, i)
    {
      w := Entry(mem, Resolve(va), i);
    }

    method WriteEntry(va: nat, i: Slot, w: nat)
      requires Mmu(View(), va).Some?
      modifies this`mem
      ensures mem == Write(old(mem), old(Mmu(View(), va).value), i, w)
    {
      mem := Write(mem, Resolve(va), i, w);
    }

    /** Write the frame address, and WRITABLE for self slots, into the entry an address leads to. */
    method LinkEntry(va: nat, i: Slot, f: nat, writable: bool)
      requires Mmu(View(), va).Some? && f < MAX_FRAME && Entry(mem, Mmu(View(), va).value, i) < NO_EXECUTE - WRITABLE
      modifies this`mem
      ensures var t, w := old(Mmu(View(), va).value), old(Entry(mem, Mmu(View(), va).value, i));
              mem == Write(old(mem), t, i, if writable then Writable(Link(w, f)) else Link(w, f))
    {
      var w := ReadEntry(va, i);
      SetFrameAddrIs(w, f);
      var v := SetFrameAddr(w, f * FRAME);
      if writable {
        LinkBelow(w, f);
        SetWritableIs(v);
        v := SetFlags(v, WRITABLE);
      }
      WriteEntry(va, i, v);
    }

    /** Write the same word everywhere in the frame an address leads to. */
    method FillEntries(va: nat, w: nat, ghost f: nat)
      requires Stable(View(), va, f)
      modifies this`mem
      ensures mem == old(mem)[f := seq(ENTRIES, _ => w)]
    {
      var i := 0;
      while i < ENTRIES
        invariant 0 <= i <= ENTRIES
        invariant mem == if i == 0 then old(mem) else old(mem)[f := Tab(mem, f)]
        invariant forall j :: 0 <= j < i ==> Tab(mem, f)[j] == w
      {
        assert SameBut(old(mem), mem, f);
        assert View() == old(View()).(mem := mem);
        WriteEntry(va, i, w);
        i := i + 1;
      }
      assert Tab(mem, f) == seq(ENTRIES, _ => w);
    }

    method ClearAllEntries(va: nat, ghost f: nat)
      requires Stable(View(), va, f)
      modifies this`mem
      ensures mem == Clear(old(mem), f)
    {
      FillEntries(va, 0, f);
      assert Tab(mem, f) == ZeroTable();
    }

    // ----- next level

    method NextLevelTableAddress(va: nat, i: Slot) returns (r: Option<nat>)
      requires Mmu(View(), va).Some?
      ensures r == if Next(mem, Mmu(View(), va).value, i).Some? then Some(NextTableAddress(va, i)) else None
    {
      var w := ReadEntry(va, i);
      FlagTests(w);
      var flags := Flags(w);
      if Contains(flags, PRESENT) && !Contains(flags, HUGE_PAGE) {
        r := Some(Or(va * 512 % WORD, i as nat * 4096));
      } else {
        r := None;
      }
    }

    method NextLevelTableCreate(va: nat, i: Slot, ghost q: nat, ghost p: seq<Slot>) returns (r: Option<nat>)
      requires Active(q) && Node(mem, q, p) && |p| <= 2 && i != SELF && va == TableVa(p)
      requires HugeFree(mem, At(mem, q, p), [i])
      modifies this`mem, allocator.Repr
      ensures Active(q) && Created(old(View()), View(), q, p, i, r)
    {
      ghost var s := View();
      r := CreateOrFind(va, i, q, p);
      CreateKeepsActive(s, View(), q, p, i, r);
    }

    method CreateOrFind(va: nat, i: Slot, ghost q: nat, ghost p: seq<Slot>) returns (r: Option<nat>)
      requires Active(q) && Node(mem, q, p) && |p| <= 2 && i != SELF && va == TableVa(p)
      requires HugeFree(mem, At(mem, q, p), [i])
      modifies this`mem, allocator.Repr
      ensures Valid()
      ensures var (t, next) := CreateNext(old(View()), old(At(mem, q, p)), i);
              View() == t && r == if next.Some? then Some(TableVa(p + [i])) else None
    {
      ghost var s := View();
      ghost var tab := At(mem, q, p);
      assert Mmu(s, va) == Some(tab) by { TableAddressResolves(s, q, p); }
      NextAddressIs(p, i);
      r := NextLevelTableAddress(va, i);
      assert r.Some? <==> Next(s.mem, tab, i).Some?;
      if r.None? {
        var got := TakeFrame();
        if got.Some? {
          r := LinkTable(va, i, got.value, s, q, p);
        } else {
          CreateStarved(s, tab, i);
        }
      }
    }

    /** `alloc_one` on the allocator of the machine. */
    method TakeFrame() returns (r: Option<nat>)
      requires Valid()
      modifies allocator.Repr
      ensures Valid() && (View(), r) == AllocOne(old(View()))
    {
      r := allocator.AllocOne();
    }

    /** The rest of a creation once frame f was allocated in state s. */
    method LinkTable(va: nat, i: Slot, f: nat, ghost s: Sys, ghost q: nat, ghost p: seq<Slot>) returns (r: Option<nat>)
      requires Valid() && SpaceOk(s, q) && Window(s.mem, s.cr3, q) && !FrameFree(s, s.cr3)
      requires Node(s.mem, q, p) && |p| <= 2 && i != SELF && va == TableVa(p)
               && !IsPresent(Entry(s.mem, At(s.mem, q, p), i))
      requires AllocOne(s) == (View(), Some(f))
      modifies this`mem
      ensures Valid()
      ensures (View(), Some(f)) == CreateNext(s, At(s.mem, q, p), i) && r == Some(TableVa(p + [i]))
    {
      AllocOneCorrect(s);
      FreshFrame(s, q, p, i, f);
      ghost var tab := At(s.mem, q, p);
      TableAddressResolves(View(), q, p);
      assert WordOk(Entry(s.mem, At(s.mem, q, p), i));
      LinkEntry(va, i, f, false);
      LinkedIsStable(s, View(), q, p, i, f);
      NextAddressIs(p, i);
      r := NextLevelTableAddress(va, i);
      var next := r.value;
      FillTable(next, f);
      CreateIsLinked(s, tab, i, s.(pool := allocator.View()), f);
    }

    /** Clear the new table and give it its self slot. */
    method FillTable(va: nat, f: nat)
      requires Stable(View(), va, f) && f < MAX_FRAME
      modifies this`mem
      ensures mem == Write(Clear(old(mem), f), f, SELF, Writable(Link(0, f)))
    {
      ghost var s := View();
      ClearAllEntries(va, f);
      assert SameBut(s.mem, mem, f) && View() == s.(mem := mem);
      LinkEntry(va, SELF, f, true);
    }

    // ----- map and unmap

    /** Down from the root along the indices, creating what is missing. */
    method DescendTables(path: seq<Slot>, ghost q: nat) returns (r: Option<nat>)
      requires Active(q) && |path| <= 3 && Ordinary(path) && HugeFree(mem, q, path)
      modifies this`mem, allocator.Repr
      ensures Active(q) && Grows(old(View()), View(), q)
      ensures var (t, next) := Descend(old(View()), q, path);
              View() == t && r == if next.Some? then Some(TableVa(path)) else None
      ensures r.Some? ==> Node(mem, q, path) && Descend(old(View()), q, path).1 == Some(At(mem, q, path))
    {
      ghost var s := View();
      RootAddress(path[..0]);
      GrowsRefl(s, q);
      assert path[0..] == path;
      var va, i := LEVEL4_TABLE, 0;
      while i < |path|
        invariant 0 <= i <= |path|
        invariant Active(q) && Grows(s, View(), q) && HugeFree(mem, q, path)
        invariant Node(mem, q, path[..i]) && va == TableVa(path[..i])
        invariant Descend(View(), At(mem, q, path[..i]), path[i..]) == Descend(s, q, path)
      {
        ghost var s1 := View();
        PathParts(path, i);
        HugeFreeStep(mem, q, path[..i], At(mem, q, path[..i]), path[i], path[i + 1..]);
        var next := NextLevelTableCreate(va, path[i], q, path[..i]);
        GrowsTrans(s, s1, View(), q);
        if next.None? {
          return None;
        }
        va := next.value;
        i := i + 1;
      }
      assert path[..i] == path && path[i..] == [];
      r := Some(va);
    }

    /** The last level of `map`: link the frame unless the entry is taken. */
    method MapEntry(va: nat, i: Slot, frame: nat) returns (r: Result<()>)
      requires Mmu(View(), va).Some? && frame < MAX_FRAME && WordOk(Entry(mem, Mmu(View(), va).value, i))
      modifies this`mem
      ensures var t, w := old(Mmu(View(), va).value), old(Entry(mem, Mmu(View(), va).value, i));
              if IsPresent(w) then mem == old(mem) && r == Err(AlreadyMapped)
              else mem == Write(old(mem), t, i, Link(w, frame)) && r == Ok(())
    {
      var w := ReadEntry(va, i);
      FlagTests(w);
      if !Contains(Flags(w), PRESENT) {
        LinkEntry(va, i, frame, false);
        r := Ok(());
      } else {
        r := Err(AlreadyMapped);
      }
    }

    /** `map`; only the last index may be that of a self slot. */
    method Map(page: nat, frame: nat, ghost q: nat) returns (r: Result<()>)
      requires Active(q) && Addressable(View(), q, IdxOf(page)) && frame < MAX_FRAME
      modifies this`mem, allocator.Repr
      ensures Active(q) && Grows(old(View()), View(), q)
      ensures (View(), r) == PageMap.Map(old(View()), q, IdxOf(page), frame)
    {
      ghost var s := View();
      var path, d := PageIndices(page);
      var table := DescendTables(path, q);
      r := MapInto(table, d, frame, s, q, IdxOf(page));
      MapStays(s, View(), q, IdxOf(page), frame, r);
    }

    method MapInto(table: Option<nat>, d: Slot, frame: nat, ghost s: Sys, ghost q: nat, ghost idx: seq<Slot>)
      returns (r: Result<()>)
      requires s.pool.Shaped() && Active(q) && frame < MAX_FRAME && |idx| == 4 && d == idx[3] && Ordinary(idx[..3])
      requires var (t, next) := Descend(s, q, idx[..3]);
               View() == t && table == (if next.Some? then Some(TableVa(idx[..3])) else None)
               && (next.Some? ==> Node(mem, q, idx[..3]) && At(mem, q, idx[..3]) == next.value)
      modifies this`mem
      ensures Valid() && (View(), r) == PageMap.Map(s, q, idx, frame)
    {
      if table.None? {
        return Err(NoPageTable);
      }
      TableAddressResolves(View(), q, idx[..3]);
      assert WordOk(Entry(mem, At(mem, q, idx[..3]), d));
      r := MapEntry(table.value, d, frame);
    }

    /** One pass of the loop below, for the i-th mapping of l. */
    method MapNth(page: nat, frame: nat, ghost q: nat, ghost l: seq<Mapping>, ghost i: nat) returns (r: Result<()>)
      requires Active(q) && Pages(l) && i < |l| && Acceptable(View(), q, l)
      requires l[i] == Mapping(PageOf(page), frame)
      modifies this`mem, allocator.Repr
      ensures Active(q) && Grows(old(View()), View(), q) && Acceptable(View(), q, l)
      ensures Pages(l[i..]) && Pages(l[i + 1..])
      ensures MapAll(old(View()), q, l[i..]) == if r.Err? then (View(), r) else MapAll(View(), q, l[i + 1..])
    {
      ghost var s := View();
      assert Addressable(s, q, l[i].page);
      PageOfAddress(page);
      r := Map(page * FRAME, frame, q);
      MapAllStep(s, View(), q, l, i, r);
      MapKeepsAcceptable(s, View(), q, l);
    }

    /** The 4 KB loop of `map_fitting`, which the remap requests of `init` share: `count` pages from address
        vBegin on, onto the frames from address pBegin on, up to the first failure. */
    method MapRange(vBegin: nat, pBegin: nat, count: nat, ghost q: nat) returns (r: Result<()>)
      requires Active(q) && Acceptable(View(), q, Range(vBegin / FRAME, pBegin / FRAME, count))
      modifies this`mem, allocator.Repr
      ensures Active(q) && Grows(old(View()), View(), q)
      ensures (View(), r) == MapAll(old(View()), q, Range(vBegin / FRAME, pBegin / FRAME, count))
    {
      ghost var s := View();
      ghost var l := Range(vBegin / FRAME, pBegin / FRAME, count);
      ghost var all := MapAll(s, q, l);
      GrowsRefl(s, q);
      assert l[0..] == l;
      var offset, i := 0, 0;
      while i < count
        invariant 0 <= i <= count && offset == i * FRAME && Pages(l[i..])
        invariant Active(q) && Grows(s, View(), q) && Acceptable(View(), q, l)
        invariant MapAll(View(), q, l[i..]) == all
      {
        ghost var s1 := View();
        var page, frame := (vBegin + offset) / FRAME, (pBegin + offset) / FRAME;
        RangeStep(vBegin, pBegin, offset, i, page, frame);
        RangeItem(vBegin / FRAME, pBegin / FRAME, count, i, page, frame);
        var result := MapNth(page, frame, q, l, i);
        GrowsTrans(s, s1, View(), q);
        if result.Err? {
          return result;
        }
        offset := offset + FRAME;
        i := i + 1;
      }
      assert l[i..] == [];
      r := Ok(());
    }

    /** `map_fitting`. */
    method MapFitting(vBegin: nat, vEnd: nat, pBegin: nat, ghost q: nat) returns (r: Outcome<()>)
      requires Active(q) && vBegin <= vEnd
      requires vEnd - vBegin < 0x20_0000 ==> Acceptable(View(), q, Fitting(vBegin, vEnd, pBegin))
      modifies this`mem, allocator.Repr
      ensures Active(q) && Grows(old(View()), View(), q)
      ensures (View(), r) == PageOps.MapFitting(old(View()), q, vBegin, vEnd, pBegin)
    {
      GrowsRefl(View(), q);
      var size := vEnd - vBegin;
      var count2mb := size / 0x20_0000;
      var count4kb := (size - count2mb * 0x20_0000) / FRAME;
      MapFittingIs(View(), q, vBegin, vEnd, pBegin, count2mb, count4kb);
      if 0 < count2mb {
        return Panicked;
      }
      var result := MapRange(vBegin, pBegin, count4kb, q);
      r := match result case Ok(_) => Done(()) case Err(e) => Failed(e);
    }

    // ----- free places

    /** `find_free_entry_index_with` on the table an address leads to. */
    method FindFreeAt(va: nat, count: nat) returns (r: Option<Slot>)
      requires Mmu(View(), va).Some? && 1 <= count
      ensures r == FindFree(Tab(mem, Mmu(View(), va).value), count)
      ensures r.Some? ==> !IsPresent(Entry(mem, Mmu(View(), va).value, r.value))
    {
      r := FindFreeEntryIndexWith(Tab(mem, Resolve(va)), count);
    }

    /** One level of `find_empty_pages`: through the first free slot of the table at p. */
    method OpenSlot(va: nat, ghost q: nat, ghost p: seq<Slot>, ghost k: nat, ghost count: nat)
      returns (r: Option<(Slot, nat)>)
      requires Active(q) && Node(mem, q, p) && |p| + k == 3 && 0 < k && 1 <= count && va == TableVa(p)
      requires IsPresent(Entry(mem, At(mem, q, p), SELF))
      modifies this`mem, allocator.Repr
      ensures Active(q) && Grows(old(View()), View(), q)
      ensures Opened(old(View()), View(), q, p, k, count, r)
    {
      ghost var s := View();
      TableAddressResolves(s, q, p);
      var found := FindFreeAt(va, 1);
      match found {
        case None =>
          GrowsRefl(s, q);
          r := None;
        case Some(i) =>
          FreeSlotNoHuge(s.mem, At(s.mem, q, p), i);
          var next := NextLevelTableCreate(va, i, q, p);
          r := match next case None => None case Some(v) => Some((i, v));
          SlotOpened(s, View(), q, p, i, k, count, next);
      }
    }

    /** A search that began in state s has come down to the table at path, k levels above the last. */
    ghost predicate Searching(s: Sys, q: nat, path: seq<Slot>, k: nat, count: nat, va: nat, number: nat)
      reads this, allocator.Repr, allocator.number
    {
      && Active(q) && Node(mem, q, path) && |path| + k == 3 && 1 <= count
      && va == TableVa(path) && number == Digits512(path)
      && IsPresent(Entry(mem, At(mem, q, path), SELF))
      && SpaceOk(s, q) && Grows(s, View(), q) && Resumes(s, View(), q, path, k, count)
    }

    /** One level of the search: the slot taken, and the address and the number so far of the next table. */
    method SearchLevel(va: nat, number: nat, ghost s: Sys, ghost q: nat, ghost path: seq<Slot>, ghost k: nat,
                       ghost count: nat)
      returns (r: Option<(Slot, nat, nat)>)
      requires Searching(s, q, path, k, count, va, number) && 0 < k
      modifies this`mem, allocator.Repr
      ensures match r
              case None => Found(s, q, count, None)
              case Some((i, v, n)) => Searching(s, q, path + [i], k - 1, count, v, n)
    {
      ghost var s1 := View();
      var slot := OpenSlot(va, q, path, k, count);
      GrowsTrans(s, s1, View(), q);
      ResumeStep(s, s1, View(), q, path, k, count, slot);
      match slot {
        case None =>
          r := None;
        case Some((i, v)) =>
          AppendDigit(path, i);
          r := Some((i, v, number * 512 + i as nat));
      }
    }

    /** A search that began in state s is over, with page number r. */
    ghost predicate Found(s: Sys, q: nat, count: nat, r: Option<nat>)
      reads this, allocator.Repr, allocator.number
    {
      Active(q) && SpaceOk(s, q) && Grows(s, View(), q) && 1 <= count && FoundIs(s, View(), q, count, r)
    }

    /** `find_empty_pages`: the number of the first page found. */
    method FindEmptyPages(count: nat, ghost q: nat) returns (r: Option<nat>)
      requires Active(q) && 1 <= count
      modifies this`mem, allocator.Repr
      ensures Active(q) && Grows(old(View()), View(), q)
      ensures FoundIs(old(View()), View(), q, count, r)
    {
      ghost var s, path: seq<Slot> := View(), [];
      SearchStart(s, q, path, count);
      r := SearchDown(count, s, q, path);
    }

    method SearchDown(count: nat, ghost s: Sys, ghost q: nat, ghost root: seq<Slot>) returns (r: Option<nat>)
      requires Searching(s, q, root, 3, count, LEVEL4_TABLE, 0)
      modifies this`mem, allocator.Repr
      ensures Found(s, q, count, r)
    {
      var va: nat, number: nat, k: nat := LEVEL4_TABLE, 0, 3;
      ghost var path := root;
      while 0 < k
        invariant Searching(s, q, path, k, count, va, number)
      {
        var step := SearchLevel(va, number, s, q, path, k, count);
        if step.None? {
          return None;
        }
        path, va, number, k := path + [step.value.0], step.value.1, step.value.2, k - 1;
      }
      r := LastSlot(va, number, count, s, q, path);
    }

    method LastSlot(va: nat, number: nat, count: nat, ghost s: Sys, ghost q: nat, ghost path: seq<Slot>)
      returns (r: Option<nat>)
      requires Searching(s, q, path, 0, count, va, number)
      ensures Found(s, q, count, r)
    {
      TableAddressResolves(View(), q, path);
      var last := FindFreeAt(va, count);
      r := match last case None => None case Some(i) => Some(number * 512 + i as nat);
      ResumeEnd(s, View(), q, path, number, count, last, r);
    }

    // ----- a block at a free place

    /** `auto_continuous_map` of the block of 2^order frames from `frame` on. */
    method AutoContinuousMap(frame: nat, order: nat, ghost q: nat) returns (r: Outcome<Option<Region>>)
      requires Active(q) && frame + Pow2(order) <= MAX_FRAME
      modifies this`mem, allocator.Repr
      ensures Active(q) && Grows(old(View()), View(), q)
      ensures (View(), r) == AutoMap(old(View()), q, frame, order)
    {
      ghost var s := View();
      var count := Pow2(order);
      var found := FindEmptyPages(count, q);
      if found.None? {
        return Done(None);
      }
      r := MapBlock(found.value, frame, count, s, q, order);
    }

    /** The pages from number n on, found by a search from state s. */
    method MapBlock(n: nat, frame: nat, count: nat, ghost s: Sys, ghost q: nat, ghost order: nat)
      returns (r: Outcome<Option<Region>>)
      requires Active(q) && SpaceOk(s, q) && IsPresent(Entry(s.mem, q, SELF)) && Grows(s, View(), q)
      requires count == Pow2(order) && frame + count <= MAX_FRAME && FoundIs(s, View(), q, count, Some(n))
      modifies this`mem, allocator.Repr
      ensures Active(q) && Grows(s, View(), q)
      ensures (View(), r) == AutoMap(s, q, frame, order)
    {
      ghost var s1 := View();
      FoundBlock(s, s1, q, order, n, frame);
      var result := MapPages(n, frame, count, q);
      GrowsTrans(s, s1, View(), q);
      r := if result.Err? then Panicked else Done(Some(Region(n * FRAME, n * FRAME + count * FRAME)));
      BlockEnds(s1, View(), q, n, frame, count, result, r);
    }

    /** `MapRange`, for a page and a frame given by number. */
    method MapPages(n: nat, frame: nat, count: nat, ghost q: nat) returns (r: Result<()>)
      requires Active(q) && Acceptable(View(), q, Range(n, frame, count))
      modifies this`mem, allocator.Repr
      ensures Active(q) && Grows(old(View()), View(), q)
      ensures (View(), r) == MapAll(old(View()), q, Range(n, frame, count))
    {
      NumberOfAddress(n);
      NumberOfAddress(frame);
      r := MapRange(n * FRAME, frame * FRAME, count, q);
    }

    // ----- unmap

    /** `next_level_table_mut`, level by level. */
    method WalkTables(path: seq<Slot>, ghost q: nat) returns (r: Option<nat>)
      requires Active(q) && |path| <= 3 && Ordinary(path)
      ensures match Follow(mem, q, path)
              case None => r == None
              case Some(t) => Node(mem, q, path) && r == Some(TableVa(path))
    {
      RootAddress(path[..0]);
      var va, i := LEVEL4_TABLE, 0;
      while i < |path|
        invariant 0 <= i <= |path| && Node(mem, q, path[..i]) && va == TableVa(path[..i])
      {
        TableAddressResolves(View(), q, path[..i]);
        var next := NextLevelTableAddress(va, path[i]);
        NextAddressIs(path[..i], path[i]);
        WalkStep(mem, q, path, i);
        if next.None? {
          return None;
        }
        va := next.value;
        i := i + 1;
      }
      assert path[..i] == path;
      r := Some(va);
    }

    /** `unmap`. Nothing is said about the state after a panic. */
    method Unmap(page: nat, ghost q: nat) returns (r: Outcome<()>)
      requires Active(q) && Ordinary(IdxOf(page))
      modifies this`mem, allocator.Repr
      ensures Valid()
      ensures var (t, o) := PageUnmap.Unmap(old(View()), q, IdxOf(page)); r == o && (!r.Panicked? ==> View() == t)
    {
      var path, d := PageIndices(page);
      var leaf := FindLeaf(path, d, q, IdxOf(page));
      match leaf {
        case None =>
          r := Failed(NoEntry);
        case Some((va, frame)) =>
          r := ReleaseFrame(va, d, frame);
      }
    }

    /** The address of the last-level table of a page, and the frame the page has there. */
    method FindLeaf(path: seq<Slot>, d: Slot, ghost q: nat, ghost idx: seq<Slot>) returns (r: Option<(nat, nat)>)
      requires Active(q) && |idx| == 4 && Ordinary(path) && path == idx[..3] && d == idx[3]
      ensures match r
              case None => LeafFrame(mem, q, idx) == None
              case Some((va, frame)) => LeafFrame(mem, q, idx) == Some(frame) && Mmu(View(), va) == Follow(mem, q, path)
    {
      var table := WalkTables(path, q);
      if table.None? {
        return None;
      }
      TableAddressResolves(View(), q, path);
      var w := ReadEntry(table.value, d);
      assert WordOk(Entry(mem, At(mem, q, path), d));
      GetFrameAddrIs(w);
      var got := GetFrameAddr(w);
      if got.None? {
        return None;
      }
      NumberOfAddress(FrameOf(w));
      r := Some((table.value, got.value / FRAME));
    }

    method ReleaseFrame(va: nat, i: Slot, frame: nat) returns (r: Outcome<()>)
      requires Valid() && Mmu(View(), va).Some?
      modifies this`mem, allocator.Repr
      ensures Valid()
      ensures var (t, o) := Release(old(View()), frame, old(Mmu(View(), va).value), i);
              r == o && (!r.Panicked? ==> View() == t)
    {
      ghost var s, f := View(), Mmu(View(), va).value;
      var ok := GiveBack(frame);
      if !ok {
        ReleasePanics(s, frame, f, i);
        return Panicked;
      }
      ghost var p := View().pool;
      Releases(s, frame, f, i, p);
      WriteEntry(va, i, 0);
      r := Done(());
    }

    /** The allocator's `free` by frame number; false for a panic. */
    method GiveBack(frame: nat) returns (ok: bool)
      requires Valid()
      modifies allocator.Repr
      ensures Valid()
      ensures var s := old(View());
              ok == (Managed(s, frame) && Free(s.pool, frame - s.base).Some?)
              && (ok ==> View() == s.(pool := Free(s.pool, frame - s.base).value))
    {
      var first := allocator.baseAddr / FRAME;
      if first <= frame < first + allocator.order.Length {
        ok := allocator.FreeFrame(frame);
      } else {
        ok := false;
      }
    }

    // ----- several address spaces

    /** An access to the address faults. */
    predicate Faults(va: nat)
      reads this
    {
      !Canonical(va) || Lookup(mem, cr3, IdxOf(va)).None?
    }

    /** `find_empty_page`, then `map` of the frame there. */
    method KeepPage(frame: nat, ghost a: nat) returns (page: Option<nat>, r: Result<()>)
      requires Active(a) && frame < MAX_FRAME
      modifies this`mem, allocator.Repr
      ensures Active(a) && Grows(old(View()), View(), a)
      ensures KeptAs(old(View()), View(), a, frame, page, r)
    {
      ghost var s := View();
      page := FindEmptyPages(1, a);
      ghost var s1 := View();
      if page.None? {
        KeepMisses(s, s1, a, frame);
        return None, Err(NoEntry);
      }
      KeepStarts(s, s1, a, page.value);
      r := Map(page.value * FRAME, frame, a);
      GrowsTrans(s, s1, View(), a);
      KeepEnds(s, s1, View(), a, frame, page.value, IdxOf(page.value * FRAME), r);
    }

    /** `InActivePageTable::new`: the frame of the new root. */
    method NewInactive(ghost a: nat) returns (r: Outcome<Option<nat>>)
      requires Active(a) && cr3 == a
      modifies this`mem, allocator.Repr
      ensures Valid()
      ensures var (t, o) := AddressSpaces.NewInactive(old(View()), a); r == o && (!r.Panicked? ==> View() == t)
    {
      ghost var s := View();
      var got := TakeFrame();
      if got.None? {
        NewStarved(s, View(), a);
        return Done(None);
      }
      r := PrepareRoot(got.value, s, a);
    }

    /** The rest of `new` once frame f was allocated in state s. */
    method PrepareRoot(f: nat, ghost s: Sys, ghost a: nat) returns (r: Outcome<Option<nat>>)
      requires Valid() && SpaceOk(s, a) && s.cr3 == a && SelfLinked(s.mem, a) && AllocOne(s) == (View(), Some(f))
      modifies this`mem, allocator.Repr
      ensures Valid()
      ensures var (t, o) := AddressSpaces.NewInactive(s, a); r == o && (!r.Panicked? ==> View() == t)
    {
      ghost var s1 := View();
      TakenActive(s, s1, a, f);
      var page, result := KeepPage(f, a);
      ghost var s2 := View();
      ghost var i, idx := NewKept(s, s1, s2, a, f, page, result);
      if page.None? || result.Err? {
        return Panicked;
      }
      if !Faults(page.value * FRAME) {
        NewReached(s, s1, s2, a, f, i, idx, page.value);
      }
      r := PreparePage(page.value, f, idx);
    }

    /** Clear the new root f through page number n and give it its self slot. */
    method PreparePage(n: nat, f: nat, ghost idx: seq<Slot>) returns (r: Outcome<Option<nat>>)
      requires Valid() && |idx| == 4 && n == NumberOf(idx)
      requires Faults(n * FRAME) || (Stable(View(), n * FRAME, f) && f < MAX_FRAME)
      modifies this`mem
      ensures Valid()
      ensures var (t, o) := Prepare(old(View()), idx, f); r == o && (!r.Panicked? ==> View() == t)
    {
      PageDeref(View(), idx, n);
      PrepareIs(View(), idx, f);
      if Faults(n * FRAME) {
        return Panicked;
      }
      assert SameBut(mem, mem, f) && View().(mem := mem) == View();
      FillTable(n * FRAME, f);
      r := Done(Some(f));
    }

    /** The part of `with` before its closure: keep a way back to the active root, then redirect its
        recursive slot. The number of the page kept. */
    method BeginWith(target: nat, ghost a: nat) returns (r: Result<nat>)
      requires Active(a) && cr3 == a && a < MAX_FRAME && target < MAX_FRAME
      modifies this`mem, allocator.Repr
      ensures Valid() && OverriddenAs(old(View()), View(), a, target, r)
    {
      ghost var s := View();
      var page, result := KeepPage(cr3, a);
      ghost var s1 := View();
      OverrideFails(s, s1, a, target, page, result);
      if page.None? {
        return Err(NoEntry);
      }
      if result.Err? {
        return Err(result.error);
      }
      RootReached(s1, a);
      LinkEntry(LEVEL4_TABLE, SELF, target, true);
      OverrideEnds(s, s1, a, target, page.value);
      r := Ok(page.value);
    }

    /** The part of `with` after its closure: false if the page kept is out of reach. */
    method EndWith(page: nat, original: nat, ghost idx: seq<Slot>) returns (ok: bool)
      requires Valid() && |idx| == 4 && page == NumberOf(idx) && original == cr3 < MAX_FRAME
      requires var g := Deref(View(), idx); g.Some? ==> Entry(mem, g.value, SELF) < NO_EXECUTE - WRITABLE
      modifies this`mem
      ensures Valid()
      ensures match Restore(old(View()), idx) case None => !ok case Some(t) => ok && View() == t
    {
      PageDeref(View(), idx, page);
      if Faults(page * FRAME) {
        return false;
      }
      LinkEntry(page * FRAME, SELF, original, true);
      ok := true;
    }

    /** `switch`: the frame of the root that was active. */
    method Switch(target: nat) returns (previous: nat)
      modifies this`cr3
      ensures previous == old(cr3) && View() == AddressSpaces.Switch(old(View()), target)
    {
      previous := cr3;
      cr3 := target;
    }
  }
}
