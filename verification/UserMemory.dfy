/** The kernel's loops over a process's regions, with the references to objects and the page table they keep in
    step (kernel/mem/vm_allocator.c). */
module UserMemory {
  import opened Common
  import opened AddressSpace
  import opened Protection

  lemma ReferencesOne(r: Region)
    ensures References([r]) == if r.obj.Some? then multiset{r.obj.value} else multiset{}
  {
    assert [r][1..] == [];
  }

  const PAGE_SIZE: nat := 4096

  function Pages(bytes: nat): (r: nat)
    ensures 0 < bytes ==> 0 < r
  {
    (bytes + PAGE_SIZE - 1) / PAGE_SIZE
  }

  lemma ByteInPages(page: nat, b: nat, bytes: nat)
    requires b < bytes
    ensures page <= (page * PAGE_SIZE + b) / PAGE_SIZE < page + Pages(bytes)
  {
    assert (page * PAGE_SIZE + b) / PAGE_SIZE == page + b / PAGE_SIZE;
  }

  ghost predicate ByteUnmapped(mem: seq<Region>, b: nat) { Lookup(mem, b / PAGE_SIZE).None? }

  lemma PageGone(was: seq<Region>, mem: seq<Region>, lo: nat, hi: nat, a: nat)
    requires Unmapped(was, mem, lo, hi) && lo <= a < hi
    ensures Lookup(mem, a).None?
  {
    assert PageUnmapped(was, mem, lo, hi, a);
  }

  /** Entries outside lo..hi are as they were; none is new. */
  ghost predicate Shrunk(was: map<nat, set<Flag>>, ptes: map<nat, set<Flag>>, lo: nat, hi: nat) {
    && (forall a :: a in ptes ==> a in was && ptes[a] == was[a])
    && (forall a :: a in was && !(lo <= a < hi) ==> a in ptes)
  }

  /** A region that has to be split around lo..hi has an object, to which its parts then each hold a reference. */
  ghost predicate Splittable(mem: seq<Region>, lo: nat,
          hi: nat) { forall r :: r in mem && Strict(r, lo, hi) ==> r.obj.Some? }

  lemma NoHitsSplittable(mem: seq<Region>, lo: nat, hi: nat)
    requires Sorted(mem) && lo < hi && NoHits(mem, lo, hi)
    ensures Splittable(mem, lo, hi) && Free(mem, lo, hi)
  {
    forall j | 0 <= j < |mem| ensures mem[j].end <= lo || hi <= mem[j].start { NotHit(mem[j], lo, hi); }
  }

  class Space {
    var memory: seq<Region>
    var refs: multiset<nat>
    var ptes: map<nat, set<Flag>>

    /** Every region with an object holds a reference to it; only mapped pages have page table entries. */
    ghost predicate Valid()
      reads this
    {
      Sorted(memory) && References(memory) <= refs && Inside(memory, ptes)
    }

    constructor ()
      ensures Valid() && memory == [] && refs == multiset{} && ptes == map[]
    {
      memory, refs, ptes := [], multiset{}, map[];
    }

    /** The first region in a range. */
    method Find(lo: nat, hi: nat) returns (found: Option<nat>)
      requires lo <= hi
      ensures found.Some? ==> lo < hi && First(memory, found.value, lo, hi)
      ensures found.None? ==> lo == hi || NoHits(memory, lo, hi)
    {
      if lo == hi { return None; }
      var i := 0;
      while i < |memory|
        invariant i <= |memory| && forall j :: 0 <= j < i ==> !Hits(memory[j], lo, hi)
      {
        if Hits(memory[i], lo, hi) { return Some(i); }
        i := i + 1;
      }
      return None;
    }

    /** Links a region in before the first that starts at its end or later. */
    method Add(r: Region)
      modifies this`memory
      ensures memory == Insert(old(memory), r)
    {
      var i := 0;
      while i < |memory| && memory[i].start < r.end
        invariant i <= |memory| && forall j :: 0 <= j < i ==> memory[j].start < r.end
      {
        i := i + 1;
      }
      assert i == Position(memory, r.end) by { PositionIs(memory, r.end, i); }
      memory := memory[..i] + [r] + memory[i..];
    }

    method UnmapPages(lo: nat, hi: nat)
      requires lo <= hi
      modifies this`ptes
      ensures ptes == Without(old(ptes), lo, hi)
    {
      var i := lo;
      while i < hi
        invariant lo <= i <= hi && ptes == Without(old(ptes), lo, i)
      {
        ptes := ptes - {i};
        i := i + 1;
      }
    }

    /** Lowers the end of a region page by page. */
    method LowerEnd(i: nat, end: nat)
      requires i < |memory| && memory[i].start <= end <= memory[i].end
      modifies this`memory, this`ptes
      ensures memory == old(memory)[i := old(memory[i]).(end := end)]
      ensures ptes == Without(old(ptes), end, old(memory[i]).end)
    {
      ghost var top := memory[i].end;
      while memory[i].end != end
        invariant i < |memory| == |old(memory)| && end <= memory[i].end <= top
        invariant memory == old(memory)[i := old(memory[i]).(end := memory[i].end)]
        invariant ptes == Without(old(ptes), memory[i].end, top)
        decreases memory[i].end
      {
        memory := memory[i := memory[i].(end := memory[i].end - 1)];
        ptes := ptes - {memory[i].end};
      }
    }

    /** Raises the start of a region page by page, and its offset with it. */
    method RaiseStart(i: nat, start: nat)
      requires i < |memory| && memory[i].start <= start <= memory[i].end
      modifies this`memory, this`ptes
      ensures memory ==
              old(memory)[i := old(memory[i]).(start := start,
                                               offset := old(memory[i]).offset + start - old(memory[i]).start)]
      ensures ptes == Without(old(ptes), old(memory[i]).start, start)
    {
      ghost var r := memory[i];
      while memory[i].start != start
        invariant i < |memory| == |old(memory)| && r.start <= memory[i].start <= start
        invariant memory ==
                  old(memory)[i := r.(start := memory[i].start, offset := r.offset + memory[i].start - r.start)]
        invariant ptes == Without(old(ptes), r.start, memory[i].start)
        decreases start - memory[i].start
      {
        ptes := ptes - {memory[i].start};
        memory := memory[i := memory[i].(start := memory[i].start + 1, offset := memory[i].offset + 1)];
      }
    }

    /** The range lies strictly inside region i: its rest becomes a region of its own. */
    method CutOut(i: nat, lo: nat, hi: nat)
      requires i < |memory| && Strict(memory[i], lo, hi) && lo <= hi && memory[i].obj.Some?
      modifies this
      ensures memory == CutMiddle(old(memory), i, lo, hi)
      ensures refs == old(refs) + multiset{old(memory[i]).obj.value} && ptes == Without(old(ptes), lo, hi)
    {
      UnmapPages(lo, hi);
      var r := memory[i];
      var rest := Region(hi, r.end, r.flags, r.kind, r.obj, r.offset + r.end - r.start);
      refs := refs + multiset{rest.obj.value};
      memory := memory[i := r.(end := lo)];
      Add(rest);
    }

    /** Region i goes with its reference and its page table entries. */
    method Discard(i: nat)
      requires i < |memory| && memory[i].start <= memory[i].end
      modifies this
      ensures memory == old(memory)[..i] + old(memory)[i + 1..]
      ensures refs == old(refs) - References([old(memory[i])])
      ensures ptes == Without(old(ptes), old(memory[i]).start, old(memory[i]).end)
    {
      var r := memory[i];
      ReferencesOne(r);
      if r.obj.Some? { refs := refs - multiset{r.obj.value}; }
      UnmapPages(r.start, r.end);
      memory := memory[..i] + memory[i + 1..];
    }

    /** Where unmapping stands, with references and page table. */
    ghost predicate Underway(start: Snapshot, lo: nat, addr: nat, hi: nat)
      reads this
    {
      && Unmapping(start.memory, memory, lo, addr, hi) && Balanced(start, Snapshot(memory, refs, ptes))
      && Inside(memory, ptes) && Shrunk(start.ptes, ptes, lo, hi)
    }

    ghost predicate Finished(start: Snapshot, lo: nat, hi: nat)
      reads this
    {
      && Unmapped(start.memory, memory, lo, hi) && Balanced(start, Snapshot(memory, refs, ptes))
      && Inside(memory, ptes) && Shrunk(start.ptes, ptes, lo, hi)
    }

    method TakeTail(ghost start: Snapshot, ghost lo: nat, addr: nat, ghost hi: nat, i: nat)
      requires Underway(start, lo, addr, hi) && addr < hi && First(memory, i, addr, hi) && memory[i].start < addr
      requires memory[i].end <= hi
      modifies this`memory, this`ptes
      ensures |memory| == |old(memory)| && addr < old(memory[i]).end <= hi
      ensures Underway(start, lo, old(memory[i]).end, hi)
    {
      ghost var mem, r := memory, memory[i].(end := addr);
      UnmapTail(start.memory, memory, lo, addr, hi, i);
      TrimmedReferences(mem, i, r);
      forall a: nat | Lookup(mem, a).Some? && !(addr <= a < mem[i].end)
        ensures Lookup(mem[i := r], a).Some?
      {
        Trimmed(mem, i, r, a);
      }
      InsideWithout(mem, mem[i := r], ptes, addr, mem[i].end);
      hide Unmapping, Inside, Lookup, References;
      LowerEnd(i, addr);
    }

    method TakeHead(ghost start: Snapshot, ghost lo: nat, ghost addr: nat, hi: nat, i: nat)
      requires Underway(start, lo, addr, hi) && addr < hi && First(memory, i, addr, hi) && addr <= memory[i].start
      requires hi < memory[i].end
      requires Sorted(start.memory)
      modifies this`memory, this`ptes
      ensures Finished(start, lo, hi)
    {
      ghost var mem, r := memory, memory[i].(start := hi, offset := memory[i].offset + hi - memory[i].start);
      UnmapHead(start.memory, memory, lo, addr, hi, i);
      TrimmedReferences(mem, i, r);
      forall a: nat | Lookup(mem, a).Some? && !(mem[i].start <= a < hi)
        ensures Lookup(mem[i := r], a).Some?
      {
        Trimmed(mem, i, r, a);
      }
      InsideWithout(mem, mem[i := r], ptes, mem[i].start, hi);
      assert lo <= mem[i].start;
      hide Unmapping, Unmapped, Inside, Lookup, References;
      RaiseStart(i, hi);
    }

    method TakeMiddle(ghost start: Snapshot, ghost lo: nat, addr: nat, hi: nat, i: nat)
      requires Underway(start, lo, addr, hi) && addr < hi && First(memory, i, addr, hi) && Strict(memory[i], addr, hi)
      requires Sorted(start.memory) && memory[i].obj.Some?
      modifies this
      ensures Finished(start, lo, hi)
    {
      ghost var mem := memory;
      UnmapMiddle(start.memory, memory, lo, addr, hi, i);
      CutMiddleSorted(mem, i, addr, hi);
      ReferencesOne(mem[i]);
      forall a: nat | Lookup(mem, a).Some? && !(addr <= a < hi) ensures Lookup(CutMiddle(mem, i, addr, hi), a).Some? {
        CutMiddlePages(mem, i, addr, hi, a);
      }
      InsideWithout(mem, CutMiddle(mem, i, addr, hi), ptes, addr, hi);
      assert lo <= addr;
      hide Unmapping, Unmapped, Inside, Lookup, References, Balanced;
      ghost var before := Snapshot(memory, refs, ptes);
      CutOut(i, addr, hi);
      ReferenceAdded(start, before, Snapshot(memory, refs, ptes), References([mem[i]]));
    }

    method TakeWhole(ghost start: Snapshot, ghost lo: nat, ghost addr: nat, ghost hi: nat, i: nat)
      requires Underway(start, lo, addr, hi) && addr < hi && First(memory, i, addr, hi) && addr <= memory[i].start
      requires memory[i].end <= hi
      modifies this
      ensures |memory| < |old(memory)| && Underway(start, lo, addr, hi)
    {
      ghost var mem := memory;
      UnmapWhole(start.memory, memory, lo, addr, hi, i);
      RemovedReferences(mem, i);
      forall a: nat | Lookup(mem, a).Some? && !(mem[i].start <= a < mem[i].end)
        ensures Lookup(mem[..i] + mem[i + 1..], a).Some?
      {
        Removed(mem, i, a);
      }
      InsideWithout(mem, mem[..i] + mem[i + 1..], ptes, mem[i].start, mem[i].end);
      assert lo <= addr && mem[i].start <= mem[i].end;
      hide Unmapping, Inside, Lookup, References, Balanced;
      ghost var before := Snapshot(memory, refs, ptes);
      Discard(i);
      ReferenceDropped(start, before, Snapshot(memory, refs, ptes), References([mem[i]]));
    }

    /** One round of the loop: the first region in what is left of the range is split, trimmed or removed. */
    method UnmapFirst(ghost start: Snapshot, ghost lo: nat, addr: nat, hi: nat) returns (next: nat, done: bool)
      requires Sorted(start.memory) && Splittable(start.memory, lo, hi) && lo < hi && addr <= hi
      requires Underway(start, lo, addr, hi)
      modifies this
      ensures done ==> Finished(start, lo, hi)
      ensures next <= hi && (!done ==> Underway(start, lo, next, hi))
      ensures !done ==> |memory| < |old(memory)| || (|memory| == |old(memory)| && addr < next)
      ensures addr == hi || NoHits(old(memory), addr, hi) ==>
                done && next == addr && memory == old(memory) && refs == old(refs)
    {
      hide Unmapping, Unmapped, Inside, Lookup, References, Sorted, Hits, Shrunk, Balanced, Splittable;
      next, done := addr, true;
      var found := Find(addr, hi);
      if found.None? {
        UnmapDone(start.memory, memory, lo, addr, hi);
        return;
      }
      var i := found.value;
      var r := memory[i];
      if r.start < addr && r.end > hi {
        SplitHasObject(start.memory, memory, lo, addr, hi, i);
        TakeMiddle(start, lo, addr, hi, i);
      } else if r.start < addr {
        TakeTail(start, lo, addr, hi, i);
        next, done := r.end, false;
      } else if r.end > hi {
        TakeHead(start, lo, addr, hi, i);
      } else {
        TakeWhole(start, lo, addr, hi, i);
        done := false;
      }
    }

    /** Unmaps lo..lo+length: exactly those pages go, with their page table entries, and each region still holds
        exactly one reference to its object. */
    method Unmap(lo: nat, length: nat)
      requires Valid() && 0 < length && Splittable(memory, lo, lo + length)
      modifies this
      ensures Valid() && Unmapped(old(memory), memory, lo, lo + length)
      ensures refs + References(old(memory)) == old(refs) + References(memory)
      ensures ptes == Without(old(ptes), lo, lo + length)
      ensures NoHits(old(memory), lo, lo + length) ==> memory == old(memory) && refs == old(refs)
    {
      ghost var start := Snapshot(memory, refs, ptes);
      var addr: nat, hi, done := lo, lo + length, false;
      UnmapBegins(memory, lo, hi);
      assert Underway(start, lo, addr, hi);
      hide Unmapped, Underway, Finished, References, Sorted, NoHits, Splittable, Without;
      while !done
        invariant addr <= hi && if done then Finished(start, lo, hi) else Underway(start, lo, addr, hi)
        invariant NoHits(start.memory, lo, hi) ==> addr == lo && memory == start.memory && refs == start.refs
        decreases !done, |memory|, hi - addr
      {
        addr, done := UnmapFirst(start, lo, addr, hi);
      }
      FinishedParts(start, lo, hi);
    }

    lemma FinishedParts(start: Snapshot, lo: nat, hi: nat)
      requires Finished(start, lo, hi)
      ensures Unmapped(start.memory, memory, lo, hi) && Valid() && ptes == Without(start.ptes, lo, hi)
      ensures refs + References(start.memory) == start.refs + References(memory)
    {
      RangeGone(start, Snapshot(memory, refs, ptes), lo, hi);
    }

    /** The system call on bytes: refused at an unaligned address, otherwise every page the bytes touch goes. */
    method UnmapRange(addr: nat, bytes: nat) returns (ok: bool)
      requires Valid() && Splittable(memory, addr / PAGE_SIZE, addr / PAGE_SIZE + Pages(bytes))
      modifies this
      ensures Valid() && (ok <==> addr % PAGE_SIZE == 0)
      ensures !ok || bytes == 0 ==> memory == old(memory) && refs == old(refs) && ptes == old(ptes)
      ensures ok && 0 < bytes ==>
                && Unmapped(old(memory), memory, addr / PAGE_SIZE, addr / PAGE_SIZE + Pages(bytes))
                && ptes == Without(old(ptes), addr / PAGE_SIZE, addr / PAGE_SIZE + Pages(bytes))
      ensures ok ==> forall b: nat :: addr <= b < addr + bytes ==> ByteUnmapped(memory, b)
    {
      hide Splittable, Unmapped, References, Inside, Sorted, Lookup, Without;
      if addr % PAGE_SIZE != 0 { return false; }
      ok := true;
      if bytes > 0 {
        Unmap(addr / PAGE_SIZE, Pages(bytes));
        forall b: nat | addr <= b < addr + bytes ensures ByteUnmapped(memory, b) {
          ByteInPages(addr / PAGE_SIZE, b - addr, bytes);
          PageGone(old(memory), memory, addr / PAGE_SIZE, addr / PAGE_SIZE + Pages(bytes), b / PAGE_SIZE);
        }
      }
    }

    ghost predicate Reprotecting(start: Snapshot, lo: nat, addr: nat, hi: nat, flags: set<Flag>)
      reads this
    {
      && Protecting(start.memory, memory, lo, addr, hi, flags) && Balanced(start, Snapshot(memory, refs, ptes))
      && ptes == start.ptes
    }

    ghost predicate Reprotected(start: Snapshot, lo: nat, hi: nat, flags: set<Flag>)
      reads this
    {
      && Protected(start.memory, memory, lo, hi, flags) && Balanced(start, Snapshot(memory, refs, ptes))
      && ptes == start.ptes
    }

    method ProtectTail(ghost start: Snapshot, ghost lo: nat, addr: nat, ghost hi: nat, flags: set<Flag>, i: nat)
      requires Reprotecting(start, lo, addr, hi, flags) && addr < hi && First(memory, i, addr, hi)
      requires memory[i].start < addr && memory[i].end <= hi && memory[i].obj.Some?
      modifies this`memory, this`refs
      ensures addr < old(memory[i]).end && Reprotecting(start, lo, old(memory[i]).end, hi, flags)
    {
      hide Protecting, References, Balanced, Insert, TailPart, Hits;
      ghost var before := Snapshot(memory, refs, ptes);
      var r := memory[i];
      TailParts(start.memory, memory, lo, addr, hi, flags, i);
      var part := TailPart(r, addr, flags);
      refs := refs + multiset{r.obj.value};
      memory := memory[i := r.(end := addr)];
      Add(part);
      ReferenceAdded(start, before, Snapshot(memory, refs, ptes), References([r]));
    }

    method ProtectHead(ghost start: Snapshot, ghost lo: nat, ghost addr: nat, hi: nat, flags: set<Flag>, i: nat)
      requires Reprotecting(start, lo, addr, hi, flags) && addr < hi && First(memory, i, addr, hi)
      requires addr <= memory[i].start && hi < memory[i].end && Protectable(memory[i].kind) && memory[i].obj.Some?
      modifies this`memory, this`refs
      ensures Reprotected(start, lo, hi, flags)
    {
      hide Protecting, Protected, References, Balanced, Insert, HeadPart, Rest, Hits;
      ghost var before := Snapshot(memory, refs, ptes);
      var r := memory[i];
      HeadParts(start.memory, memory, lo, addr, hi, flags, i);
      var part := HeadPart(r, hi, flags);
      refs := refs + multiset{r.obj.value};
      memory := memory[i := Rest(r, hi)];
      Add(part);
      ReferenceAdded(start, before, Snapshot(memory, refs, ptes), References([r]));
    }

    method ProtectMiddle(ghost start: Snapshot, ghost lo: nat, addr: nat, hi: nat, flags: set<Flag>, i: nat)
      requires Reprotecting(start, lo, addr, hi, flags) && addr < hi && First(memory, i, addr, hi)
      requires Strict(memory[i], addr, hi) && Protectable(memory[i].kind) && memory[i].obj.Some?
      modifies this`memory, this`refs
      ensures Reprotected(start, lo, hi, flags)
    {
      hide Protecting, Protected, References, Balanced, Insert, LowPart, MidPart, HighPart, Hits;
      ghost var before := Snapshot(memory, refs, ptes);
      var r := memory[i];
      MiddleParts(start.memory, memory, lo, addr, hi, flags, i);
      refs := refs + multiset{r.obj.value};
      Add(MidPart(r, addr, hi, flags));
      refs := refs + multiset{r.obj.value};
      memory := memory[i := LowPart(r, addr)];
      Add(HighPart(r, hi));
      ReferenceAdded(start, before, Snapshot(memory, refs, ptes), References([r]) + References([r]));
    }

    method ProtectWhole(ghost start: Snapshot, ghost lo: nat, ghost addr: nat, ghost hi: nat, flags: set<Flag>, i: nat)
      requires Reprotecting(start, lo, addr, hi, flags) && addr < hi && First(memory, i, addr, hi)
      requires addr <= memory[i].start && memory[i].end <= hi
      modifies this`memory
      ensures addr < old(memory[i]).end && Reprotecting(start, lo, old(memory[i]).end, hi, flags)
    {
      RoundWhole(start.memory, memory, lo, addr, hi, flags, i);
      assert Sorted(memory) && NonEmpty(memory);
      hide Protecting, References, Sorted, NonEmpty, Reflags;
      FlagRegionReflags(memory, i, flags, addr);
      memory := memory[i := memory[i].(flags := (memory[i].flags * {Stack}) + flags)];
    }

    /** One round of the loop over the regions in the range. */
    method ProtectFirst(ghost start: Snapshot, ghost lo: nat, addr: nat, hi: nat, flags: set<Flag>)
      returns (next: nat, done: bool)
      requires Cuttable(start.memory, lo, hi) && lo < hi && addr <= hi && Reprotecting(start, lo, addr, hi, flags)
      modifies this`memory, this`refs
      ensures done ==> Reprotected(start, lo, hi, flags)
      ensures !done ==> addr < next <= hi && Reprotecting(start, lo, next, hi, flags)
    {
      hide Protecting, Protected, Balanced, Hits, Cuttable;
      next, done := addr, true;
      var found := Find(addr, hi);
      if found.None? {
        RoundNone(start.memory, memory, lo, addr, hi, flags);
        return;
      }
      var i := found.value;
      var r := memory[i];
      if IsCut(r, addr, hi) { CutHasObject(start.memory, memory, lo, addr, hi, flags, i); }
      if r.start < addr && r.end > hi {
        if !Protectable(r.kind) {
          RoundStop(start.memory, memory, lo, addr, hi, flags, i);
        } else {
          ProtectMiddle(start, lo, addr, hi, flags, i);
        }
      } else if r.start < addr {
        ProtectTail(start, lo, addr, hi, flags, i);
        next, done := r.end, false;
      } else if r.end > hi {
        if !Protectable(r.kind) {
          RoundStop(start.memory, memory, lo, addr, hi, flags, i);
        } else {
          ProtectHead(start, lo, addr, hi, flags, i);
        }
      } else {
        ProtectWhole(start, lo, addr, hi, flags, i);
        next, done := r.end, false;
      }
    }

    /** Changes the protection of lo..lo+length. No region may be empty: the loop would not get past it. */
    method Protect(lo: nat, length: nat, flags: set<Flag>)
      requires Sorted(memory) && NonEmpty(memory) && References(memory) <= refs && 0 < length
      requires Cuttable(memory, lo, lo + length)
      modifies this`memory, this`refs
      ensures Protected(old(memory), memory, lo, lo + length, flags)
      ensures References(memory) <= refs && refs + References(old(memory)) == old(refs) + References(memory)
      ensures AllFlagsAfter(old(memory), memory, lo, lo + length, flags)
    {
      ChangeFlags(lo, length, flags);
      hide Protected, AllFlagsAfter;
      FlagsMeant(old(memory), memory, lo, lo + length, flags);
    }

    method ChangeFlags(lo: nat, length: nat, flags: set<Flag>)
      requires Sorted(memory) && NonEmpty(memory) && References(memory) <= refs && 0 < length
      requires Cuttable(memory, lo, lo + length)
      modifies this`memory, this`refs
      ensures Protected(old(memory), memory, lo, lo + length, flags)
      ensures References(memory) <= refs && refs + References(old(memory)) == old(refs) + References(memory)
    {
      ghost var start := Snapshot(memory, refs, ptes);
      var addr: nat, hi, done := lo, lo + length, false;
      assert Reprotecting(start, lo, addr, hi, flags);
      hide Protecting, Protected, Cuttable;
      while !done
        invariant addr <= hi
        invariant if done then Reprotected(start, lo, hi, flags) else Reprotecting(start, lo, addr, hi, flags)
        decreases !done, hi - addr
      {
        var next;
        next, done := ProtectFirst(start, lo, addr, hi, flags);
        if !done { addr := next; }
      }
    }

    /** The protection call: an unaligned address is refused, zero length does nothing, and otherwise every page the
        bytes touch is protected. */
    method ProtectRange(addr: nat, bytes: nat, prot: Prot) returns (ok: bool)
      requires Sorted(memory) && NonEmpty(memory) && References(memory) <= refs
      requires Cuttable(memory, addr / PAGE_SIZE, addr / PAGE_SIZE + Pages(bytes))
      modifies this`memory, this`refs
      ensures ok <==> addr % PAGE_SIZE == 0
      ensures !ok || bytes == 0 ==> memory == old(memory) && refs == old(refs)
      ensures ok && 0 < bytes ==>
                && Protected(old(memory), memory, addr / PAGE_SIZE, addr / PAGE_SIZE + Pages(bytes), ProtFlags(prot))
                && forall b: nat :: addr <= b < addr + bytes ==> BytePermits(old(memory), memory, b, prot)
    {
      hide Protected, Cuttable, References, Sorted, NonEmpty, AllFlagsAfter, BytePermits, ProtFlags;
      if addr % PAGE_SIZE != 0 { return false; }
      ok := true;
      if bytes > 0 {
        var lo, hi := addr / PAGE_SIZE, addr / PAGE_SIZE + Pages(bytes);
        Protect(lo, Pages(bytes), ProtFlags(prot));
        forall b: nat | addr <= b < addr + bytes ensures BytePermits(old(memory), memory, b, prot) {
          ByteInPages(lo, b - addr, bytes);
          Permitted(old(memory), memory, lo, hi, b, prot);
        }
      }
    }

    /** The heap, if there is one. */
    method FindHeap() returns (found: Option<nat>)
      ensures found == FirstHeap(memory, 0)
    {
      var i := 0;
      while i < |memory|
        invariant i <= |memory| && FirstHeap(memory, 0) == FirstHeap(memory, i)
      {
        if memory[i].kind == Heap { return Some(i); }
        i := i + 1;
      }
      return None;
    }

    /** Looks for room above the heap, skipping past every region in the way. */
    method FindRoom(length: nat) returns (at: nat)
      requires Sorted(memory)
      ensures length == 0 || NoHits(memory, at, at + length)
      ensures 0 < length ==> RoomFound(memory, at, length)
    {
      hide NoHits, First, Sorted, FirstHeap, PastRegion;
      var heap := FindHeap();
      at := if heap.Some? then memory[heap.value].end + SEARCH_GAP else SEARCH_GAP;
      ghost var start := SearchStart(memory);
      assert at == start;
      hide SearchStart;
      while true
        invariant start <= at && (at == start || PastRegion(memory, at))
        invariant at != start ==> !NoHits(memory, start, start + length)
        decreases Max(0, Top(memory) + 1 - at)
      {
        var found := Find(at, at + length);
        if found.None? { break; }
        Skips(memory, found.value, at, at + length);
        at := memory[found.value].end + 5;
      }
    }

    /** Where a new region goes: at a fixed address, or at the address asked for if nothing is in the way, or
        where there is room. */
    method ChooseAddress(wanted: nat, length: nat, fixed: bool) returns (at: nat)
      requires Sorted(memory) && 0 < length
      ensures if fixed then at == wanted else NoHits(memory, at, at + length)
      ensures !fixed && wanted != 0 && NoHits(memory, wanted, wanted + length) ==> at == wanted
      ensures !fixed && (wanted == 0 || !NoHits(memory, wanted, wanted + length)) ==> RoomFound(memory, at, length)
    {
      at := wanted;
      if at != 0 && !fixed {
        var found := Find(at, at + length);
        if found.Some? { at := 0; }
      }
      if at == 0 && !fixed { at := FindRoom(length); }
    }

    /** Unmaps a region's range and links the region in. */
    method PlaceRegion(r: Region)
      requires Valid() && r.start < r.end && r.obj.None?
      requires Splittable(memory, r.start, r.end)
      modifies this
      ensures Valid() && Mapped(old(memory), memory, r) && ptes == Without(old(ptes), r.start, r.end)
      ensures refs + References(old(memory)) == old(refs) + References(memory)
      ensures NoHits(old(memory), r.start, r.end) ==> memory == Insert(old(memory), r) && refs == old(refs)
    {
      hide NoHits, Unmapped, Insert, Mapped, Lookup, References, Inside, Sorted, Without, Splittable;
      ghost var was := memory;
      Unmap(r.start, r.end - r.start);
      Placed(was, memory, r, ptes);
      Add(r);
    }

    /** Maps a new region, without an object yet. At an address asked for but taken, or at none, room is searched
        unless the address is fixed; then nothing that was mapped is touched. A fixed address replaces what is
        there. Stacks, which are searched for downward, are not covered. */
    method MapRegion(wanted: nat, length: nat, fixed: bool, flags: set<Flag>, kind: Kind) returns (at: nat)
      requires Valid() && 0 < length && kind != TaskStack
      requires fixed ==> Splittable(memory, wanted, wanted + length)
      modifies this
      ensures Valid() && Mapped(old(memory), memory, Region(at, at + length, flags, kind, None, 0))
      ensures refs + References(old(memory)) == old(refs) + References(memory)
      ensures ptes == Without(old(ptes), at, at + length)
      ensures fixed ==> at == wanted
      ensures !fixed ==>
                && Free(old(memory), at, at + length) && refs == old(refs)
                && memory == Insert(old(memory), Region(at, at + length, flags, kind, None, 0))
      ensures !fixed && wanted != 0 && NoHits(old(memory), wanted, wanted + length) ==> at == wanted
      ensures !fixed && (wanted == 0 || !NoHits(old(memory), wanted, wanted + length)) ==>
                RoomFound(old(memory), at, length)
    {
      hide RoomFound, Insert, Mapped, References, Inside, Sorted, Splittable, NoHits, Free, Without;
      at := ChooseAddress(wanted, length, fixed);
      if !fixed { NoHitsSplittable(memory, at, at + length); }
      PlaceRegion(Region(at, at + length, flags, kind, None, 0));
    }
  }

  datatype Prot = Prot(read: bool, write: bool, exec: bool)

  /** The flags a protection asks for. They are kept in 32 bits, where the flag against execution, bit 63, has no
      place. */
  function ProtFlags(prot: Prot): (r: set<Flag>) {
    if !prot.read && !prot.write && !prot.exec then {ProtNone}
    else (if prot.write then {Write} else {}) + {User}
  }

  /** A byte of a region that may be cut can be written, and reached at all, exactly as asked for; but nothing is
      ever protected against execution. */
  ghost predicate BytePermits(was: seq<Region>, mem: seq<Region>, b: nat, prot: Prot) {
    forall r :: r in was && Covers(r, b / PAGE_SIZE) && Protectable(r.kind) ==>
      && Lookup(mem, b / PAGE_SIZE).Some?
      && var now := Lookup(mem, b / PAGE_SIZE).value.flags;
         && (Write in now <==> prot.write)
         && (User in now <==> prot.read || prot.write || prot.exec)
         && (ProtNone in now <==> !prot.read && !prot.write && !prot.exec)
         && NoExec !in now
  }

  lemma Permitted(was: seq<Region>, mem: seq<Region>, lo: nat, hi: nat, b: nat, prot: Prot)
    requires lo <= b / PAGE_SIZE < hi && AllFlagsAfter(was, mem, lo, hi, ProtFlags(prot))
    ensures BytePermits(was, mem, b, prot)
  {
    hide Lookup;
    assert FlagsAfter(was, mem, lo, hi, ProtFlags(prot), b / PAGE_SIZE);
  }

  /** 0x10000000 bytes. */
  const SEARCH_GAP: nat := 0x1_0000

  /** The first heap from the i-th region on. */
  function FirstHeap(mem: seq<Region>, i: nat): (r: Option<nat>)
    requires i <= |mem|
    ensures r.Some? ==> i <= r.value < |mem| && mem[r.value].kind == Heap
    ensures forall j :: i <= j < (if r.Some? then r.value else |mem|) ==> mem[j].kind != Heap
    decreases |mem| - i
  {
    if i == |mem| then None else if mem[i].kind == Heap then Some(i) else FirstHeap(mem, i + 1)
  }

  /** Room is searched from 256 megabytes above the end of the heap on, or above 0 without one. */
  ghost function SearchStart(mem: seq<Region>): (r: nat) {
    var heap := FirstHeap(mem, 0);
    (if heap.Some? then mem[heap.value].end else 0) + 0x1_0000
  }

  /** Five pages behind some region. */
  ghost predicate PastRegion(mem: seq<Region>, at: nat) { exists i :: 0 <= i < |mem| && at == mem[i].end + 5 }

  /** Where the search ends: at its start exactly when nothing is in the way there, and else further up, five
      pages behind some region. */
  ghost predicate RoomFound(mem: seq<Region>, at: nat, length: nat) {
    var start := SearchStart(mem);
    start <= at && (at == start <==> NoHits(mem, start, start + length)) && (at == start || PastRegion(mem, at))
  }

  /** An upper bound of all regions. */
  function Top(mem: seq<Region>): (r: nat) { if mem == [] then 0 else Max(mem[0].end, Top(mem[1..])) }

  lemma Skips(mem: seq<Region>, i: nat, lo: nat, hi: nat)
    requires Sorted(mem) && First(mem, i, lo, hi) && lo < hi
    ensures i < |mem| && lo <= mem[i].end <= Top(mem) && !NoHits(mem, lo, hi) && PastRegion(mem, mem[i].end + 5)
  {
    TopBounds(mem, i);
    hide Top;
  }

  lemma {:induction false} TopBounds(mem: seq<Region>, i: nat)
    requires i < |mem|
    ensures mem[i].end <= Top(mem)
  {
    if i > 0 { TopBounds(mem[1..], i - 1); }
  }

  /** The new region's pages are its own; all others are as unmapping its range leaves them. */
  ghost predicate Mapped(was: seq<Region>, mem: seq<Region>, r: Region) {
    && (forall a: nat :: Covers(r, a) ==> Lookup(mem, a) == Some(InfoOf(r, a)))
    && (forall a: nat :: !Covers(r, a) ==> PageUnmapped(was, mem, r.start, r.end, a))
  }

  lemma MappedAll(was: seq<Region>, cut: seq<Region>, r: Region)
    requires Unmapped(was, cut, r.start, r.end) && r.start <= r.end
    ensures Sorted(Insert(cut, r)) && Mapped(was, Insert(cut, r), r)
  {
    InsertedSorted(cut, r);
    hide Insert, Lookup;
    forall a: nat
      ensures Lookup(Insert(cut, r), a) == if Covers(r, a) then Some(InfoOf(r, a)) else Lookup(cut, a)
    {
      Inserted(cut, r, a);
    }
    forall a: nat | !Covers(r, a) ensures PageUnmapped(was, Insert(cut, r), r.start, r.end, a) {
      assert PageUnmapped(was, cut, r.start, r.end, a);
    }
  }

  lemma Placed(was: seq<Region>, cut: seq<Region>, r: Region, ptes: map<nat, set<Flag>>)
    requires Unmapped(was, cut, r.start, r.end) && r.start <= r.end && r.obj.None? && Inside(cut, ptes)
    ensures Sorted(Insert(cut, r)) && Mapped(was, Insert(cut, r), r) && Inside(Insert(cut, r), ptes)
    ensures References(Insert(cut, r)) == References(cut)
  {
    MappedAll(was, cut, r);
    assert Sorted(cut) && Free(cut, r.start, r.end);
    hide Insert, Lookup, Unmapped, Mapped, References, Inside, Sorted, Free;
    MappedInside(cut, r, ptes);
    ReferencesOne(r);
    InsertedReferences(cut, r);
  }

  lemma MappedInside(cut: seq<Region>, r: Region, ptes: map<nat, set<Flag>>)
    requires Sorted(cut) && r.start <= r.end && Free(cut, r.start, r.end) && Inside(cut, ptes)
    ensures Inside(Insert(cut, r), ptes)
  {
    hide Insert, Lookup;
    forall a: nat | a in ptes ensures Lookup(Insert(cut, r), a).Some? { Inserted(cut, r, a); }
  }

  /** What an operation started from. */
  datatype Snapshot = Snapshot(memory: seq<Region>, refs: multiset<nat>, ptes: map<nat, set<Flag>>)

  /** Each region still holds one reference, and nobody else's reference was touched. */
  ghost predicate Balanced(s: Snapshot, t: Snapshot) {
    References(t.memory) <= t.refs && t.refs + References(s.memory) == s.refs + References(t.memory)
  }

  lemma InsideWithout(mem: seq<Region>, mem': seq<Region>, ptes: map<nat, set<Flag>>, lo: nat, hi: nat)
    requires Inside(mem, ptes)
    requires forall a: nat :: Lookup(mem, a).Some? && !(lo <= a < hi) ==> Lookup(mem', a).Some?
    ensures Inside(mem', Without(ptes, lo, hi))
  {
  }

  lemma SplitHasObject(was: seq<Region>, mem: seq<Region>, lo: nat, addr: nat, hi: nat, i: nat)
    requires Unmapping(was, mem, lo, addr, hi) && addr < hi && First(mem, i, addr, hi) && Strict(mem[i], addr, hi)
    requires Splittable(was, lo, hi)
    ensures mem[i].obj.Some?
  {
    OnlyStrictAtStart(was, mem, lo, addr, hi, i);
    assert mem[i] in was;
  }

  lemma RangeGone(s: Snapshot, t: Snapshot, lo: nat, hi: nat)
    requires Unmapped(s.memory, t.memory, lo, hi) && Inside(t.memory, t.ptes) && Shrunk(s.ptes, t.ptes, lo, hi)
    requires Balanced(s, t)
    ensures t.ptes == Without(s.ptes, lo, hi) && Sorted(t.memory)
    ensures References(t.memory) <= t.refs && t.refs + References(s.memory) == s.refs + References(t.memory)
  {
    forall a: nat | a in t.ptes ensures !(lo <= a < hi) { assert PageUnmapped(s.memory, t.memory, lo, hi, a); }
  }

  lemma TailParts(was: seq<Region>, mem: seq<Region>, lo: nat, addr: nat, hi: nat, flags: set<Flag>, i: nat)
    requires Protecting(was, mem, lo, addr, hi, flags) && addr < hi && First(mem, i, addr, hi)
    requires mem[i].start < addr && mem[i].end <= hi && mem[i].obj.Some?
    ensures addr < mem[i].end && Protecting(was, FlagTail(mem, i, addr, flags), lo, mem[i].end, hi, flags)
    ensures References(FlagTail(mem, i, addr, flags)) == References(mem) + References([mem[i]])
    ensures References([mem[i]]) == multiset{mem[i].obj.value}
  {
    hide References, FlagTail, Reflags;
    RoundTail(was, mem, lo, addr, hi, flags, i);
    ReferencesOne(mem[i]);
    FlagTailReflags(mem, i, addr, flags);
  }

  lemma HeadParts(was: seq<Region>, mem: seq<Region>, lo: nat, addr: nat, hi: nat, flags: set<Flag>, i: nat)
    requires Protecting(was, mem, lo, addr, hi, flags) && addr < hi && First(mem, i, addr, hi)
    requires addr <= mem[i].start && hi < mem[i].end && Protectable(mem[i].kind) && mem[i].obj.Some?
    ensures mem[i].start < hi && Protected(was, FlagHead(mem, i, hi, flags), lo, hi, flags)
    ensures References(FlagHead(mem, i, hi, flags)) == References(mem) + References([mem[i]])
    ensures References([mem[i]]) == multiset{mem[i].obj.value}
  {
    hide References, FlagHead, Reflags, Protected;
    RoundHead(was, mem, lo, addr, hi, flags, i);
    ReferencesOne(mem[i]);
    FlagHeadReflags(mem, i, hi, flags, addr);
  }

  lemma MiddleParts(was: seq<Region>, mem: seq<Region>, lo: nat, addr: nat, hi: nat, flags: set<Flag>, i: nat)
    requires Protecting(was, mem, lo, addr, hi, flags) && addr < hi && First(mem, i, addr, hi)
    requires Strict(mem[i], addr, hi) && Protectable(mem[i].kind) && mem[i].obj.Some?
    ensures |Insert(mem, MidPart(mem[i], addr, hi, flags))| == |mem| + 1
    ensures Protected(was, FlagMiddle(mem, i, addr, hi, flags), lo, hi, flags)
    ensures References(FlagMiddle(mem, i, addr, hi, flags)) ==
        References(mem) + (References([mem[i]]) + References([mem[i]]))
    ensures References([mem[i]]) == multiset{mem[i].obj.value}
  {
    hide References, FlagMiddle, Protected;
    RoundMiddle(was, mem, lo, addr, hi, flags, i);
    ReferencesOne(mem[i]);
    MiddleReferences(mem, i, addr, hi, flags);
    InsertedAt(mem, MidPart(mem[i], addr, hi, flags), 0);
  }

  lemma ReferenceAdded(s: Snapshot, t: Snapshot, t': Snapshot, r: multiset<nat>)
    requires Balanced(s, t) && t'.refs == t.refs + r && References(t'.memory) == References(t.memory) + r
    ensures Balanced(s, t')
  {
    hide References;
    assert t'.refs + References(s.memory) == (t.refs + References(s.memory)) + r;
  }

  lemma ReferenceDropped(s: Snapshot, t: Snapshot, t': Snapshot, r: multiset<nat>)
    requires Balanced(s, t) && t'.refs == t.refs - r && References(t.memory) == References(t'.memory) + r
    ensures Balanced(s, t')
  {
    hide References;
    forall x: nat ensures (t'.refs + References(s.memory))[x] == (s.refs + References(t'.memory))[x] {
      assert (t.refs + References(s.memory))[x] == (s.refs + References(t.memory))[x];
      assert References(t.memory)[x] == References(t'.memory)[x] + r[x];
      assert References(t.memory)[x] <= t.refs[x];
    }
    assert t'.refs + References(s.memory) == s.refs + References(t'.memory);
  }

  lemma UnmapBegins(mem: seq<Region>, lo: nat, hi: nat)
    requires Sorted(mem) && lo <= hi
    ensures Unmapping(mem, mem, lo, lo, hi)
  {
  }
}
