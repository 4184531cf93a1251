/** Processes that fork, run and exit: every run of the copy-on-write kernel is a run of the kernel that copies. */
module ProcessIsolation {
  import opened Common
  import opened PhysicalPages
  import opened CopyOnWrite
  import opened ForkRefinement

  // ---------------------------------------------------------------- exit

  ghost predicate Dropped(k: Kernel, k': Kernel, pid: nat) {
    && pid in k.procs && k.procs[pid].regions != [] && k'.procs.Keys == k.procs.Keys
    && k'.procs[pid].regions == k.procs[pid].regions[..|k.procs[pid].regions| - 1]
    && forall q :: q in k.procs && q != pid ==> k'.procs[q].regions == k.procs[q].regions
  }

  lemma UsersDropped(k: Kernel, k': Kernel, pid: nat, o: nat)
    requires Dropped(k, k', pid)
    ensures var n := |k.procs[pid].regions| - 1;
            && Users(k', o) == Users(k, o) - {(pid, n)}
            && ((pid, n) in Users(k, o) <==> o == k.procs[pid].regions[n].obj)
  {
  }

  lemma StillUsed(k: Kernel, k': Kernel, pid: nat, q: nat, b: nat)
    requires Dropped(k, k', pid) && UsersExact(k) && HasRegion(k', q, b)
    requires k.procs[pid].regions[|k.procs[pid].regions| - 1].obj in k.mem.objects
    requires k'.procs[q].regions[b].obj == k.procs[pid].regions[|k.procs[pid].regions| - 1].obj
    ensures 1 < k.mem.objects[k'.procs[q].regions[b].obj].count
  {
    var o := k'.procs[q].regions[b].obj;
    UsersDropped(k, k', pid, o);
    assert (q, b) in Users(k', o);
    assert |Users(k', o)| == |Users(k, o)| - 1;
  }

  lemma CountsDropped(k: Kernel, k': Kernel, pid: nat)
    requires Dropped(k, k', pid) && UsersExact(k)
    requires var o := k.procs[pid].regions[|k.procs[pid].regions| - 1].obj;
             && o in k.mem.objects
             && k'.mem.objects == (if k.mem.objects[o].count <= 1 then k.mem.objects - {o}
                                   else k.mem.objects[o := k.mem.objects[o].(count := k.mem.objects[o].count - 1)])
    ensures UsersExact(k')
  {
    forall o | o in k'.mem.objects ensures k'.mem.objects[o].count == |Users(k', o)| && 0 < k'.mem.objects[o].count {
      UsersDropped(k, k', pid, o);
      hide Users;
    }
  }

  /** What dropping the last region does to memory. */
  ghost predicate DropsLast(k: Kernel, k': Kernel, pid: nat)
    requires Dropped(k, k', pid)
  {
    var o := k.procs[pid].regions[|k.procs[pid].regions| - 1].obj;
    && o in k.mem.objects && Conserved(k'.mem)
    && (forall x, j :: HasSlot(k.mem, x, j) && (x != o || 1 < k.mem.objects[o].count) ==> Spared(k.mem, k'.mem, x, j))
    && k'.mem.objects == (if k.mem.objects[o].count <= 1 then k.mem.objects - {o}
                          else k.mem.objects[o := k.mem.objects[o].(count := k.mem.objects[o].count - 1)])
  }

  lemma UnmapDrops(k: Kernel, pid: nat)
    requires Inv(k) && pid in k.procs && k.procs[pid].regions != []
    ensures Dropped(k, UnmapLast(k, pid), pid) && DropsLast(k, UnmapLast(k, pid), pid)
  {
    hide Inv, Conserved, Spared, DropObject;
    var n := |k.procs[pid].regions| - 1;
    InvParts(k, pid, n);
    DropObjectConserves(k.mem, k.procs[pid].regions[n].obj);
  }

  lemma RegionsDropped(k: Kernel, k': Kernel, pid: nat)
    requires RegionsOk(k) && UsersExact(k) && Exclusive(k) && Dropped(k, k', pid) && DropsLast(k, k', pid)
    ensures RegionsOk(k') && Exclusive(k')
  {
    hide UsersExact, Conserved, Spared;
    assert Exclusive(k') by {
      forall q: nat, b: nat, o: nat | Uses(k', q, b, o)
        ensures Uses(k, q, b, o) && k.procs[q].regions[b] == k'.procs[q].regions[b] {}
    }
    hide Exclusive;
    forall q: nat, b: nat | HasRegion(k', q, b) ensures RegionOk(k', q, b) {
      assert HasRegion(k, q, b) && RegionOk(k, q, b) && k.procs[q].regions[b] == k'.procs[q].regions[b];
      if k'.procs[q].regions[b].obj == k.procs[pid].regions[|k.procs[pid].regions| - 1].obj {
        StillUsed(k, k', pid, q, b);
      }
    }
  }

  /** The pages of every region that stays are as they were. */
  lemma SlotStays(k: Kernel, k': Kernel, pid: nat, q: nat, b: nat, x: nat)
    requires UsersExact(k) && Dropped(k, k', pid) && DropsLast(k, k', pid) && HasRegion(k', q, b)
    requires HasSlot(k.mem, k'.procs[q].regions[b].obj, x)
    ensures Spared(k.mem, k'.mem, k'.procs[q].regions[b].obj, x)
  {
    hide UsersExact, Conserved, Spared;
    if k'.procs[q].regions[b].obj == k.procs[pid].regions[|k.procs[pid].regions| - 1].obj {
      StillUsed(k, k', pid, q, b);
    }
  }

  lemma EntryStays(k: Kernel, k': Kernel, pid: nat, q: nat, b: nat, a: nat)
    requires UsersExact(k) && Dropped(k, k', pid) && DropsLast(k, k', pid) && PteOk(k, q, b, a) && HasRegion(k', q, b)
    requires (b, a) in k'.procs[q].ptes && k'.procs[q].ptes[(b, a)] == k.procs[q].ptes[(b, a)]
    ensures PteOk(k', q, b, a)
  {
    hide UsersExact, DropsLast, Conserved;
    var h, t := k.procs[q].regions[b], k.procs[q].ptes[(b, a)];
    assert k'.procs[q].regions[b] == h;
    SlotStays(k, k', pid, q, b, h.offset + a);
    DropsConserves(k, k', pid);
    BackedKept(k.mem, k'.mem, h.obj, h.offset + a, t.frame, t.writable);
    PteFrom(k, k', q, b, a);
  }

  lemma DropsConserves(k: Kernel, k': Kernel, pid: nat)
    requires Dropped(k, k', pid) && DropsLast(k, k', pid)
    ensures Conserved(k'.mem)
    ensures forall x :: x in k'.mem.objects ==> x in k.mem.objects && k'.mem.objects[x].slots == k.mem.objects[x].slots
  {
    hide Spared, Conserved;
  }

  lemma UnmapEntries(k: Kernel, pid: nat, q: nat, b: nat, a: nat)
    requires pid in k.procs && k.procs[pid].regions != [] && q in k.procs && (b, a) in UnmapLast(k, pid).procs[q].ptes
    ensures var k' := UnmapLast(k, pid);
            && (b, a) in k.procs[q].ptes && k'.procs[q].ptes[(b, a)] == k.procs[q].ptes[(b, a)]
            && (HasRegion(k, q, b) ==> HasRegion(k', q, b))
  {
    hide DropObject;
  }

  lemma UnmapPtes(k: Kernel, pid: nat)
    requires Inv(k) && pid in k.procs && k.procs[pid].regions != []
    ensures PtesOk(UnmapLast(k, pid))
  {
    var k' := UnmapLast(k, pid);
    assert UsersExact(k) by { hide UsersExact, Conserved, PtesOk; }
    hide Inv, UsersExact, DropsLast, UnmapLast, PteOk;
    UnmapDrops(k, pid);
    forall q: nat, b: nat, a: nat | q in k'.procs && (b, a) in k'.procs[q].ptes ensures PteOk(k', q, b, a) {
      UnmapEntries(k, pid, q, b, a);
      PteIsOk(k, q, b, a);
      PteInRegion(k, q, b, a);
      EntryStays(k, k', pid, q, b, a);
    }
  }

  lemma SingleStays(k: Kernel, k': Kernel, pid: nat, q: nat, b: nat)
    requires Conserved(k.mem) && UsersExact(k) && Dropped(k, k', pid) && DropsLast(k, k', pid) && HasRegion(k', q, b)
    requires var o := k'.procs[q].regions[b].obj; o in k.mem.objects && o in k'.mem.objects && Single(k.mem, o)
    ensures Single(k'.mem, k'.procs[q].regions[b].obj)
  {
    hide UsersExact, DropsLast, Conserved, Dropped, Content;
    var o := k'.procs[q].regions[b].obj;
    DropsConserves(k, k', pid);
    forall x: nat | HasSlot(k.mem, o, x) ensures Kept(k.mem, k'.mem, o, x) { SlotStays(k, k', pid, q, b, x); }
    SingleKept(k.mem, k'.mem, o);
  }

  lemma SharedSingleStays(k: Kernel, k': Kernel, pid: nat)
    requires Inv(k) && Dropped(k, k', pid) && DropsLast(k, k', pid)
    ensures SharedSingle(k')
  {
    assert UsersExact(k) by { hide UsersExact, Conserved, PtesOk; }
    hide Inv, UsersExact, DropsLast, Conserved, Single;
    DropsConserves(k, k', pid);
    forall q: nat, b: nat | HasRegion(k', q, b) && !Private(k'.procs[q].regions[b])
        && k'.procs[q].regions[b].obj in k'.mem.objects
      ensures Single(k'.mem, k'.procs[q].regions[b].obj)
    {
      InvParts(k, q, b);
      SingleStays(k, k', pid, q, b);
    }
  }

  lemma UnmapInv(k: Kernel, pid: nat)
    requires Inv(k) && pid in k.procs && k.procs[pid].regions != []
    ensures Inv(UnmapLast(k, pid))
  {
    var k' := UnmapLast(k, pid);
    hide Conserved, RegionsOk, UsersExact, Exclusive, SharedSingle, PtesOk, UnmapLast, Dropped;
    UnmapPtes(k, pid);
    UnmapDrops(k, pid);
    SharedSingleStays(k, k', pid);
    RegionsDropped(k, k', pid);
    CountsDropped(k, k', pid);
    DropsConserves(k, k', pid);
  }

  /** Objects that stay keep their contents. */
  ghost predicate StoresStay(m: Mem, m': Mem) {
    forall o :: o in m'.objects ==> o in m.objects && Store(m', o) == Store(m, o)
  }

  lemma UnmapStores(k: Kernel, pid: nat)
    requires Inv(k) && pid in k.procs && k.procs[pid].regions != []
    ensures StoresStay(k.mem, UnmapLast(k, pid).mem)
  {
    var k' := UnmapLast(k, pid);
    hide Inv, UnmapLast;
    UnmapDrops(k, pid);
    hide Conserved, Dropped;
    forall o | o in k'.mem.objects ensures o in k.mem.objects && Store(k'.mem, o) == Store(k.mem, o) {
      assert k'.mem.objects[o].slots == k.mem.objects[o].slots;
      forall x: nat | x < |k.mem.objects[o].slots| ensures Content(k'.mem, o, x) == Content(k.mem, o, x) {
        assert HasSlot(k.mem, o, x) && Spared(k.mem, k'.mem, o, x);
      }
    }
  }

  function DropRegions(k: Kernel, pid: nat): (r: Kernel)
    requires pid in k.procs
    ensures pid in r.procs && r.procs.Keys == k.procs.Keys
    decreases |k.procs[pid].regions|
  {
    if k.procs[pid].regions == [] then k else DropRegions(UnmapLast(k, pid), pid)
  }

  lemma {:induction false} DropRegionsKeeps(k: Kernel, pid: nat)
    requires Inv(k) && pid in k.procs
    ensures var k' := DropRegions(k, pid);
            && Inv(k') && k'.procs[pid].regions == [] && StoresStay(k.mem, k'.mem)
            && forall q :: q in k.procs && q != pid ==> k'.procs[q] == k.procs[q]
    decreases |k.procs[pid].regions|
  {
    if k.procs[pid].regions != [] {
      var k1 := UnmapLast(k, pid);
      UnmapInv(k, pid);
      UnmapStores(k, pid);
      hide Inv, DropObject;
      DropRegionsKeeps(k1, pid);
      assert forall q :: q in k.procs && q != pid ==> k1.procs[q] == k.procs[q];
    }
  }

  /** Exit drops every region, then the process. */
  function Exit(k: Kernel, pid: nat): (r: Kernel)
    requires pid in k.procs
  {
    var k1 := DropRegions(k, pid);
    k1.(procs := k1.procs - {pid})
  }

  ghost predicate Used(procs: map<nat, seq<Region>>, o: nat) {
    exists q: nat, b: nat :: q in procs && b < |procs[q]| && procs[q][b].obj == o
  }

  /** The simple exit: what no remaining process can reach goes. */
  ghost function EagerExit(e: Eager, pid: nat): (r: Eager) {
    var procs := e.procs - {pid};
    Eager(map o | o in e.stores && Used(procs, o) :: e.stores[o], procs)
  }

  /** Removing a process without regions keeps the invariant. */
  lemma RemoveInv(k: Kernel, pid: nat)
    requires Inv(k) && pid in k.procs && k.procs[pid].regions == []
    ensures Inv(k.(procs := k.procs - {pid}))
  {
    var k' := k.(procs := k.procs - {pid});
    hide Conserved;
    assert RegionsOk(k') && SharedSingle(k') by {
      assert forall q: nat, b: nat :: HasRegion(k', q, b) ==> HasRegion(k, q, b);
      assert forall q: nat, b: nat :: HasRegion(k', q, b) ==> RegionOk(k, q, b);
    }
    assert Exclusive(k') by { assert forall q: nat, b: nat, o: nat :: Uses(k', q, b, o) ==> Uses(k, q, b, o); }
    hide RegionsOk, Exclusive, SharedSingle;
    assert PtesOk(k') by {
      forall q: nat, b: nat, a: nat | q in k'.procs && (b, a) in k'.procs[q].ptes
        ensures PteOk(k', q, b, a)
      {
        assert PteOk(k, q, b, a);
      }
    }
    hide PtesOk;
    forall o | o in k'.mem.objects ensures k'.mem.objects[o].count == |Users(k', o)| && 0 < k'.mem.objects[o].count {
      assert Users(k', o) == Users(k, o);
    }
  }

  /** The objects that exist are those some region uses. */
  lemma ObjectsUsed(k: Kernel, o: nat)
    requires Inv(k)
    ensures o in k.mem.objects <==> Used(Abs(k).procs, o)
  {
    hide Conserved, Exclusive, SharedSingle, PtesOk;
    if o in k.mem.objects {
      assert |Users(k, o)| > 0;
      var x :| x in Users(k, o);
      assert x.0 in Abs(k).procs && x.1 < |Abs(k).procs[x.0]|;
    }
    if Used(Abs(k).procs, o) {
      var q: nat, b: nat :| q in Abs(k).procs && b < |Abs(k).procs[q]| && Abs(k).procs[q][b].obj == o;
      assert HasRegion(k, q, b) && RegionOk(k, q, b);
    }
  }

  lemma ExitAbs(k: Kernel, k': Kernel, pid: nat)
    requires Inv(k') && Abs(k').procs == Abs(k).procs - {pid} && StoresStay(k.mem, k'.mem)
    requires forall o :: o in k.mem.objects && Used(Abs(k').procs, o) ==> o in k'.mem.objects
    ensures Abs(k') == EagerExit(Abs(k), pid)
  {
    hide Inv, Used;
    forall o ensures o in k'.mem.objects <==> o in k.mem.objects && Used(Abs(k').procs, o) { ObjectsUsed(k', o); }
    assert Abs(k').stores == EagerExit(Abs(k), pid).stores;
  }

  lemma ExitRefines(k: Kernel, pid: nat)
    requires Inv(k) && pid in k.procs
    ensures Inv(Exit(k, pid)) && Abs(Exit(k, pid)) == EagerExit(Abs(k), pid)
  {
    hide Inv, DropRegions, Stores, Used, StoresStay;
    var k1, k' := DropRegions(k, pid), Exit(k, pid);
    DropRegionsKeeps(k, pid);
    RemoveInv(k1, pid);
    assert Abs(k').procs == Abs(k).procs - {pid};
    hide Abs;
    forall o ensures Used(Abs(k').procs, o) ==> o in k'.mem.objects { ObjectsUsed(k', o); }
    assert StoresStay(k.mem, k'.mem);
    ExitAbs(k, k', pid);
  }

  // ---------------------------------------------------------------- fork

  predicate CanFork(k: Kernel, pid: nat, child: nat, j: nat, obj: nat) {
    HasRegion(k, pid, j) && RegionOk(k, pid, j) && child in k.procs && child != pid && obj !in k.mem.objects
  }

  /** Forks the parent's regions one after another from region j on, each with its own object number. */
  function ForkRegions(k: Kernel, pid: nat, child: nat, objs: seq<nat>, j: nat): (r: Kernel)
    requires j <= |objs|
    decreases |objs| - j
  {
    if j == |objs| then k
    else ForkRegions(if CanFork(k, pid, child, j, objs[j]) then ForkRegion(k, pid, child, j, objs[j]) else k,
                     pid, child, objs, j + 1)
  }

  function Fork(k: Kernel, pid: nat, child: nat, objs: seq<nat>): (r: Kernel) {
    ForkRegions(k.(procs := k.procs[child := Process([], map[])]), pid, child, objs, 0)
  }

  predicate EagerCanFork(e: Eager, pid: nat, child: nat, j: nat) {
    && child in e.procs && pid in e.procs && j < |e.procs[pid]|
    && e.procs[pid][j].obj in e.stores
    && e.procs[pid][j].offset + e.procs[pid][j].pages <= |e.stores[e.procs[pid][j].obj]|
  }

  function EagerForkRegions(e: Eager, pid: nat, child: nat, objs: seq<nat>, j: nat): (r: Eager)
    requires j <= |objs|
    decreases |objs| - j
  {
    if j == |objs| then e
    else EagerForkRegions(if EagerCanFork(e, pid, child, j) then EagerForkRegion(e, pid, child, j, objs[j]) else e,
                          pid, child, objs, j + 1)
  }

  /** The simple fork: private regions are copied, all others shared. */
  function EagerFork(e: Eager, pid: nat, child: nat, objs: seq<nat>): (r: Eager) {
    EagerForkRegions(e.(procs := e.procs[child := []]), pid, child, objs, 0)
  }

  ghost predicate NewObjects(k: Kernel, objs: seq<nat>, j: nat) {
    && (forall i :: j <= i < |objs| ==> objs[i] !in k.mem.objects)
    && (forall i, i' :: 0 <= i < i' < |objs| ==> objs[i] != objs[i'])
  }

  lemma ForkKeepsParent(k: Kernel, pid: nat, child: nat, j: nat, obj: nat)
    requires CanFork(k, pid, child, j, obj)
    ensures var k' := ForkRegion(k, pid, child, j, obj);
            k'.procs.Keys == k.procs.Keys && k'.procs[pid].regions == k.procs[pid].regions
  {
    hide Clone, BumpObject, MarkCow;
  }

  lemma StillNew(k: Kernel, k': Kernel, pid: nat, child: nat, objs: seq<nat>, j: nat)
    requires EagerCanFork(Abs(k), pid, child, j) && j < |objs| && NewObjects(k, objs, j)
    requires Abs(k') == EagerForkRegion(Abs(k), pid, child, j, objs[j])
    ensures NewObjects(k', objs, j + 1)
  {
    assert Abs(k').stores.Keys <= Abs(k).stores.Keys + {objs[j]};
    assert k'.mem.objects.Keys <= k.mem.objects.Keys + {objs[j]};
  }

  lemma ForkStepKeeps(k: Kernel, pid: nat, child: nat, objs: seq<nat>, j: nat)
    requires Inv(k) && HasRegion(k, pid, j) && child in k.procs && child != pid && j < |objs| && NewObjects(k, objs, j)
    ensures CanFork(k, pid, child, j, objs[j]) && EagerCanFork(Abs(k), pid, child, j)
    ensures var k' := ForkRegion(k, pid, child, j, objs[j]);
            && Inv(k') && Abs(k') == EagerForkRegion(Abs(k), pid, child, j, objs[j])
            && k'.procs.Keys == k.procs.Keys && k'.procs[pid].regions == k.procs[pid].regions
            && NewObjects(k', objs, j + 1)
  {
    hide Inv, ForkRegion, EagerForkRegion, Conserved, Single;
    InvParts(k, pid, j);
    assert EagerCanFork(Abs(k), pid, child, j) && CanFork(k, pid, child, j, objs[j]);
    hide Abs, Stores;
    ForkRegionRefines(k, pid, child, j, objs[j]);
    ForkKeepsParent(k, pid, child, j, objs[j]);
    StillNew(k, ForkRegion(k, pid, child, j, objs[j]), pid, child, objs, j);
  }

  lemma {:induction false} ForkRegionsRefine(k: Kernel, pid: nat, child: nat, objs: seq<nat>, j: nat)
    requires Inv(k) && pid in k.procs && child in k.procs && child != pid
    requires j <= |objs| && |objs| == |k.procs[pid].regions| && NewObjects(k, objs, j)
    ensures Inv(ForkRegions(k, pid, child, objs, j))
    ensures Abs(ForkRegions(k, pid, child, objs, j)) == EagerForkRegions(Abs(k), pid, child, objs, j)
    decreases |objs| - j
  {
    hide Inv, Abs, ForkRegion, EagerForkRegion, NewObjects, RegionOk;
    if j < |objs| {
      ForkStepKeeps(k, pid, child, objs, j);
      ForkRegionsRefine(ForkRegion(k, pid, child, j, objs[j]), pid, child, objs, j + 1);
    }
  }

  lemma SpawnInv(k: Kernel, child: nat)
    requires Inv(k) && child !in k.procs
    ensures Inv(k.(procs := k.procs[child := Process([], map[])]))
  {
    var k' := k.(procs := k.procs[child := Process([], map[])]);
    hide Conserved;
    assert RegionsOk(k') && SharedSingle(k') by {
      assert forall q: nat, b: nat :: HasRegion(k', q, b) ==> HasRegion(k, q, b);
      assert forall q: nat, b: nat :: HasRegion(k', q, b) ==> RegionOk(k, q, b);
    }
    assert Exclusive(k') by { assert forall q: nat, b: nat, o: nat :: Uses(k', q, b, o) ==> Uses(k, q, b, o); }
    hide RegionsOk, Exclusive, SharedSingle;
    assert PtesOk(k') by {
      forall q: nat, b: nat, a: nat | q in k'.procs && (b, a) in k'.procs[q].ptes
        ensures PteOk(k', q, b, a)
      {
        assert PteOk(k, q, b, a);
      }
    }
    hide PtesOk;
    forall o | o in k'.mem.objects ensures k'.mem.objects[o].count == |Users(k', o)| && 0 < k'.mem.objects[o].count {
      assert Users(k', o) == Users(k, o);
    }
  }

  /** Fork behaves like the fork that copies every private region. */
  lemma ForkRefines(k: Kernel, pid: nat, child: nat, objs: seq<nat>)
    requires Inv(k) && pid in k.procs && child !in k.procs && |objs| == |k.procs[pid].regions| && NewObjects(k, objs, 0)
    ensures Inv(Fork(k, pid, child, objs)) && Abs(Fork(k, pid, child, objs)) == EagerFork(Abs(k), pid, child, objs)
  {
    var k1 := k.(procs := k.procs[child := Process([], map[])]);
    hide Inv, ForkRegions, EagerForkRegions;
    SpawnInv(k, child);
    assert Abs(k1) == Abs(k).(procs := Abs(k).procs[child := []]);
    hide Abs;
    ForkRegionsRefine(k1, pid, child, objs, 0);
  }

  // ---------------------------------------------------------------- memory accesses

  /** The page is mapped, faulting if it is not. */
  function Touch(k: Kernel, pid: nat, j: nat, i: nat, id: nat, frame: nat): (r: Kernel)
    requires CanUse(k, pid, j, i)
    ensures HasRegion(r, pid, j) && r.procs[pid].regions == k.procs[pid].regions && (j, i) in r.procs[pid].ptes
  {
    if (j, i) in k.procs[pid].ptes then k else Fault(k, pid, j, i, id, frame)
  }

  /** The page is mapped writable, taking a copy-on-write fault if it is not. */
  function Own(k: Kernel, pid: nat, j: nat, i: nat, id: nat, frame: nat): (r: Kernel)
    requires CanUse(k, pid, j, i) && (j, i) in k.procs[pid].ptes
    ensures HasRegion(r, pid, j) && r.procs[pid].regions == k.procs[pid].regions && (j, i) in r.procs[pid].ptes
  {
    if k.procs[pid].ptes[(j, i)].writable then k else CowFault(k, pid, j, i, id, frame)
  }

  lemma TouchRefines(k: Kernel, pid: nat, j: nat, i: nat, id: nat, frame: nat)
    requires Inv(k) && CanUse(k, pid, j, i) && Unused(k.mem, id, frame)
    ensures Inv(Touch(k, pid, j, i, id, frame)) && Abs(Touch(k, pid, j, i, id, frame)) == Abs(k)
    ensures CanUse(Touch(k, pid, j, i, id, frame), pid, j, i)
  {
    hide Inv, Fault, Abs, Conserved, Single;
    if (j, i) !in k.procs[pid].ptes { FaultRefines(k, pid, j, i, id, frame); }
    InvParts(Touch(k, pid, j, i, id, frame), pid, j);
  }

  lemma OwnRefines(k: Kernel, pid: nat, j: nat, i: nat, id: nat, frame: nat)
    requires Inv(k) && CanUse(k, pid, j, i) && (j, i) in k.procs[pid].ptes && Unused(k.mem, id, frame)
    requires k.procs[pid].regions[j].writable
    ensures Inv(Own(k, pid, j, i, id, frame)) && Abs(Own(k, pid, j, i, id, frame)) == Abs(k)
    ensures Own(k, pid, j, i, id, frame).procs[pid].ptes[(j, i)].writable
  {
    hide Inv, Abs, HandleCowFault;
    if !k.procs[pid].ptes[(j, i)].writable { CowFaultRefines(k, pid, j, i, id, frame); }
  }

  /** A mapped page's frame holds what the simple kernel says the process reads. */
  lemma MappedReads(k: Kernel, pid: nat, j: nat, i: nat)
    requires Inv(k) && pid in k.procs && (j, i) in k.procs[pid].ptes
    ensures EagerSlot(Abs(k), pid, j, i) && k.procs[pid].ptes[(j, i)].frame in k.mem.ram
    ensures k.mem.ram[k.procs[pid].ptes[(j, i)].frame] == EagerPage(Abs(k), pid, j, i)
  {
    hide Inv, Conserved;
    PteIsOk(k, pid, j, i);
    InvParts(k, pid, j);
    var g := k.procs[pid].regions[j];
    HeldIsRecorded(k.mem, g.obj, g.offset + i);
    assert Stores(k.mem)[g.obj][g.offset + i] == Content(k.mem, g.obj, g.offset + i);
  }

  // ---------------------------------------------------------------- runs

  /** What processes do. Numbers of new pages, frames and objects come from the allocators. */
  datatype Op =
    | Get(pid: nat, j: nat, i: nat, id: nat, frame: nat)
    | Put(pid: nat, j: nat, i: nat, at: nat, b: byte, id: nat, frame: nat, id2: nat, frame2: nat)
    | MapIn(pid: nat, j: nat, i: nat)
    | Mmap(pid: nat, obj: nat, pages: nat, writable: bool, shared: bool)
    | Brk(pid: nat, j: nat, n: nat)
    | Spawn(pid: nat, child: nat, objs: seq<nat>)
    | Quit(pid: nat)

  /** What the process may ask for and the allocators guarantee. */
  ghost predicate Enabled(k: Kernel, op: Op) {
    match op
    case Get(pid, j, i, id, frame) => CanUse(k, pid, j, i) && Unused(k.mem, id, frame)
    case Put(pid, j, i, at, b, id, frame, id2, frame2) =>
      && CanUse(k, pid, j, i) && k.procs[pid].regions[j].writable && at < PAGE_SIZE
      && Unused(k.mem, id, frame) && Unused(Touch(k, pid, j, i, id, frame).mem, id2, frame2)
    case MapIn(pid, j, i) => CanUse(k, pid, j, i)
    case Mmap(pid, obj, pages, writable, shared) => pid in k.procs && obj !in k.mem.objects
    case Brk(pid, j, n) => HasRegion(k, pid, j) && RegionOk(k, pid, j)
    case Spawn(pid, child, objs) =>
      pid in k.procs && child !in k.procs && |objs| == |k.procs[pid].regions| && NewObjects(k, objs, 0)
    case Quit(pid) => pid in k.procs
  }

  /** A write with the faults it takes: at most one for the mapping and one for the copy. */
  function PutByte(k: Kernel, pid: nat, j: nat, i: nat, at: nat, b: byte, id: nat, frame: nat, id2: nat,
          frame2: nat): (r: Kernel)
    requires CanUse(k, pid, j, i) && at < PAGE_SIZE
  {
    var k1 := Touch(k, pid, j, i, id, frame);
    if CanUse(k1, pid, j, i) then Poke(Own(k1, pid, j, i, id2, frame2), pid, j, i, at, b) else k1
  }

  function Next(k: Kernel, op: Op): (r: Kernel)
    requires Enabled(k, op)
  {
    match op
    case Get(pid, j, i, id, frame) => Touch(k, pid, j, i, id, frame)
    case Put(pid, j, i, at, b, id, frame, id2, frame2) => PutByte(k, pid, j, i, at, b, id, frame, id2, frame2)
    case MapIn(pid, j, i) => MapPage(k, pid, j, i)
    case Mmap(pid, obj, pages, writable, shared) => MapAnon(k, pid, obj, pages, writable, shared)
    case Brk(pid, j, n) => Grow(k, pid, j, n)
    case Spawn(pid, child, objs) => Fork(k, pid, child, objs)
    case Quit(pid) => Exit(k, pid)
  }

  /** The same on stores: reading and mapping do nothing, fork copies. */
  ghost function EagerNext(e: Eager, op: Op): (r: Eager) {
    match op
    case Get(pid, j, i, id, frame) => e
    case Put(pid, j, i, at, b, id, frame, id2, frame2) =>
      if at < PAGE_SIZE && EagerSlot(e, pid, j, i) then EagerPoke(e, pid, j, i, at, b) else e
    case MapIn(pid, j, i) => e
    case Mmap(pid, obj, pages, writable, shared) =>
      if pid in e.procs then EagerMap(e, pid, obj, pages, writable, shared) else e
    case Brk(pid, j, n) =>
      if pid in e.procs && j < |e.procs[pid]| && e.procs[pid][j].obj in e.stores then EagerGrow(e, pid, j, n) else e
    case Spawn(pid, child, objs) => EagerFork(e, pid, child, objs)
    case Quit(pid) => EagerExit(e, pid)
  }

  lemma PutRefines(k: Kernel, op: Op)
    requires Inv(k) && Enabled(k, op) && op.Put?
    ensures Inv(Next(k, op)) && EagerSlot(Abs(k), op.pid, op.j, op.i)
    ensures Abs(Next(k, op)) == EagerPoke(Abs(k), op.pid, op.j, op.i, op.at, op.b)
  {
    hide Inv, Abs, Touch, Own, Poke;
    var k1 := Touch(k, op.pid, op.j, op.i, op.id, op.frame);
    TouchRefines(k, op.pid, op.j, op.i, op.id, op.frame);
    OwnRefines(k1, op.pid, op.j, op.i, op.id2, op.frame2);
    PokeRefines(Own(k1, op.pid, op.j, op.i, op.id2, op.frame2), op.pid, op.j, op.i, op.at, op.b);
  }

  lemma StepRefines(k: Kernel, op: Op)
    requires Inv(k) && Enabled(k, op)
    ensures Inv(Next(k, op)) && Abs(Next(k, op)) == EagerNext(Abs(k), op)
  {
    hide Inv;
    match op
    case Get(pid, j, i, id, frame) => hide Abs; TouchRefines(k, pid, j, i, id, frame);
    case Put(pid, j, i, at, b, id, frame, id2, frame2) => hide Abs, EagerPoke, EagerSlot; PutRefines(k, op);
    case MapIn(pid, j, i) => hide Abs; MapPageRefines(k, pid, j, i);
    case Mmap(pid, obj, pages, writable, shared) =>
      hide MapAnon, EagerMap;
      MapAnonRefines(k, pid, obj, pages, writable, shared);
    case Brk(pid, j, n) => hide Grow, EagerGrow; GrowRefines(k, pid, j, n);
    case Spawn(pid, child, objs) => hide Abs, Fork, EagerFork; ForkRefines(k, pid, child, objs);
    case Quit(pid) => hide Abs, Exit, EagerExit; ExitRefines(k, pid);
  }

  ghost predicate Possible(k: Kernel, ops: seq<Op>)
    decreases |ops|
  {
    ops == [] || (Enabled(k, ops[0]) && Possible(Next(k, ops[0]), ops[1..]))
  }

  function Run(k: Kernel, ops: seq<Op>): (r: Kernel)
    requires Possible(k, ops)
    decreases |ops|
  {
    if ops == [] then k else Run(Next(k, ops[0]), ops[1..])
  }

  ghost function EagerRun(e: Eager, ops: seq<Op>): (r: Eager)
    decreases |ops|
  {
    if ops == [] then e else EagerRun(EagerNext(e, ops[0]), ops[1..])
  }

  /** Every run keeps the invariant and looks like the run of the simple kernel. */
  lemma {:induction false} RunRefines(k: Kernel, ops: seq<Op>)
    requires Inv(k) && Possible(k, ops)
    ensures Inv(Run(k, ops)) && Abs(Run(k, ops)) == EagerRun(Abs(k), ops)
    decreases |ops|
  {
    hide Inv, Abs, Next, EagerNext, Enabled;
    if ops != [] {
      StepRefines(k, ops[0]);
      RunRefines(Next(k, ops[0]), ops[1..]);
    }
  }

  /** One process without memory. */
  function Boot(): (r: Kernel) { Kernel(Mem(map[], map[], map[]), map[0 := Process([], map[])]) }

  lemma BootInv()
    ensures Inv(Boot())
  {
    assert forall q: nat, b: nat :: !HasRegion(Boot(), q, b);
  }

  /** After any run, what a process finds in the frame it is given is what the simple kernel says it reads. */
  lemma RunReads(ops: seq<Op>, pid: nat, j: nat, i: nat, id: nat, frame: nat)
    requires Possible(Boot(), ops)
    requires CanUse(Run(Boot(), ops), pid, j, i) && Unused(Run(Boot(), ops).mem, id, frame)
    ensures var k, e := Touch(Run(Boot(), ops), pid, j, i, id, frame), EagerRun(Abs(Boot()), ops);
            && EagerSlot(e, pid, j, i) && k.procs[pid].ptes[(j, i)].frame in k.mem.ram
            && k.mem.ram[k.procs[pid].ptes[(j, i)].frame] == EagerPage(e, pid, j, i)
  {
    BootInv();
    hide Inv, Abs, Run, EagerRun, Boot, Touch, EagerPage, EagerSlot;
    RunRefines(Boot(), ops);
    TouchRefines(Run(Boot(), ops), pid, j, i, id, frame);
    MappedReads(Touch(Run(Boot(), ops), pid, j, i, id, frame), pid, j, i);
  }

  // ---------------------------------------------------------------- what fork gives, and isolation

  ghost predicate EagerOk(e: Eager, pid: nat) {
    && pid in e.procs
    && forall j :: 0 <= j < |e.procs[pid]| ==>
         && e.procs[pid][j].obj in e.stores
         && e.procs[pid][j].offset + e.procs[pid][j].pages <= |e.stores[e.procs[pid][j].obj]|
  }

  /** The child's region j reads like the parent's did; one that is writable and not shared has a store of its own,
      all others keep the parent's. */
  ghost predicate Inherits(e: Eager, e': Eager, pid: nat, child: nat, objs: seq<nat>, j: nat)
    requires EagerOk(e, pid) && child in e'.procs && j < |e.procs[pid]| && j < |e'.procs[child]| && j < |objs|
  {
    var g, c := e.procs[pid][j], e'.procs[child][j];
    && c == (if g.writable && !g.shared then g.(obj := objs[j], offset := 0) else g)
    && c.obj in e'.stores && c.offset + c.pages <= |e'.stores[c.obj]|
    && e'.stores[c.obj][c.offset..c.offset + c.pages] == e.stores[g.obj][g.offset..g.offset + g.pages]
    && (g.writable && !g.shared ==> |e'.stores[c.obj]| == g.pages)
  }

  ghost predicate Forked(e: Eager, e': Eager, pid: nat, child: nat, objs: seq<nat>, n: nat) {
    && EagerOk(e, pid) && child !in e.procs && n <= |e.procs[pid]| == |objs|
    && e'.procs.Keys == e.procs.Keys + {child} && |e'.procs[child]| == n
    && (forall q :: q in e.procs ==> e'.procs[q] == e.procs[q])
    && (forall o :: o in e.stores ==> o in e'.stores && e'.stores[o] == e.stores[o])
    && (forall o :: o in e'.stores && o !in e.stores ==> o in objs[..n])
    && (forall j :: 0 <= j < n ==> Inherits(e, e', pid, child, objs, j))
  }

  lemma ForkedStep(e: Eager, e': Eager, pid: nat, child: nat, objs: seq<nat>, n: nat)
    requires Forked(e, e', pid, child, objs, n) && n < |objs|
    requires forall i :: 0 <= i < |objs| ==> objs[i] !in e.stores
    requires forall i, i' :: 0 <= i < i' < |objs| ==> objs[i] != objs[i']
    ensures EagerCanFork(e', pid, child, n)
    ensures Forked(e, EagerForkRegion(e', pid, child, n, objs[n]), pid, child, objs, n + 1)
  {
    var e2 := EagerForkRegion(e', pid, child, n, objs[n]);
    assert objs[n] !in e'.stores;
    assert objs[..n + 1] == objs[..n] + [objs[n]];
    forall j | 0 <= j < n ensures Inherits(e, e2, pid, child, objs, j) {
      assert Inherits(e, e', pid, child, objs, j);
      assert e2.procs[child][j] == e'.procs[child][j];
    }
    hide Forked;
    assert Inherits(e, e2, pid, child, objs, n);
  }

  lemma {:induction false} ForkRegionsGive(e: Eager, e': Eager, pid: nat, child: nat, objs: seq<nat>, n: nat)
    requires Forked(e, e', pid, child, objs, n)
    requires forall i :: 0 <= i < |objs| ==> objs[i] !in e.stores
    requires forall i, i' :: 0 <= i < i' < |objs| ==> objs[i] != objs[i']
    ensures Forked(e, EagerForkRegions(e', pid, child, objs, n), pid, child, objs, |objs|)
    decreases |objs| - n
  {
    if n < |objs| {
      ForkedStep(e, e', pid, child, objs, n);
      hide Forked, EagerForkRegion;
      ForkRegionsGive(e, EagerForkRegion(e', pid, child, n, objs[n]), pid, child, objs, n + 1);
    }
  }

  lemma RegionsEager(k: Kernel, pid: nat)
    requires Inv(k) && pid in k.procs
    ensures EagerOk(Abs(k), pid)
  {
    hide Inv, Conserved, Single;
    var e := Abs(k);
    forall j | 0 <= j < |e.procs[pid]|
      ensures e.procs[pid][j].obj in e.stores
      ensures e.procs[pid][j].offset + e.procs[pid][j].pages <= |e.stores[e.procs[pid][j].obj]|
    {
      InvParts(k, pid, j);
    }
  }

  /** Fork gives the child the parent's regions with the parent's contents and changes nobody else's. */
  lemma ForkGives(k: Kernel, pid: nat, child: nat, objs: seq<nat>)
    requires Inv(k) && Enabled(k, Spawn(pid, child, objs))
    ensures Forked(Abs(k), Abs(Next(k, Spawn(pid, child, objs))), pid, child, objs, |objs|)
  {
    var e := Abs(k);
    var e1 := e.(procs := e.procs[child := []]);
    assert (forall i :: 0 <= i < |objs| ==> objs[i] !in e.stores)
        && (forall i, i' :: 0 <= i < i' < |objs| ==> objs[i] != objs[i']) by {
      hide Inv;
    }
    hide Inv, Next, EagerForkRegions, Inherits, EagerOk;
    RegionsEager(k, pid);
    assert Forked(e, e1, pid, child, objs, 0) && child !in e.procs;
    hide Forked, Abs;
    ForkRegionsGive(e, e1, pid, child, objs, 0);
    StepRefines(k, Spawn(pid, child, objs));
  }

  /** Process pid's region j still exists and page i in it reads the same. */
  ghost predicate Undisturbed(e: Eager, e': Eager, pid: nat, j: nat, i: nat) {
    && EagerSlot(e, pid, j, i) && EagerSlot(e', pid, j, i)
    && e'.procs[pid][j] == e.procs[pid][j] && EagerPage(e', pid, j, i) == EagerPage(e, pid, j, i)
  }

  lemma OtherObject(k: Kernel, pid: nat, j: nat, q: nat, b: nat)
    requires Inv(k) && HasRegion(k, pid, j) && Private(k.procs[pid].regions[j]) && HasRegion(k, q, b) && q != pid
    ensures k.procs[q].regions[b].obj != k.procs[pid].regions[j].obj
  {
    hide Inv;
    if k.procs[q].regions[b].obj == k.procs[pid].regions[j].obj { SoleUser(k, pid, j, q, b); }
  }

  lemma EagerStepIsolated(e: Eager, op: Op, pid: nat, j: nat, i: nat)
    requires EagerSlot(e, pid, j, i) && op.pid != pid && !op.Spawn?
    requires op.Put? || op.Brk? ==>
               op.pid in e.procs && op.j < |e.procs[op.pid]| && e.procs[op.pid][op.j].obj != e.procs[pid][j].obj
    requires op.Mmap? ==> op.obj !in e.stores
    ensures Undisturbed(e, EagerNext(e, op), pid, j, i)
  {
    if op.Quit? { assert (e.procs - {op.pid})[pid][j].obj == e.procs[pid][j].obj; }
  }

  lemma ForkIsolated(e: Eager, e': Eager, q: nat, child: nat, objs: seq<nat>, pid: nat, j: nat, i: nat)
    requires Forked(e, e', q, child, objs, |objs|) && EagerSlot(e, pid, j, i)
    ensures Undisturbed(e, e', pid, j, i)
  {
    hide Inherits, EagerOk;
  }

  lemma UsableEager(k: Kernel, pid: nat, j: nat, i: nat)
    requires CanUse(k, pid, j, i)
    ensures EagerSlot(Abs(k), pid, j, i) && Undisturbed(Abs(k), Abs(k), pid, j, i)
  {
  }

  lemma OthersApart(k: Kernel, op: Op, pid: nat, j: nat)
    requires Inv(k) && Enabled(k, op) && op.pid != pid && HasRegion(k, pid, j) && Private(k.procs[pid].regions[j])
    ensures var e := Abs(k);
            && pid in e.procs && j < |e.procs[pid]|
            && (op.Put? || op.Brk? ==>
                  && op.pid in e.procs && op.j < |e.procs[op.pid]|
                  && e.procs[op.pid][op.j].obj != e.procs[pid][j].obj)
            && (op.Mmap? ==> op.obj !in e.stores)
  {
    hide Inv, Touch;
    if op.Put? || op.Brk? { OtherObject(k, pid, j, op.pid, op.j); }
  }

  /** Nothing another process does shows in a private region. */
  lemma StepIsolated(k: Kernel, op: Op, pid: nat, j: nat, i: nat)
    requires Inv(k) && Enabled(k, op) && op.pid != pid && CanUse(k, pid, j, i) && Private(k.procs[pid].regions[j])
    ensures Undisturbed(Abs(k), Abs(Next(k, op)), pid, j, i)
  {
    hide Inv, Next, EagerNext, Abs, Undisturbed, EagerSlot, Forked, RegionOk, Enabled;
    UsableEager(k, pid, j, i);
    OthersApart(k, op, pid, j);
    if op.Spawn? {
      ForkGives(k, op.pid, op.child, op.objs);
      ForkIsolated(Abs(k), Abs(Next(k, op)), op.pid, op.child, op.objs, pid, j, i);
    } else {
      EagerStepIsolated(Abs(k), op, pid, j, i);
      StepRefines(k, op);
    }
  }

  ghost predicate ByOthers(ops: seq<Op>, pid: nat) { forall n :: 0 <= n < |ops| ==> ops[n].pid != pid }

  lemma UndisturbedTwice(e: Eager, e1: Eager, e2: Eager, pid: nat, j: nat, i: nat)
    requires Undisturbed(e, e1, pid, j, i) && Undisturbed(e1, e2, pid, j, i)
    ensures Undisturbed(e, e2, pid, j, i)
  {
  }

  lemma StillUsable(k: Kernel, k': Kernel, pid: nat, j: nat, i: nat)
    requires Inv(k') && CanUse(k, pid, j, i) && Undisturbed(Abs(k), Abs(k'), pid, j, i)
    ensures CanUse(k', pid, j, i) && k'.procs[pid].regions[j] == k.procs[pid].regions[j]
  {
    hide Inv, Conserved, Single, EagerPage;
    assert HasRegion(k', pid, j);
    InvParts(k', pid, j);
  }

  /** However long the other processes run, fork, write and exit, a page of a region that is writable and not shared
      reads the same. */
  lemma {:induction false} RunIsolated(k: Kernel, ops: seq<Op>, pid: nat, j: nat, i: nat)
    requires Inv(k) && Possible(k, ops) && ByOthers(ops, pid) && CanUse(k, pid, j, i)
    requires k.procs[pid].regions[j].writable && !k.procs[pid].regions[j].shared
    ensures Undisturbed(Abs(k), Abs(Run(k, ops)), pid, j, i)
    decreases |ops|
  {
    hide Inv, Abs, Next, Enabled, Undisturbed, RegionOk;
    if ops == [] {
      UsableEager(k, pid, j, i);
    } else {
      var k' := Next(k, ops[0]);
      StepIsolated(k, ops[0], pid, j, i);
      StepRefines(k, ops[0]);
      StillUsable(k, k', pid, j, i);
      RunIsolated(k', ops[1..], pid, j, i);
      UndisturbedTwice(Abs(k), Abs(k'), Abs(Run(k', ops[1..])), pid, j, i);
    }
  }

  lemma EveryPageHeld(m: Mem)
    requires Conserved(m)
    ensures forall p :: p in m.pages ==> Holders(m.objects, p) != {}
  {
    forall p | p in m.pages ensures Holders(m.objects, p) != {} { assert CountExact(m, p); }
  }

  /** When every process has gone nothing is left allocated. */
  lemma NothingLeaks(k: Kernel)
    requires Inv(k) && k.procs == map[]
    ensures k.mem == Mem(map[], map[], map[])
  {
    forall o ensures o !in k.mem.objects { ObjectsUsed(k, o); }
    assert k.mem.objects == map[];
    assert k.mem.pages == map[] by {
      assert forall p :: Holders(k.mem.objects, p) == {};
      EveryPageHeld(k.mem);
    }
    assert k.mem.ram == map[] by { assert forall f :: f in k.mem.ram ==> IsFrame(k.mem, f); }
  }

  // ---------------------------------------------------------------- growth

  /** A private region ends where its store does. */
  ghost predicate Full(e: Eager, g: Region) {
    Private(g) ==> g.obj in e.stores && g.offset + g.pages == |e.stores[g.obj]|
  }

  ghost predicate AllFull(e: Eager) {
    forall q: nat, b: nat :: q in e.procs && b < |e.procs[q]| ==> Full(e, e.procs[q][b])
  }

  lemma GrowFull(k: Kernel, pid: nat, j: nat, n: nat)
    requires Inv(k) && HasRegion(k, pid, j) && Abs(k).procs[pid][j].obj in Abs(k).stores && AllFull(Abs(k))
    ensures AllFull(EagerGrow(Abs(k), pid, j, n))
  {
    hide Inv;
    var e, e' := Abs(k), EagerGrow(Abs(k), pid, j, n);
    forall q: nat, b: nat | q in e'.procs && b < |e'.procs[q]| ensures Full(e', e'.procs[q][b]) {
      assert Full(e, e.procs[q][b]);
      if Private(e.procs[q][b]) && e.procs[q][b].obj == e.procs[pid][j].obj { SoleUser(k, q, b, pid, j); }
    }
  }

  lemma ForkFull(e: Eager, e': Eager, pid: nat, child: nat, objs: seq<nat>)
    requires AllFull(e) && Forked(e, e', pid, child, objs, |objs|)
    ensures AllFull(e')
  {
    forall q: nat, b: nat | q in e'.procs && b < |e'.procs[q]| ensures Full(e', e'.procs[q][b]) {
      if q == child { assert Inherits(e, e', pid, child, objs, b); } else { assert Full(e, e.procs[q][b]); }
    }
  }

  lemma ExitFull(e: Eager, pid: nat)
    requires AllFull(e)
    ensures AllFull(EagerExit(e, pid))
  {
    var e' := EagerExit(e, pid);
    forall q: nat, b: nat | q in e'.procs && b < |e'.procs[q]| ensures Full(e', e'.procs[q][b]) {
      assert Full(e, e.procs[q][b]);
      assert Used(e'.procs, e'.procs[q][b].obj);
    }
  }

  lemma PlainFull(e: Eager, op: Op)
    requires AllFull(e) && (op.Get? || op.Put? || op.MapIn? || op.Mmap?) && (op.Mmap? ==> op.obj !in e.stores)
    ensures AllFull(EagerNext(e, op))
  {
    var e' := EagerNext(e, op);
    forall q: nat, b: nat | q in e'.procs && b < |e'.procs[q]| ensures Full(e', e'.procs[q][b]) {
      if b < |e.procs[q]| { assert Full(e, e.procs[q][b]); }
    }
  }

  lemma StepFull(k: Kernel, op: Op)
    requires Inv(k) && Enabled(k, op) && AllFull(Abs(k))
    ensures AllFull(Abs(Next(k, op)))
  {
    hide Inv, Next, AllFull;
    StepRefines(k, op);
    match op
    case Brk(pid, j, n) => GrowFull(k, pid, j, n);
    case Spawn(pid, child, objs) =>
      hide Abs, Forked;
      ForkGives(k, pid, child, objs);
      ForkFull(Abs(k), Abs(Next(k, op)), pid, child, objs);
    case Quit(pid) => hide Abs; ExitFull(Abs(k), pid);
    case _ => PlainFull(Abs(k), op);
  }

  lemma {:induction false} RunFull(k: Kernel, ops: seq<Op>)
    requires Inv(k) && Possible(k, ops) && AllFull(Abs(k))
    ensures AllFull(Abs(Run(k, ops)))
    decreases |ops|
  {
    hide Inv, Abs, Next, Enabled, AllFull;
    if ops != [] {
      StepRefines(k, ops[0]);
      StepFull(k, ops[0]);
      RunFull(Next(k, ops[0]), ops[1..]);
    }
  }

  lemma EagerGrown(e: Eager, pid: nat, j: nat, n: nat, i: nat)
    requires pid in e.procs && j < |e.procs[pid]| && Private(e.procs[pid][j]) && Full(e, e.procs[pid][j])
    requires i < e.procs[pid][j].pages + n
    ensures var e', pages := EagerGrow(e, pid, j, n), e.procs[pid][j].pages;
            && EagerSlot(e', pid, j, i) && (i < pages ==> EagerSlot(e, pid, j, i))
            && EagerPage(e', pid, j, i) == if i < pages then EagerPage(e, pid, j, i) else ZeroPage()
  {
  }

  lemma AbsRegion(k: Kernel, pid: nat, j: nat)
    requires HasRegion(k, pid, j)
    ensures pid in Abs(k).procs && j < |Abs(k).procs[pid]| && Abs(k).procs[pid][j] == k.procs[pid].regions[j]
  {
  }

  /** In every run from boot, the pages by which a private region grows read as zero, and its other pages as they
      did. */
  lemma GrownReadsZero(ops: seq<Op>, pid: nat, j: nat, n: nat, i: nat)
    requires Possible(Boot(), ops) && HasRegion(Run(Boot(), ops), pid, j) && RegionOk(Run(Boot(), ops), pid, j)
    requires var g := Run(Boot(), ops).procs[pid].regions[j]; g.writable && !g.shared && i < g.pages + n
    ensures var k := Run(Boot(), ops);
            var e, e', pages := Abs(k), Abs(Grow(k, pid, j, n)), k.procs[pid].regions[j].pages;
            && EagerSlot(e', pid, j, i) && (i < pages ==> EagerSlot(e, pid, j, i))
            && EagerPage(e', pid, j, i) == if i < pages then EagerPage(e, pid, j, i) else ZeroPage()
  {
    hide Inv, Run, Boot, Possible, Grow, Abs, Full, EagerGrow, EagerSlot, EagerPage;
    BootInv();
    BootFull();
    RunRefines(Boot(), ops);
    RunFull(Boot(), ops);
    var k := Run(Boot(), ops);
    AbsRegion(k, pid, j);
    GrowRefines(k, pid, j, n);
    assert Full(Abs(k), Abs(k).procs[pid][j]);
    EagerGrown(Abs(k), pid, j, n, i);
  }

  lemma BootFull()
    ensures AllFull(Abs(Boot()))
  {
  }
}
