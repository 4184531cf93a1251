/** The memory manager as the kernel runs it: records updated in place, loops over slots and regions. Every
    method is proved to do what the functions on values do. */
module Machine {
  import opened Common
  import opened PhysicalPages
  import opened CopyOnWrite
  import opened ForkRefinement
  import opened ProcessIsolation

  lemma CloneNone(m: Mem, src: nat, start: nat, dst: nat)
    requires src in m.objects && src != dst && start <= |m.objects[src].slots|
    ensures Clone(m, src, start, 0, dst) == m.(objects := m.objects[dst := Object(1, [])])
  {
  }

  /** One more slot: its page is counted once more. */
  lemma CloneOne(m: Mem, src: nat, start: nat, n: nat, dst: nat, c: Mem, data: seq<Option<nat>>)
    requires src in m.objects && src != dst && start + n < |m.objects[src].slots|
    requires c.objects == m.objects && Clone(m, src, start, n, dst) == c.(objects := m.objects[dst := Object(1, data)])
    ensures var v := m.objects[src].slots[start + n];
            Clone(m, src, start, n + 1, dst)
            == (if v.Some? then Bump(c, v.value) else c).(objects := m.objects[dst := Object(1, data + [v])])
  {
    hide Bump;
    var v, a := m.objects[src].slots[start + n], c.(objects := m.objects[dst := Object(1, data)]);
    assert Clone(m, src, start, n + 1, dst) == Share(a, dst, v);
    BumpObjects(c, m.objects[dst := Object(1, data + [v])], if v.Some? then v.value else 0);
    assert m.objects[dst := Object(1, data)][dst := Object(1, data + [v])] == m.objects[dst := Object(1, data + [v])];
  }

  lemma BumpObjects(m: Mem, objects: map<nat, Object>, p: nat)
    ensures Bump(m.(objects := objects), p) == Bump(m, p).(objects := objects)
  {
  }

  lemma DropObjects(m: Mem, objects: map<nat, Object>, p: nat)
    ensures Drop(m.(objects := objects), p) == Drop(m, p).(objects := objects) && Drop(m, p).objects == m.objects
  {
  }

  /** The first n slots emptied, the others as they were. */
  function Emptied(slots: seq<Option<nat>>, n: nat): (r: seq<Option<nat>>)
    requires n <= |slots|
  {
    seq(n, _ => None) + slots[n..]
  }

  /** One more slot given up: its page is dropped. */
  lemma KillOne(m: Mem, o: nat, n: nat, c: Mem)
    requires o in m.objects && n < |m.objects[o].slots| && c.objects == m.objects
    requires KillSlots(m, o, n) == c.(objects := m.objects[o := m.objects[o].(slots := Emptied(m.objects[o].slots, n))])
    ensures var v := m.objects[o].slots[n];
            KillSlots(m, o, n + 1) == (if v.Some? then Drop(c, v.value) else c)
              .(objects := m.objects[o := m.objects[o].(slots := Emptied(m.objects[o].slots, n + 1))])
  {
    hide Drop;
    var v, slots := m.objects[o].slots[n], m.objects[o].slots;
    var k, objects := KillSlots(m, o, n), m.objects[o := m.objects[o].(slots := Emptied(slots, n + 1))];
    assert Emptied(slots, n)[n] == v && Emptied(slots, n)[n := None] == Emptied(slots, n + 1);
    assert KillSlots(m, o, n + 1) == Release(k, o, n);
    assert k.objects[o := k.objects[o].(slots := Emptied(slots, n + 1))] == objects;
    if v.Some? { DropObjects(c, objects, v.value); } else { assert Emptied(slots, n + 1) == Emptied(slots, n); }
  }

  /** Dropping the old page last gives the same memory as giving it up first. */
  lemma CopiedPage(m: Mem, o: nat, i: nat, id: nat, frame: nat, p: nat)
    requires Held(m, o, i, p) && p in m.pages && 1 < m.pages[p].count && m.pages[p].frame in m.ram
    requires Unused(m, id, frame)
    ensures Fill(Release(m, o, i), o, i, id, frame, m.ram[m.pages[p].frame])
            == Drop(Mem(m.ram[frame := m.ram[m.pages[p].frame]], m.pages[id := PhysPage(frame, 1)],
                        m.objects[o := m.objects[o].(slots := m.objects[o].slots[i := Some(id)])]), p)
  {
    var c, slots := m.pages[p].(count := m.pages[p].count - 1), m.objects[o].slots;
    assert m.pages[p := c][id := PhysPage(frame, 1)] == m.pages[id := PhysPage(frame, 1)][p := c];
    assert slots[i := None][i := Some(id)] == slots[i := Some(id)];
    var none, some := m.objects[o].(slots := slots[i := None]), m.objects[o].(slots := slots[i := Some(id)]);
    assert m.objects[o := none][o := some] == m.objects[o := some];
  }

  class Memory {
    var ram: map<nat, Page>
    var pages: map<nat, PhysPage>
    var objects: map<nat, Object>

    constructor ()
      ensures View() == Mem(map[], map[], map[])
    {
      ram, pages, objects := map[], map[], map[];
    }

    ghost function View(): (r: Mem)
      reads this
    {
      Mem(ram, pages, objects)
    }

    method BumpPage(p: nat)
      modifies this`pages
      ensures View() == Bump(old(View()), p)
    {
      if p in pages { pages := pages[p := pages[p].(count := pages[p].count + 1)]; }
    }

    method DropPage(p: nat)
      modifies this`pages, this`ram
      ensures View() == Drop(old(View()), p)
    {
      if p in pages && pages[p].count > 0 {
        if pages[p].count == 1 {
          ram := ram - {pages[p].frame};
          pages := pages - {p};
        } else {
          pages := pages[p := pages[p].(count := pages[p].count - 1)];
        }
      }
    }

    /** A new object over the same pages as slots start..start+n of another. */
    method AnonClone(src: nat, start: nat, n: nat, dst: nat)
      requires src in objects && src != dst && start + n <= |objects[src].slots|
      modifies this`pages, this`objects
      ensures View() == Clone(old(View()), src, start, n, dst)
    {
      hide Bump, Clone;
      var data: seq<Option<nat>> := [];
      var i := start;
      ghost var m := View();
      CloneNone(m, src, start, dst);
      while i < start + n
        invariant start <= i <= start + n && ram == old(ram) && objects == m.objects
        invariant Clone(m, src, start, i - start, dst) == View().(objects := m.objects[dst := Object(1, data)])
      {
        var v := objects[src].slots[i];
        CloneOne(m, src, start, i - start, dst, View(), data);
        ghost var c := View();
        BumpObjects(c, c.objects, if v.Some? then v.value else 0);
        if v.Some? { BumpPage(v.value); }
        data := data + [v];
        i := i + 1;
      }
      objects := objects[dst := Object(1, data)];
    }

    /** Gives up every page of an object that nobody uses any more. */
    method AnonKill(o: nat)
      requires o in objects
      modifies this`pages, this`ram, this`objects
      ensures View() == (var m1 := KillSlots(old(View()), o, |old(objects[o].slots)|); m1.(objects := m1.objects - {o}))
    {
      hide Drop;
      ghost var m := View();
      var i := 0;
      assert Emptied(m.objects[o].slots, 0) == m.objects[o].slots;
      assert m.objects[o := m.objects[o].(slots := Emptied(m.objects[o].slots, 0))] == m.objects;
      while i < |objects[o].slots|
        invariant objects == m.objects && i <= |m.objects[o].slots|
        invariant KillSlots(m, o, i) ==
                  View().(objects := m.objects[o := m.objects[o].(slots := Emptied(m.objects[o].slots, i))])
      {
        var v := objects[o].slots[i];
        KillOne(m, o, i, View());
        ghost var c := View();
        DropObjects(c, c.objects, if v.Some? then v.value else 0);
        if v.Some? { DropPage(v.value); }
        i := i + 1;
      }
      objects := objects - {o};
    }

    /** One user less: page counts stay exact, and what any other object holds stays as it is. */
    method DropReference(o: nat)
      requires o in objects
      modifies this`pages, this`ram, this`objects
      ensures View() == DropObject(old(View()), o)
      ensures old(Conserved(View())) ==>
                && Conserved(View())
                && forall x, j :: HasSlot(old(View()), x, j) && (x != o || 1 < old(objects[o].count)) ==>
                     Spared(old(View()), View(), x, j)
    {
      hide Conserved, Spared;
      ghost var m := View();
      Unreference(o);
      if Conserved(m) { DropObjectConserves(m, o); }
    }

    method Unreference(o: nat)
      requires o in objects
      modifies this`pages, this`ram, this`objects
      ensures View() == DropObject(old(View()), o)
    {
      if objects[o].count <= 1 {
        AnonKill(o);
      } else {
        objects := objects[o := objects[o].(count := objects[o].count - 1)];
      }
    }

    /** A fault: the page in the slot, or a new one filled with zeroes. What any object reads stays the same. */
    method AnonFault(o: nat, i: nat, id: nat, frame: nat) returns (f: nat, cow: bool)
      requires o in objects && i < |objects[o].slots|
      modifies this`pages, this`ram, this`objects
      ensures (View(), f, cow) == HandleFault(old(View()), o, i, id, frame)
      ensures old(Conserved(View()) && Unused(View(), id, frame)) ==>
                Conserved(View()) && Stores(View()) == old(Stores(View()))
    {
      hide Conserved, Stores, Unused;
      ghost var m := View();
      if Conserved(m) && Unused(m, id, frame) { HandleFaultConserves(m, o, i, id, frame); }
      var v := objects[o].slots[i];
      if v.Some? {
        if v.value in pages {
          cow := pages[v.value].count > 1;
          f := pages[v.value].frame;
        } else {
          f, cow := 0, false;
        }
      } else {
        pages := pages[id := PhysPage(frame, 1)];
        objects := objects[o := objects[o].(slots := objects[o].slots[i := Some(id)])];
        ram := ram[frame := ZeroPage()];
        f, cow := frame, false;
      }
    }

    /** A write fault: a page nobody else holds is kept, another is copied into a new one first and dropped last. */
    method AnonCowFault(o: nat, i: nat, id: nat, frame: nat) returns (f: nat)
      requires Conserved(View()) && Unused(View(), id, frame)
      requires o in objects && i < |objects[o].slots| && objects[o].slots[i].Some?
      modifies this`pages, this`ram, this`objects
      ensures (View(), f) == HandleCowFault(old(View()), o, i, id, frame)
      ensures Conserved(View()) && Stores(View()) == old(Stores(View()))
    {
      ghost var m := View();
      f := CopyFault(o, i, id, frame);
      HandleCowFaultConserves(m, o, i, id, frame);
    }

    method CopyFault(o: nat, i: nat, id: nat, frame: nat) returns (f: nat)
      requires Conserved(View()) && Unused(View(), id, frame)
      requires o in objects && i < |objects[o].slots| && objects[o].slots[i].Some?
      modifies this`pages, this`ram, this`objects
      ensures (View(), f) == HandleCowFault(old(View()), o, i, id, frame)
    {
      ghost var m := View();
      HeldIsRecorded(m, o, i);
      hide Conserved, CountExact, Fill, Drop, Release;
      var p := objects[o].slots[i].value;
      f := pages[p].frame;
      if pages[p].count != 1 {
        pages := pages[id := PhysPage(frame, 1)];
        ram := ram[frame := ram[f]];
        objects := objects[o := objects[o].(slots := objects[o].slots[i := Some(id)])];
        DropPage(p);
        f := frame;
        CopiedPage(m, o, i, id, frame, p);
      }
    }

    /** More slots, which read as zero pages; nothing else changes. */
    method AnonExtend(o: nat, n: nat)
      requires o in objects
      modifies this`objects
      ensures View() == Extend(old(View()), o, n)
      ensures old(Conserved(View())) ==>
                && Conserved(View())
                && Stores(View()) == old(Stores(View()))[o := old(Stores(View())[o]) + seq(n, _ => ZeroPage())]
    {
      ghost var m := View();
      if Conserved(m) { ExtendConserves(m, o, n); }
      hide Conserved, Stores;
      objects := objects[o := objects[o].(slots := objects[o].slots + seq(n, _ => None))];
    }
  }

  /** Entries of region j below page n marked. */
  function MarkedBelow(ptes: map<(nat, nat), Pte>, j: nat, n: nat): (r: map<(nat, nat), Pte>) {
    map x | x in ptes :: if x.0 == j && x.1 < n then Pte(ptes[x].frame, false, true) else ptes[x]
  }

  lemma MarkOne(ptes: map<(nat, nat), Pte>, j: nat, n: nat)
    ensures var t := MarkedBelow(ptes, j, n);
            MarkedBelow(ptes, j, n + 1) == if (j, n) in t then t[(j, n) := Pte(t[(j, n)].frame, false, true)] else t
  {
  }

  /** Pages of a region mapped one by one. */
  function MapPages(k: Kernel, pid: nat, j: nat, n: nat): (r: Kernel)
    requires HasRegion(k, pid, j) && RegionOk(k, pid, j) && n <= k.procs[pid].regions[j].pages
    ensures r.mem == k.mem && r.procs.Keys == k.procs.Keys && r.procs[pid].regions == k.procs[pid].regions
  {
    if n == 0 then k else MapPage(MapPages(k, pid, j, n - 1), pid, j, n - 1)
  }

  /** Mapping a region keeps the invariant and changes nothing that can be read. */
  lemma {:induction false} MapPagesRefine(k: Kernel, pid: nat, j: nat, n: nat)
    requires Inv(k) && HasRegion(k, pid, j) && RegionOk(k, pid, j) && n <= k.procs[pid].regions[j].pages
    ensures Inv(MapPages(k, pid, j, n)) && Abs(MapPages(k, pid, j, n)) == Abs(k)
  {
    hide Inv, Abs, MapPage;
    if n > 0 {
      MapPagesRefine(k, pid, j, n - 1);
      MapPageRefines(MapPages(k, pid, j, n - 1), pid, j, n - 1);
    }
  }

  class Processes {
    const memory: Memory
    var procs: map<nat, Process>

    constructor (memory: Memory)
      ensures this.memory == memory && procs == map[]
    {
      this.memory := memory;
      procs := map[];
    }

    ghost function View(): (r: Kernel)
      reads this, memory
    {
      Kernel(memory.View(), procs)
    }

    method SetEntry(pid: nat, j: nat, i: nat, pte: Pte)
      requires pid in procs
      modifies this
      ensures View() == SetPte(old(View()), pid, j, i, pte)
    {
      var p := procs[pid];
      procs := procs[pid := p.(ptes := p.ptes[(j, i) := pte])];
    }

    /** A fault keeps the invariant and no process can tell. */
    method FaultInRegion(pid: nat, j: nat, i: nat, id: nat, frame: nat)
      requires CanUse(View(), pid, j, i)
      modifies this, memory
      ensures View() == Fault(old(View()), pid, j, i, id, frame)
      ensures old(Inv(View()) && Unused(memory.View(), id, frame)) ==> Inv(View()) && Abs(View()) == old(Abs(View()))
    {
      ghost var k := View();
      MapFault(pid, j, i, id, frame);
      hide Inv, Abs, Fault, Unused;
      if Inv(k) && Unused(k.mem, id, frame) { FaultRefines(k, pid, j, i, id, frame); }
    }

    method MapFault(pid: nat, j: nat, i: nat, id: nat, frame: nat)
      requires CanUse(View(), pid, j, i)
      modifies this, memory
      ensures View() == Fault(old(View()), pid, j, i, id, frame)
    {
      hide HandleFault, Conserved, Stores, Unused;
      var g := procs[pid].regions[j];
      var f, cow := memory.AnonFault(g.obj, g.offset + i, id, frame);
      if cow {
        SetEntry(pid, j, i, Pte(f, false, true));
      } else {
        SetEntry(pid, j, i, Pte(f, g.writable, false));
      }
    }

    /** A write fault on a writable region keeps the invariant and no process can tell. */
    method CowFaultInRegion(pid: nat, j: nat, i: nat, id: nat, frame: nat)
      requires Inv(View()) && CanUse(View(), pid, j, i) && (j, i) in procs[pid].ptes && Unused(memory.View(), id, frame)
      modifies this, memory
      ensures View() == CowFault(old(View()), pid, j, i, id, frame)
      ensures old(procs[pid].regions[j].writable) ==> Inv(View()) && Abs(View()) == old(Abs(View()))
    {
      ghost var k := View();
      MapCowFault(pid, j, i, id, frame);
      hide Inv, Abs, CowFault, Unused;
      if k.procs[pid].regions[j].writable { CowFaultRefines(k, pid, j, i, id, frame); }
    }

    method MapCowFault(pid: nat, j: nat, i: nat, id: nat, frame: nat)
      requires Inv(View()) && CanUse(View(), pid, j, i) && (j, i) in procs[pid].ptes && Unused(memory.View(), id, frame)
      modifies this, memory
      ensures View() == CowFault(old(View()), pid, j, i, id, frame)
    {
      PteIsOk(View(), pid, j, i);
      InvParts(View(), pid, j);
      hide HandleCowFault, Inv, Conserved, Single;
      var g := procs[pid].regions[j];
      var f := memory.CopyFault(g.obj, g.offset + i, id, frame);
      SetEntry(pid, j, i, Pte(f, g.writable, false));
    }

    /** Takes write permission away page by page. */
    method MarkRegion(pid: nat, j: nat)
      requires HasRegion(View(), pid, j)
      requires forall a: nat :: (j, a) in procs[pid].ptes ==> a < procs[pid].regions[j].pages
      modifies this
      ensures memory.View() == old(memory.View())
      ensures procs == old(procs)[pid := old(procs[pid]).(ptes := MarkCow(old(procs[pid].ptes), j))]
    {
      var ptes, i := procs[pid].ptes, 0;
      assert MarkedBelow(ptes, j, 0) == ptes;
      while i < procs[pid].regions[j].pages
        invariant procs == old(procs) && i <= procs[pid].regions[j].pages
        invariant ptes == MarkedBelow(old(procs[pid].ptes), j, i)
      {
        MarkOne(old(procs[pid].ptes), j, i);
        if (j, i) in ptes { ptes := ptes[(j, i) := Pte(ptes[(j, i)].frame, false, true)]; }
        i := i + 1;
      }
      assert ptes == MarkCow(old(procs[pid].ptes), j);
      procs := procs[pid := procs[pid].(ptes := ptes)];
    }

    /** Maps the pages an object already has. */
    method AnonMap(pid: nat, j: nat)
      requires HasRegion(View(), pid, j) && RegionOk(View(), pid, j)
      modifies this
      ensures View() == MapPages(old(View()), pid, j, old(procs[pid].regions[j].pages))
      ensures old(Inv(View())) ==> Inv(View()) && Abs(View()) == old(Abs(View()))
    {
      ghost var k := View();
      hide Inv, Abs;
      if Inv(k) { MapPagesRefine(k, pid, j, k.procs[pid].regions[j].pages); }
      var i, g := 0, procs[pid].regions[j];
      while i < g.pages
        invariant i <= g.pages && View() == MapPages(old(View()), pid, j, i)
      {
        var slot := memory.objects[g.obj].slots[g.offset + i];
        if slot.Some? && slot.value in memory.pages {
          var page := memory.pages[slot.value];
          SetEntry(pid, j, i, if page.count == 1 then Pte(page.frame, g.writable, false)
              else Pte(page.frame, false, true));
        }
        i := i + 1;
      }
    }

    /** The page of a write is mapped and owned, with the faults that takes; then the byte is written. The object
        does what the simple kernel's write does. */
    method WriteToRegion(pid: nat, j: nat, i: nat, at: nat, b: byte, id: nat, frame: nat, id2: nat, frame2: nat)
      requires Inv(View()) && Enabled(View(), Put(pid, j, i, at, b, id, frame, id2, frame2))
      modifies this, memory
      ensures View() == PutByte(old(View()), pid, j, i, at, b, id, frame, id2, frame2)
      ensures EagerSlot(old(Abs(View())), pid, j, i)
      ensures Inv(View()) && Abs(View()) == EagerPoke(old(Abs(View())), pid, j, i, at, b)
    {
      hide Inv, Abs, Fault, CowFault, Unused, EagerPoke, EagerSlot;
      ghost var k := View();
      PutRefines(k, Put(pid, j, i, at, b, id, frame, id2, frame2));
      TouchRefines(k, pid, j, i, id, frame);
      if (j, i) !in procs[pid].ptes { FaultInRegion(pid, j, i, id, frame); }
      assert View() == Touch(k, pid, j, i, id, frame);
      if !procs[pid].ptes[(j, i)].writable { CowFaultInRegion(pid, j, i, id2, frame2); }
      assert View() == Own(Touch(k, pid, j, i, id, frame), pid, j, i, id2, frame2);
      var f := procs[pid].ptes[(j, i)].frame;
      if f in memory.ram { memory.ram := memory.ram[f := WriteByte(memory.ram[f], at, b)]; }
    }

    /** One region of a fork: the object is shared, or cloned with the parent's pages made copy-on-write first. */
    method CloneRegion(pid: nat, child: nat, j: nat, obj: nat)
      requires Inv(View()) && CanFork(View(), pid, child, j, obj)
      modifies this, memory
      ensures View() == ForkRegion(old(View()), pid, child, j, obj)
      ensures EagerCanFork(old(Abs(View())), pid, child, j)
      ensures Inv(View()) && Abs(View()) == EagerForkRegion(old(Abs(View())), pid, child, j, obj)
    {
      ghost var k := View();
      ForkOne(pid, child, j, obj);
      hide Inv, ForkRegion, EagerForkRegion;
      ForkRegionRefines(k, pid, child, j, obj);
    }

    method ForkOne(pid: nat, child: nat, j: nat, obj: nat)
      requires Inv(View()) && CanFork(View(), pid, child, j, obj)
      modifies this, memory
      ensures View() == ForkRegion(old(View()), pid, child, j, obj)
    {
      ghost var k := View();
      EntriesInside(k, pid, j);
      hide Inv, Clone;
      var g := procs[pid].regions[j];
      if g.shared || !g.writable {
        memory.objects := memory.objects[g.obj := memory.objects[g.obj].(count := memory.objects[g.obj].count + 1)];
      } else {
        MarkRegion(pid, j);
        memory.AnonClone(g.obj, g.offset, g.pages, obj);
        g := g.(obj := obj, offset := 0);
      }
      procs := procs[child := procs[child].(regions := procs[child].regions + [g])];
    }

    /** Fork: every region of the parent in turn. */
    method CloneProcess(pid: nat, child: nat, objs: seq<nat>)
      requires Inv(View()) && pid in procs && child !in procs && |objs| == |procs[pid].regions|
      requires NewObjects(View(), objs, 0)
      modifies this, memory
      ensures View() == Fork(old(View()), pid, child, objs)
      ensures Inv(View()) && Abs(View()) == EagerFork(old(Abs(View())), pid, child, objs)
    {
      ghost var k := View();
      ForkRefines(k, pid, child, objs);
      SpawnInv(k, child);
      hide Inv, ForkRegion, Abs, EagerForkRegion;
      procs := procs[child := Process([], map[])];
      var j := 0;
      while j < |procs[pid].regions|
        invariant Inv(View()) && pid in procs && child in procs && pid != child
        invariant j <= |objs| == |procs[pid].regions| && NewObjects(View(), objs, j)
        invariant Fork(k, pid, child, objs) == ForkRegions(View(), pid, child, objs, j)
      {
        ForkStepKeeps(View(), pid, child, objs, j);
        CloneRegion(pid, child, j, objs[j]);
        j := j + 1;
      }
    }

    /** Exit: every region's mappings and reference go, then the process. */
    method FreeProcess(pid: nat)
      requires Inv(View()) && pid in procs
      modifies this, memory
      ensures View() == Exit(old(View()), pid)
      ensures Inv(View()) && Abs(View()) == EagerExit(old(Abs(View())), pid)
    {
      ghost var k := View();
      ExitRefines(k, pid);
      hide Inv, Abs, DropObject, EagerExit;
      while procs[pid].regions != []
        invariant pid in procs && DropRegions(k, pid) == DropRegions(View(), pid)
        decreases if pid in procs then |procs[pid].regions| else 0
      {
        var p := procs[pid];
        var n := |p.regions| - 1;
        if p.regions[n].obj in memory.objects { memory.DropReference(p.regions[n].obj); }
        procs := procs[pid := Process(p.regions[..n], map x | x in p.ptes && x.0 != n :: p.ptes[x])];
      }
      procs := procs - {pid};
    }
  }

  lemma EntriesInside(k: Kernel, pid: nat, j: nat)
    requires Inv(k) && HasRegion(k, pid, j)
    ensures forall a: nat :: (j, a) in k.procs[pid].ptes ==> a < k.procs[pid].regions[j].pages
  {
    forall a: nat | (j, a) in k.procs[pid].ptes ensures a < k.procs[pid].regions[j].pages {
      PteIsOk(k, pid, j, a);
    }
  }
}
