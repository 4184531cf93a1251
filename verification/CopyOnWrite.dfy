/** Processes over anonymous memory: fork shares pages and copies them on the first write
    (kernel/mem/vm_allocator.c, kernel/mem/vm_object.c, kernel/mem/anon_vm_object.c). It is proved to behave
    like a kernel that copies everything at fork. */
module CopyOnWrite {
  import opened Common
  import opened PhysicalPages

  /** A mapping of `pages` pages of an object from page `offset` on. Protections are fixed. */
  datatype Region = Region(obj: nat, offset: nat, pages: nat, writable: bool, shared: bool)

  datatype Pte = Pte(frame: nat, writable: bool, cow: bool)

  /** Page table entries are keyed by region and page within the region. */
  datatype Process = Process(regions: seq<Region>, ptes: map<(nat, nat), Pte>)

  datatype Kernel = Kernel(mem: Mem, procs: map<nat, Process>)

  /** Regions that fork must give a copy of. */
  predicate Private(r: Region) { r.writable && !r.shared }

  // ---------------------------------------------------------------- operations

  predicate HasRegion(k: Kernel, pid: nat, j: nat) { pid in k.procs && j < |k.procs[pid].regions| }

  predicate RegionOk(k: Kernel, pid: nat, j: nat)
    requires HasRegion(k, pid, j)
  {
    var r := k.procs[pid].regions[j];
    r.obj in k.mem.objects && r.offset + r.pages <= |k.mem.objects[r.obj].slots|
  }

  predicate CanUse(k: Kernel, pid: nat, j: nat, i: nat) {
    HasRegion(k, pid, j) && RegionOk(k, pid, j) && i < k.procs[pid].regions[j].pages
  }

  function SetPte(k: Kernel, pid: nat, j: nat, i: nat, pte: Pte): (r: Kernel)
    requires pid in k.procs
  {
    k.(procs := k.procs[pid := k.procs[pid].(ptes := k.procs[pid].ptes[(j, i) := pte])])
  }

  /** A page fault: the object supplies a frame; a page others hold is mapped without write permission. */
  function Fault(k: Kernel, pid: nat, j: nat, i: nat, id: nat, frame: nat): (r: Kernel)
    requires CanUse(k, pid, j, i)
  {
    var g := k.procs[pid].regions[j];
    var (m, f, cow) := HandleFault(k.mem, g.obj, g.offset + i, id, frame);
    SetPte(k.(mem := m), pid, j, i, if cow then Pte(f, false, true) else Pte(f, g.writable, false))
  }

  /** A write to a page mapped for copying on write. */
  function CowFault(k: Kernel, pid: nat, j: nat, i: nat, id: nat, frame: nat): (r: Kernel)
    requires CanUse(k, pid, j, i)
  {
    var g := k.procs[pid].regions[j];
    var (m, f) := HandleCowFault(k.mem, g.obj, g.offset + i, id, frame);
    SetPte(k.(mem := m), pid, j, i, Pte(f, g.writable, false))
  }

  function WriteByte(page: Page, at: nat, b: byte): (r: Page)
    requires at < PAGE_SIZE
  {
    page[at := b]
  }

  function PutPage(store: seq<Page>, i: nat, page: Page): (r: seq<Page>)
    requires i < |store|
    ensures |r| == |store| && r[i] == page && forall j :: 0 <= j < |r| && j != i ==> r[j] == store[j]
  {
    store[..i] + [page] + store[i + 1..]
  }

  /** The processor writes a byte through a writable mapping. */
  function Poke(k: Kernel, pid: nat, j: nat, i: nat, at: nat, b: byte): (r: Kernel)
    requires pid in k.procs && (j, i) in k.procs[pid].ptes && at < PAGE_SIZE
  {
    var f := k.procs[pid].ptes[(j, i)].frame;
    if f in k.mem.ram then k.(mem := k.mem.(ram := k.mem.ram[f := WriteByte(k.mem.ram[f], at, b)])) else k
  }

  function MapAnon(k: Kernel, pid: nat, obj: nat, pages: nat, writable: bool, shared: bool): (r: Kernel)
    requires pid in k.procs
  {
    var p := k.procs[pid];
    Kernel(NewObject(k.mem, obj, pages),
           k.procs[pid := p.(regions := p.regions + [Region(obj, 0, pages, writable, shared)])])
  }

  function Grow(k: Kernel, pid: nat, j: nat, n: nat): (r: Kernel)
    requires HasRegion(k, pid, j) && RegionOk(k, pid, j)
  {
    var p := k.procs[pid];
    var g := p.regions[j];
    Kernel(Extend(k.mem, g.obj, n), k.procs[pid := p.(regions := p.regions[j := g.(pages := g.pages + n)])])
  }

  /** Takes write permission away from the mapped pages of a region. */
  function MarkCow(ptes: map<(nat, nat), Pte>, j: nat): (r: map<(nat, nat), Pte>) {
    map x | x in ptes :: if x.0 == j then Pte(ptes[x].frame, false, true) else ptes[x]
  }

  /** Fork of one region: shared and read-only regions keep the object, others get a clone of their part. */
  function ForkRegion(k: Kernel, pid: nat, child: nat, j: nat, obj: nat): (r: Kernel)
    requires HasRegion(k, pid, j) && RegionOk(k, pid, j) && child in k.procs && child != pid && obj !in k.mem.objects
  {
    var p, c := k.procs[pid], k.procs[child];
    var g := p.regions[j];
    if Private(g) then
      Kernel(Clone(k.mem, g.obj, g.offset, g.pages, obj),
             k.procs[pid := p.(ptes := MarkCow(p.ptes, j))]
                    [child := c.(regions := c.regions + [g.(obj := obj, offset := 0)])])
    else
      Kernel(BumpObject(k.mem, g.obj), k.procs[child := c.(regions := c.regions + [g])])
  }

  /** The entry for a page, if the region's object has it already. */
  function MapPage(k: Kernel, pid: nat, j: nat, i: nat): (r: Kernel)
    requires CanUse(k, pid, j, i)
  {
    var g := k.procs[pid].regions[j];
    match k.mem.objects[g.obj].slots[g.offset + i]
    case None => k
    case Some(p) =>
      if p !in k.mem.pages then k
      else SetPte(k, pid, j, i, if k.mem.pages[p].count == 1 then Pte(k.mem.pages[p].frame, g.writable, false)
                                else Pte(k.mem.pages[p].frame, false, true))
  }

  /** The last region of an exiting process goes: its mappings, its reference to the object. */
  function UnmapLast(k: Kernel, pid: nat): (r: Kernel)
    requires pid in k.procs && k.procs[pid].regions != []
  {
    var p := k.procs[pid];
    var n := |p.regions| - 1;
    Kernel(if p.regions[n].obj in k.mem.objects then DropObject(k.mem, p.regions[n].obj) else k.mem,
           k.procs[pid := Process(p.regions[..n], map x | x in p.ptes && x.0 != n :: p.ptes[x])])
  }

  // ---------------------------------------------------------------- invariant

  ghost predicate Uses(k: Kernel, pid: nat, j: nat, o: nat) { HasRegion(k, pid, j) && k.procs[pid].regions[j].obj == o }

  ghost function Users(k: Kernel, o: nat): (r: set<(nat, nat)>) {
    set pid: nat, j: nat | pid in k.procs && j < |k.procs[pid].regions| && k.procs[pid].regions[j].obj == o :: (pid, j)
  }

  /** An object lives as long as some region uses it, and its count says how many do. */
  ghost predicate UsersExact(k: Kernel) {
    forall o :: o in k.mem.objects ==> k.mem.objects[o].count == |Users(k, o)| && 0 < k.mem.objects[o].count
  }

  ghost predicate RegionsOk(k: Kernel) { forall pid: nat, j: nat :: HasRegion(k, pid, j) ==> RegionOk(k, pid, j) }

  /** An object behind a private region has no other user. */
  ghost predicate Exclusive(k: Kernel) {
    forall pid: nat, j: nat, pid': nat, j': nat, o: nat ::
      Uses(k, pid, j, o) && Uses(k, pid', j', o) && Private(k.procs[pid].regions[j]) ==> pid' == pid && j' == j
  }

  /** No page of the object is held anywhere else. */
  ghost predicate Single(m: Mem, o: nat)
    requires o in m.objects
  {
    forall i, p :: Held(m, o, i, p) && p in m.pages ==> m.pages[p].count == 1
  }

  /** Objects that are shared on purpose do not share pages with others. */
  ghost predicate SharedSingle(k: Kernel) {
    forall pid: nat, j: nat ::
      HasRegion(k, pid, j) && !Private(k.procs[pid].regions[j]) && k.procs[pid].regions[j].obj in k.mem.objects ==>
        Single(k.mem, k.procs[pid].regions[j].obj)
  }

  /** A page table entry leads to the page in the region's slot; it is writable only if the region is and nobody
      else holds the page; if it is not but the region is, a write faults into the copy. */
  ghost predicate PteOk(k: Kernel, pid: nat, j: nat, i: nat) {
    && HasRegion(k, pid, j) && (j, i) in k.procs[pid].ptes
    && var g, pte := k.procs[pid].regions[j], k.procs[pid].ptes[(j, i)];
       && i < g.pages
       && Backed(k.mem, g.obj, g.offset + i, pte.frame, pte.writable)
       && (pte.writable ==> g.writable) && (g.writable && !pte.writable ==> pte.cow)
  }

  ghost predicate PtesOk(k: Kernel) {
    forall pid: nat, j: nat, i: nat :: pid in k.procs && (j, i) in k.procs[pid].ptes ==> PteOk(k, pid, j, i)
  }

  ghost predicate Inv(k: Kernel) {
    && Conserved(k.mem) && RegionsOk(k) && UsersExact(k) && Exclusive(k) && SharedSingle(k) && PtesOk(k)
  }

  // ---------------------------------------------------------------- the simple kernel: fork copies

  /** What each object contains, and which regions each process has. No pages, no counts. */
  datatype Eager = Eager(stores: map<nat, seq<Page>>, procs: map<nat, seq<Region>>)

  ghost function Abs(k: Kernel): (r: Eager) {
    Eager(Stores(k.mem), map pid | pid in k.procs :: k.procs[pid].regions)
  }

  // ---------------------------------------------------------------- faults

  lemma BackedKept(m: Mem, m': Mem, o: nat, i: nat, frame: nat, single: bool)
    requires Conserved(m') && Backed(m, o, i, frame, single) && Kept(m, m', o, i)
    ensures Backed(m', o, i, frame, single)
  {
    assert Held(m, o, i, m.objects[o].slots[i].value);
    HeldIsRecorded(m', o, i);
    hide Conserved;
  }

  lemma SingleKept(m: Mem, m': Mem, o: nat)
    requires Conserved(m) && Conserved(m') && o in m.objects && o in m'.objects && Single(m, o)
    requires |m'.objects[o].slots| == |m.objects[o].slots|
    requires forall i: nat :: HasSlot(m, o, i) ==> Kept(m, m', o, i) || Backed(m', o, i, FrameAt(m', o, i), true)
    ensures Single(m', o)
  {
    forall i, p | Held(m', o, i, p) && p in m'.pages ensures m'.pages[p].count == 1 {
      assert HasSlot(m, o, i);
      if Kept(m, m', o, i) {
        assert Held(m, o, i, p);
        HeldIsRecorded(m, o, i);
        HeldIsRecorded(m', o, i);
      }
    }
  }

  ghost function FrameAt(m: Mem, o: nat, i: nat): (r: nat) {
    if HasSlot(m, o, i) && m.objects[o].slots[i].Some? && m.objects[o].slots[i].value in m.pages
    then m.pages[m.objects[o].slots[i].value].frame else 0
  }

  /** Same processes with the same regions; only page tables and memory may differ. */
  ghost predicate SameRegions(k: Kernel, k': Kernel) {
    k'.procs.Keys == k.procs.Keys && forall pid :: pid in k.procs ==> k'.procs[pid].regions == k.procs[pid].regions
  }

  lemma SameUsers(k: Kernel, k': Kernel)
    requires SameRegions(k, k') && UsersExact(k) && Exclusive(k) && RegionsOk(k)
    requires k'.mem.objects.Keys == k.mem.objects.Keys
    requires forall o :: o in k.mem.objects ==>
               && k'.mem.objects[o].count == k.mem.objects[o].count
               && |k'.mem.objects[o].slots| == |k.mem.objects[o].slots|
    ensures UsersExact(k') && Exclusive(k') && RegionsOk(k')
  {
    assert RegionsOk(k') by {
      forall pid: nat, j: nat | HasRegion(k', pid, j) ensures RegionOk(k', pid, j) { assert HasRegion(k, pid, j); }
    }
    assert Exclusive(k') by {
      forall pid: nat, j: nat, o: nat | Uses(k', pid, j, o) ensures Uses(k, pid, j, o) {}
    }
    forall o | o in k'.mem.objects ensures k'.mem.objects[o].count == |Users(k', o)| && 0 < k'.mem.objects[o].count {
      assert Users(k', o) == Users(k, o);
    }
  }

  lemma SameAbs(k: Kernel, k': Kernel)
    requires SameRegions(k, k') && Stores(k'.mem) == Stores(k.mem)
    ensures Abs(k') == Abs(k)
  {
  }

  /** An entry that does not lead to the one changed slot is as good as before. */
  lemma PteSpared(k: Kernel, k': Kernel, pid: nat, j: nat, i: nat, o: nat, x: nat)
    requires SameRegions(k, k') && Conserved(k'.mem) && OnlySlot(k.mem, k'.mem, o, x) && PteOk(k, pid, j, i)
    requires (j, i) in k'.procs[pid].ptes && k'.procs[pid].ptes[(j, i)] == k.procs[pid].ptes[(j, i)]
    requires k.procs[pid].regions[j].obj != o || k.procs[pid].regions[j].offset + i != x
    ensures PteOk(k', pid, j, i)
  {
    hide Conserved, Content;
    var g, pte := k.procs[pid].regions[j], k.procs[pid].ptes[(j, i)];
    assert HasSlot(k.mem, g.obj, g.offset + i);
    assert Spared(k.mem, k'.mem, g.obj, g.offset + i);
    BackedKept(k.mem, k'.mem, g.obj, g.offset + i, pte.frame, pte.writable);
  }

  /** What a fault may do: replace at most one slot's page, by one nobody else holds, and the slot must not be
      another region's too. */
  ghost predicate SlotChange(k: Kernel, m: Mem, pid: nat, j: nat, i: nat, pte: Pte)
    requires HasRegion(k, pid, j)
  {
    var g := k.procs[pid].regions[j];
    && HasSlot(k.mem, g.obj, g.offset + i) && OnlySlot(k.mem, m, g.obj, g.offset + i)
    && Backed(m, g.obj, g.offset + i, pte.frame, pte.writable)
    && (pte.writable ==> g.writable) && (g.writable && !pte.writable ==> pte.cow)
    && (m == k.mem || (&& (Private(g) || k.mem.objects[g.obj].slots[g.offset + i].None?)
                       && Backed(m, g.obj, g.offset + i, pte.frame, true)))
  }

  lemma PteIsOk(k: Kernel, pid: nat, j: nat, i: nat)
    requires Inv(k) && pid in k.procs && (j, i) in k.procs[pid].ptes
    ensures PteOk(k, pid, j, i)
  {
    hide PteOk, Conserved, RegionsOk, UsersExact, Exclusive, SharedSingle;
  }

  lemma OtherPte(k: Kernel, m: Mem, pid: nat, j: nat, i: nat, pte: Pte, q: nat, b: nat, a: nat)
    requires Inv(k) && CanUse(k, pid, j, i) && Conserved(m) && SlotChange(k, m, pid, j, i, pte)
    requires PteOk(k, q, b, a) && (q, b, a) != (pid, j, i)
    ensures PteOk(SetPte(k.(mem := m), pid, j, i, pte), q, b, a)
  {
    hide Inv, Conserved, Backed;
    var k', g, h := SetPte(k.(mem := m), pid, j, i, pte), k.procs[pid].regions[j], k.procs[q].regions[b];
    assert SameRegions(k, k');
    if h.obj == g.obj && h.offset + a == g.offset + i {
      SameSlot(k, m, pid, j, i, q, b, a);
      PteUnmoved(k, k', q, b, a);
    } else {
      PteSpared(k, k', q, b, a, g.obj, g.offset + i);
    }
  }

  lemma SlotPtes(k: Kernel, m: Mem, pid: nat, j: nat, i: nat, pte: Pte)
    requires Inv(k) && CanUse(k, pid, j, i) && Conserved(m) && SlotChange(k, m, pid, j, i, pte)
    ensures PtesOk(SetPte(k.(mem := m), pid, j, i, pte))
  {
    var k' := SetPte(k.(mem := m), pid, j, i, pte);
    hide Conserved, Backed, Inv;
    assert PteOk(k', pid, j, i);
    hide SlotChange, PteOk;
    forall q: nat, b: nat, a: nat | q in k'.procs && (b, a) in k'.procs[q].ptes ensures PteOk(k', q, b, a) {
      if (q, b, a) != (pid, j, i) {
        PteIsOk(k, q, b, a);
        OtherPte(k, m, pid, j, i, pte, q, b, a);
      }
    }
  }

  lemma PteUnmoved(k: Kernel, k': Kernel, pid: nat, j: nat, i: nat)
    requires SameRegions(k, k') && k'.mem == k.mem && PteOk(k, pid, j, i)
    requires (j, i) in k'.procs[pid].ptes && k'.procs[pid].ptes[(j, i)] == k.procs[pid].ptes[(j, i)]
    ensures PteOk(k', pid, j, i)
  {
  }

  lemma SlotStep(k: Kernel, m: Mem, pid: nat, j: nat, i: nat, pte: Pte)
    requires Inv(k) && CanUse(k, pid, j, i) && Conserved(m) && SlotChange(k, m, pid, j, i, pte)
    ensures Inv(SetPte(k.(mem := m), pid, j, i, pte))
  {
    var k', g := SetPte(k.(mem := m), pid, j, i, pte), k.procs[pid].regions[j];
    SlotPtes(k, m, pid, j, i, pte);
    hide PtesOk, Conserved, Exclusive, UsersExact, RegionsOk, SharedSingle, Spared;
    SameUsers(k, k');
    SharedSingleKept(k, k', g.obj, g.offset + i);
  }

  /** Two entries lead to the same slot only if the slot is not being replaced. */
  lemma SameSlot(k: Kernel, m: Mem, pid: nat, j: nat, i: nat, q: nat, b: nat, a: nat)
    requires Inv(k) && CanUse(k, pid, j, i) && PteOk(k, q, b, a) && (q, b, a) != (pid, j, i)
    requires var g, h := k.procs[pid].regions[j], k.procs[q].regions[b];
             && h.obj == g.obj && h.offset + a == g.offset + i
             && (m == k.mem || Private(g) || k.mem.objects[g.obj].slots[g.offset + i].None?)
    ensures m == k.mem
  {
    var g := k.procs[pid].regions[j];
    assert Uses(k, pid, j, g.obj) && Uses(k, q, b, g.obj);
    assert Private(g) ==> q == pid && b == j;
  }

  lemma SharedSingleKept(k: Kernel, k': Kernel, o: nat, x: nat)
    requires SameRegions(k, k') && Conserved(k.mem) && Conserved(k'.mem) && SharedSingle(k) && RegionsOk(k)
    requires HasSlot(k.mem, o, x) && OnlySlot(k.mem, k'.mem, o, x)
    requires k'.mem == k.mem || Backed(k'.mem, o, x, FrameAt(k'.mem, o, x), true)
    ensures SharedSingle(k')
  {
    hide Content, Conserved;
    forall q: nat, b: nat | HasRegion(k', q, b) && !Private(k'.procs[q].regions[b])
        && k'.procs[q].regions[b].obj in k'.mem.objects
      ensures Single(k'.mem, k'.procs[q].regions[b].obj)
    {
      var y := k.procs[q].regions[b].obj;
      assert HasRegion(k, q, b);
      assert Single(k.mem, y);
      if k'.mem != k.mem {
        forall n: nat | HasSlot(k.mem, y, n)
          ensures Kept(k.mem, k'.mem, y, n) || Backed(k'.mem, y, n, FrameAt(k'.mem, y, n), true)
        {
          if y != o || n != x { assert Spared(k.mem, k'.mem, y, n); }
        }
        SingleKept(k.mem, k'.mem, y);
      }
    }
  }

  lemma InvParts(k: Kernel, pid: nat, j: nat)
    requires Inv(k) && HasRegion(k, pid, j)
    ensures Conserved(k.mem) && RegionOk(k, pid, j)
    ensures !Private(k.procs[pid].regions[j]) ==> Single(k.mem, k.procs[pid].regions[j].obj)
  {
  }

  /** A step that changes one slot and nothing that can be read. */
  lemma SlotRefines(k: Kernel, m: Mem, pid: nat, j: nat, i: nat, pte: Pte)
    requires Inv(k) && CanUse(k, pid, j, i) && Conserved(m) && SlotChange(k, m, pid, j, i, pte)
    requires Stores(m) == Stores(k.mem)
    ensures Inv(SetPte(k.(mem := m), pid, j, i, pte)) && Abs(SetPte(k.(mem := m), pid, j, i, pte)) == Abs(k)
  {
    hide Inv, Conserved, SlotChange, Stores, Abs, Backed;
    SlotStep(k, m, pid, j, i, pte);
    SameAbs(k, SetPte(k.(mem := m), pid, j, i, pte));
  }

  lemma FaultSlot(k: Kernel, pid: nat, j: nat, i: nat, id: nat, frame: nat)
    requires Inv(k) && CanUse(k, pid, j, i) && Unused(k.mem, id, frame)
    ensures var g := k.procs[pid].regions[j];
            var (m, f, cow) := HandleFault(k.mem, g.obj, g.offset + i, id, frame);
            && Conserved(m) && Stores(m) == Stores(k.mem)
            && SlotChange(k, m, pid, j, i, if cow then Pte(f, false, true) else Pte(f, g.writable, false))
  {
    hide Inv, Conserved, OnlySlot, Stores, HandleFault;
    InvParts(k, pid, j);
    var g := k.procs[pid].regions[j];
    HandleFaultConserves(k.mem, g.obj, g.offset + i, id, frame);
  }

  /** Faults keep the invariant and change nothing any process can read. */
  lemma FaultRefines(k: Kernel, pid: nat, j: nat, i: nat, id: nat, frame: nat)
    requires Inv(k) && CanUse(k, pid, j, i) && Unused(k.mem, id, frame)
    ensures Inv(Fault(k, pid, j, i, id, frame)) && Abs(Fault(k, pid, j, i, id, frame)) == Abs(k)
  {
    hide Inv, Conserved, Stores, HandleFault, SlotChange, Abs, SetPte;
    FaultSlot(k, pid, j, i, id, frame);
    var g := k.procs[pid].regions[j];
    var (m, f, cow) := HandleFault(k.mem, g.obj, g.offset + i, id, frame);
    SlotRefines(k, m, pid, j, i, if cow then Pte(f, false, true) else Pte(f, g.writable, false));
  }

  lemma CowSlot(k: Kernel, pid: nat, j: nat, i: nat, id: nat, frame: nat)
    requires Inv(k) && CanUse(k, pid, j, i) && Unused(k.mem, id, frame)
    requires (j, i) in k.procs[pid].ptes && k.procs[pid].regions[j].writable
    ensures var g := k.procs[pid].regions[j];
            var (m, f) := HandleCowFault(k.mem, g.obj, g.offset + i, id, frame);
            && Conserved(m) && Stores(m) == Stores(k.mem) && SlotChange(k, m, pid, j, i, Pte(f, g.writable, false))
  {
    hide Inv, Conserved, OnlySlot, Stores, HandleCowFault;
    PteIsOk(k, pid, j, i);
    InvParts(k, pid, j);
    var g := k.procs[pid].regions[j];
    assert Held(k.mem, g.obj, g.offset + i, k.mem.objects[g.obj].slots[g.offset + i].value);
    HandleCowFaultConserves(k.mem, g.obj, g.offset + i, id, frame);
  }

  lemma CowFaultRefines(k: Kernel, pid: nat, j: nat, i: nat, id: nat, frame: nat)
    requires Inv(k) && CanUse(k, pid, j, i) && Unused(k.mem, id, frame)
    requires (j, i) in k.procs[pid].ptes && k.procs[pid].regions[j].writable
    ensures Inv(CowFault(k, pid, j, i, id, frame)) && Abs(CowFault(k, pid, j, i, id, frame)) == Abs(k)
  {
    hide Inv, Conserved, Stores, HandleCowFault, SlotChange, Abs, SetPte;
    CowSlot(k, pid, j, i, id, frame);
    var g := k.procs[pid].regions[j];
    var (m, f) := HandleCowFault(k.mem, g.obj, g.offset + i, id, frame);
    SlotRefines(k, m, pid, j, i, Pte(f, g.writable, false));
  }
}
