/** Every operation of the copy-on-write kernel keeps its invariant and looks, to the processes, like the same
    operation of the kernel that copies at fork. */
module ForkRefinement {
  import opened Common
  import opened PhysicalPages
  import opened CopyOnWrite

  // ---------------------------------------------------------------- writes

  /** A write to a page counted once shows in that slot and nowhere else. */
  lemma PokeStores(m: Mem, m': Mem, o: nat, x: nat, p: nat, at: nat, b: byte)
    requires Conserved(m) && Held(m, o, x, p) && p in m.pages && m.pages[p].count == 1 && at < PAGE_SIZE
    requires m.pages[p].frame in m.ram
    requires m' == m.(ram := m.ram[m.pages[p].frame := WriteByte(m.ram[m.pages[p].frame], at, b)])
    ensures Conserved(m')
    ensures Stores(m') == Stores(m)[o := PutPage(Stores(m)[o], x, WriteByte(Stores(m)[o][x], at, b))]
  {
    PokeConserves(m, m');
    HeldIsRecorded(m, o, x);
    SoleHolder(m, o, x, p);
    hide CountExact;
    forall y: nat, j: nat | HasSlot(m, y, j) && (y, j) != (o, x) ensures Content(m', y, j) == Content(m, y, j) {
      if m.objects[y].slots[j].Some? { assert Held(m, y, j, m.objects[y].slots[j].value); }
    }
    assert Content(m', o, x) == WriteByte(Content(m, o, x), at, b);
    hide Conserved, Content, FramesExact;
    PokedStores(m, m', o, x, WriteByte(Stores(m)[o][x], at, b));
  }

  lemma PokeConserves(m: Mem, m': Mem)
    requires Conserved(m) && m'.objects == m.objects && m'.pages == m.pages && m'.ram.Keys == m.ram.Keys
    ensures Conserved(m')
  {
    SameFrames(m, m');
    hide FramesExact;
    assert forall q :: q in m.pages ==> CountExact(m, q);
    assert forall q :: q in m.pages ==> CountExact(m', q);
    assert forall y, j, q :: Held(m', y, j, q) ==> Held(m, y, j, q);
  }

  lemma PokedStores(m: Mem, m': Mem, o: nat, x: nat, page: Page)
    requires m'.objects == m.objects && HasSlot(m, o, x) && Content(m', o, x) == page
    requires forall y: nat, j: nat :: HasSlot(m, y, j) && (y, j) != (o, x) ==> Content(m', y, j) == Content(m, y, j)
    ensures Stores(m') == Stores(m)[o := PutPage(Stores(m)[o], x, page)]
  {
    hide Content;
    assert forall y :: y in m.objects && y != o ==> Store(m', y) == Store(m, y);
    StoreIs(m', o, PutPage(Stores(m)[o], x, page));
    StoresUpdated(m, m', o, PutPage(Stores(m)[o], x, page));
  }

  /** Nothing in the invariant depends on what frames contain. */
  lemma SameShape(k: Kernel, m: Mem)
    requires Inv(k) && Conserved(m) && m.objects == k.mem.objects && m.pages == k.mem.pages
    ensures Inv(k.(mem := m))
  {
    hide Conserved;
    var k' := k.(mem := m);
    SameUsers(k, k') by { hide SharedSingle, PtesOk; }
    assert PtesOk(k') by {
      forall q: nat, b: nat, a: nat | q in k'.procs && (b, a) in k'.procs[q].ptes
        ensures PteOk(k', q, b, a)
      {
        assert PteOk(k, q, b, a);
      }
    }
    assert SharedSingle(k') by {
      forall q: nat, b: nat | HasRegion(k', q, b) && !Private(k'.procs[q].regions[b])
          && k'.procs[q].regions[b].obj in m.objects
        ensures Single(m, k'.procs[q].regions[b].obj)
      {
        assert HasRegion(k, q, b) && Single(k.mem, k.procs[q].regions[b].obj);
        assert forall i, p :: Held(m, k'.procs[q].regions[b].obj, i, p) ==>
            Held(k.mem, k'.procs[q].regions[b].obj, i, p);
      }
    }
  }

  predicate EagerSlot(e: Eager, pid: nat, j: nat, i: nat) {
    && pid in e.procs && j < |e.procs[pid]| && e.procs[pid][j].obj in e.stores
    && e.procs[pid][j].offset + i < |e.stores[e.procs[pid][j].obj]|
  }

  /** What a process reads. */
  function EagerPage(e: Eager, pid: nat, j: nat, i: nat): (r: Page)
    requires EagerSlot(e, pid, j, i)
  {
    e.stores[e.procs[pid][j].obj][e.procs[pid][j].offset + i]
  }

  function EagerPoke(e: Eager, pid: nat, j: nat, i: nat, at: nat, b: byte): (r: Eager)
    requires at < PAGE_SIZE && EagerSlot(e, pid, j, i)
  {
    var g := e.procs[pid][j];
    e.(stores := e.stores[g.obj := PutPage(e.stores[g.obj], g.offset + i, WriteByte(EagerPage(e, pid, j, i), at, b))])
  }

  /** A write through a writable entry changes that page for those who share the object, and for nobody else. */
  lemma PokeRefines(k: Kernel, pid: nat, j: nat, i: nat, at: nat, b: byte)
    requires Inv(k) && pid in k.procs && (j, i) in k.procs[pid].ptes && k.procs[pid].ptes[(j, i)].writable
    requires at < PAGE_SIZE
    ensures EagerSlot(Abs(k), pid, j, i)
    ensures Inv(Poke(k, pid, j, i, at, b)) && Abs(Poke(k, pid, j, i, at, b)) == EagerPoke(Abs(k), pid, j, i, at, b)
  {
    hide Inv, Conserved;
    PteIsOk(k, pid, j, i);
    InvParts(k, pid, j);
    var g := k.procs[pid].regions[j];
    var p := k.mem.objects[g.obj].slots[g.offset + i].value;
    HeldIsRecorded(k.mem, g.obj, g.offset + i);
    hide CountExact, PteOk;
    PokeStores(k.mem, Poke(k, pid, j, i, at, b).mem, g.obj, g.offset + i, p, at, b);
    SameShape(k, Poke(k, pid, j, i, at, b).mem);
    hide Stores, PutPage;
  }

  // ---------------------------------------------------------------- new regions

  /** The regions of one process are longer by one, all others are the same. */
  ghost predicate Added(k: Kernel, k': Kernel, pid: nat, g: Region) {
    && pid in k.procs && k'.procs.Keys == k.procs.Keys
    && k'.procs[pid].regions == k.procs[pid].regions + [g]
    && forall q :: q in k.procs && q != pid ==> k'.procs[q].regions == k.procs[q].regions
  }

  /** The added region is its object's first user, or joins users that share on purpose. */
  ghost predicate Joins(k: Kernel, m: Mem, g: Region) {
    && m.objects.Keys == k.mem.objects.Keys + {g.obj}
    && g.offset + g.pages <= |m.objects[g.obj].slots|
    && m.objects[g.obj].count == (if g.obj in k.mem.objects then k.mem.objects[g.obj].count + 1 else 1)
    && (forall o :: o in k.mem.objects ==> |m.objects[o].slots| == |k.mem.objects[o].slots|)
    && (forall o :: o in k.mem.objects && o != g.obj ==> m.objects[o].count == k.mem.objects[o].count)
    && (g.obj in k.mem.objects ==>
          !Private(g) && forall q: nat, b: nat :: Uses(k, q, b, g.obj) ==> !Private(k.procs[q].regions[b]))
  }

  lemma UsersAdded(k: Kernel, k': Kernel, pid: nat, g: Region, o: nat)
    requires Added(k, k', pid, g)
    ensures Users(k', o) == Users(k, o) + (if o == g.obj then {(pid, |k.procs[pid].regions|)} else {})
    ensures (pid, |k.procs[pid].regions|) !in Users(k, o)
  {
  }

  lemma NotUsed(k: Kernel, o: nat)
    requires RegionsOk(k) && o !in k.mem.objects
    ensures Users(k, o) == {} && forall q: nat, b: nat :: !Uses(k, q, b, o)
  {
    forall q: nat, b: nat ensures !Uses(k, q, b, o) { assert HasRegion(k, q, b) ==> RegionOk(k, q, b); }
    assert forall x :: x in Users(k, o) ==> Uses(k, x.0, x.1, o);
  }

  lemma RegionsAdded(k: Kernel, k': Kernel, pid: nat, g: Region)
    requires RegionsOk(k) && Added(k, k', pid, g) && Joins(k, k'.mem, g)
    ensures RegionsOk(k')
  {
    forall q: nat, b: nat | HasRegion(k', q, b) ensures RegionOk(k', q, b) {
      if q != pid || b != |k.procs[pid].regions| { assert HasRegion(k, q, b) && RegionOk(k, q, b); }
    }
  }

  lemma CountsAdded(k: Kernel, k': Kernel, pid: nat, g: Region)
    requires RegionsOk(k) && UsersExact(k) && Added(k, k', pid, g) && Joins(k, k'.mem, g)
    ensures UsersExact(k')
  {
    if g.obj !in k.mem.objects { NotUsed(k, g.obj); }
    forall o | o in k'.mem.objects ensures k'.mem.objects[o].count == |Users(k', o)| && 0 < k'.mem.objects[o].count {
      UsersAdded(k, k', pid, g, o);
      hide Users;
    }
  }

  lemma ExclusiveAdded(k: Kernel, k': Kernel, pid: nat, g: Region)
    requires RegionsOk(k) && Exclusive(k) && Added(k, k', pid, g) && Joins(k, k'.mem, g)
    ensures Exclusive(k')
  {
    if g.obj !in k.mem.objects { NotUsed(k, g.obj); }
    var n := |k.procs[pid].regions|;
    hide RegionsOk, Users;
    forall q: nat, b: nat, o: nat | Uses(k', q, b, o) && (q, b) != (pid, n) ensures Uses(k, q, b, o) {}
    assert Uses(k', pid, n, g.obj);
  }

  /** An entry carries over when its page is still there. */
  lemma PteFrom(k: Kernel, k': Kernel, q: nat, b: nat, a: nat)
    requires PteOk(k, q, b, a) && HasRegion(k', q, b) && k'.procs[q].regions[b] == k.procs[q].regions[b]
    requires (b, a) in k'.procs[q].ptes
    requires var t, t' := k.procs[q].ptes[(b, a)], k'.procs[q].ptes[(b, a)];
             && (t' == t || (t'.frame == t.frame && !t'.writable && t'.cow))
             && var g := k.procs[q].regions[b]; Backed(k'.mem, g.obj, g.offset + a, t'.frame, t'.writable)
    ensures PteOk(k', q, b, a)
  {
  }

  lemma SingleFrom(m: Mem, m': Mem, o: nat)
    requires o in m.objects && o in m'.objects && Single(m, o) && m'.pages == m.pages
    requires forall i, p :: Held(m', o, i, p) ==> Held(m, o, i, p)
    ensures Single(m', o)
  {
  }

  // ---------------------------------------------------------------- mmap and brk

  function EagerMap(e: Eager, pid: nat, obj: nat, pages: nat, writable: bool, shared: bool): (r: Eager)
    requires pid in e.procs
  {
    Eager(e.stores[obj := seq(pages, _ => ZeroPage())],
          e.procs[pid := e.procs[pid] + [Region(obj, 0, pages, writable, shared)]])
  }

  lemma MapShape(k: Kernel, pid: nat, obj: nat, pages: nat, writable: bool, shared: bool)
    requires Inv(k) && pid in k.procs && obj !in k.mem.objects
    ensures var k', g := MapAnon(k, pid, obj, pages, writable, shared), Region(obj, 0, pages, writable, shared);
            Added(k, k', pid, g) && Joins(k, k'.mem, g)
  {
    hide Inv;
  }

  lemma MapPtes(k: Kernel, pid: nat, obj: nat, pages: nat, writable: bool, shared: bool)
    requires Inv(k) && pid in k.procs && obj !in k.mem.objects
    ensures PtesOk(MapAnon(k, pid, obj, pages, writable, shared))
    ensures SharedSingle(MapAnon(k, pid, obj, pages, writable, shared))
  {
    hide Inv;
    var k' := MapAnon(k, pid, obj, pages, writable, shared);
    forall q: nat, b: nat, a: nat | q in k'.procs && (b, a) in k'.procs[q].ptes ensures PteOk(k', q, b, a) {
      PteIsOk(k, q, b, a);
      PteFrom(k, k', q, b, a);
    }
    forall q: nat, b: nat | HasRegion(k', q, b) && !Private(k'.procs[q].regions[b])
        && k'.procs[q].regions[b].obj in k'.mem.objects
      ensures Single(k'.mem, k'.procs[q].regions[b].obj)
    {
      if k'.procs[q].regions[b].obj != obj {
        InvParts(k, q, b);
        SingleFrom(k.mem, k'.mem, k'.procs[q].regions[b].obj);
      }
    }
  }

  lemma MapAnonRefines(k: Kernel, pid: nat, obj: nat, pages: nat, writable: bool, shared: bool)
    requires Inv(k) && pid in k.procs && obj !in k.mem.objects
    ensures Inv(MapAnon(k, pid, obj, pages, writable, shared))
    ensures Abs(MapAnon(k, pid, obj, pages, writable, shared)) == EagerMap(Abs(k), pid, obj, pages, writable, shared)
  {
    var k', g := MapAnon(k, pid, obj, pages, writable, shared), Region(obj, 0, pages, writable, shared);
    hide PtesOk, SharedSingle, Conserved, RegionsOk, UsersExact, Exclusive, Added, Joins, Stores;
    MapPtes(k, pid, obj, pages, writable, shared);
    MapShape(k, pid, obj, pages, writable, shared);
    NewObjectConserves(k.mem, obj, pages);
    RegionsAdded(k, k', pid, g);
    CountsAdded(k, k', pid, g);
    ExclusiveAdded(k, k', pid, g);
  }

  function EagerGrow(e: Eager, pid: nat, j: nat, n: nat): (r: Eager)
    requires pid in e.procs && j < |e.procs[pid]| && e.procs[pid][j].obj in e.stores
  {
    var g := e.procs[pid][j];
    Eager(e.stores[g.obj := e.stores[g.obj] + seq(n, _ => ZeroPage())],
          e.procs[pid := e.procs[pid][j := g.(pages := g.pages + n)]])
  }

  lemma GrowUsers(k: Kernel, pid: nat, j: nat, n: nat)
    requires RegionsOk(k) && UsersExact(k) && Exclusive(k) && HasRegion(k, pid, j)
    ensures RegionsOk(Grow(k, pid, j, n)) && UsersExact(Grow(k, pid, j, n)) && Exclusive(Grow(k, pid, j, n))
  {
    var k' := Grow(k, pid, j, n);
    assert RegionsOk(k') by {
      forall q: nat, b: nat | HasRegion(k', q, b)
        ensures RegionOk(k', q, b)
      {
        assert HasRegion(k, q, b) && RegionOk(k, q, b);
      }
    }
    assert Exclusive(k') by {
      forall q: nat, b: nat, o: nat | Uses(k', q, b, o)
        ensures Uses(k, q, b, o) && Private(k'.procs[q].regions[b]) == Private(k.procs[q].regions[b]) {}
    }
    hide RegionsOk, Exclusive;
    forall o | o in k'.mem.objects ensures k'.mem.objects[o].count == |Users(k', o)| && 0 < k'.mem.objects[o].count {
      assert Users(k', o) == Users(k, o);
    }
  }

  lemma GrowPte(k: Kernel, pid: nat, j: nat, n: nat, q: nat, b: nat, a: nat)
    requires HasRegion(k, pid, j) && RegionOk(k, pid, j) && PteOk(k, q, b, a)
    ensures PteOk(Grow(k, pid, j, n), q, b, a)
  {
    var k', g := Grow(k, pid, j, n), k.procs[q].regions[b];
    assert Backed(k'.mem, g.obj, g.offset + a, k.procs[q].ptes[(b, a)].frame, k.procs[q].ptes[(b, a)].writable);
  }

  lemma GrowPtes(k: Kernel, pid: nat, j: nat, n: nat)
    requires Inv(k) && HasRegion(k, pid, j) && RegionOk(k, pid, j)
    ensures PtesOk(Grow(k, pid, j, n)) && SharedSingle(Grow(k, pid, j, n))
  {
    hide Inv;
    var k' := Grow(k, pid, j, n);
    forall q: nat, b: nat, a: nat | q in k'.procs && (b, a) in k'.procs[q].ptes ensures PteOk(k', q, b, a) {
      PteIsOk(k, q, b, a);
      GrowPte(k, pid, j, n, q, b, a);
    }
    ExtendHeld(k.mem, k.procs[pid].regions[j].obj, n);
    hide PteOk, Backed;
    forall q: nat, b: nat | HasRegion(k', q, b) && !Private(k'.procs[q].regions[b])
        && k'.procs[q].regions[b].obj in k'.mem.objects
      ensures Single(k'.mem, k'.procs[q].regions[b].obj)
    {
      InvParts(k, q, b);
      SingleFrom(k.mem, k'.mem, k'.procs[q].regions[b].obj);
    }
  }

  lemma GrowRefines(k: Kernel, pid: nat, j: nat, n: nat)
    requires Inv(k) && HasRegion(k, pid, j)
    ensures RegionOk(k, pid, j) && Inv(Grow(k, pid, j, n)) && Abs(Grow(k, pid, j, n)) == EagerGrow(Abs(k), pid, j, n)
  {
    hide PtesOk, SharedSingle, Conserved, UsersExact, Exclusive, Stores;
    assert RegionOk(k, pid, j);
    hide RegionsOk;
    GrowPtes(k, pid, j, n);
    GrowUsers(k, pid, j, n);
    ExtendConserves(k.mem, k.procs[pid].regions[j].obj, n);
  }

  // ---------------------------------------------------------------- fork

  /** The simple fork of one region: a private one is copied, the others are shared. */
  function EagerForkRegion(e: Eager, pid: nat, child: nat, j: nat, obj: nat): (r: Eager)
    requires child in e.procs && pid in e.procs && j < |e.procs[pid]|
    requires var g := e.procs[pid][j]; g.obj in e.stores && g.offset + g.pages <= |e.stores[g.obj]|
  {
    var g := e.procs[pid][j];
    if Private(g) then
      Eager(e.stores[obj := e.stores[g.obj][g.offset..g.offset + g.pages]],
            e.procs[child := e.procs[child] + [g.(obj := obj, offset := 0)]])
    else e.(procs := e.procs[child := e.procs[child] + [g]])
  }

  /** A page outside the cloned object is held as before. */
  lemma CloneBacked(m: Mem, m': Mem, src: nat, o: nat, x: nat, frame: nat, single: bool)
    requires Conserved(m) && src in m.objects && SharedFrom(m, m', src) && Backed(m, o, x, frame, single)
    requires o in m'.objects && m'.objects[o] == m.objects[o] && (single ==> o != src)
    ensures Backed(m', o, x, frame, single)
  {
    HeldIsRecorded(m, o, x);
    var p := m.objects[o].slots[x].value;
    if single {
      SoleHolder(m, o, x, p);
      hide Conserved, CountExact;
      forall i: nat | i < |m.objects[src].slots|
        ensures m.objects[src].slots[i] != Some(p)
      {
        assert !Held(m, src, i, p);
      }
    }
  }

  lemma CloneSingle(m: Mem, m': Mem, src: nat, o: nat)
    requires Conserved(m) && src in m.objects && SharedFrom(m, m', src)
    requires o in m.objects && o in m'.objects && m'.objects[o] == m.objects[o] && o != src && Single(m, o)
    ensures Single(m', o)
  {
    forall i, p | Held(m', o, i, p) && p in m'.pages ensures m'.pages[p].count == 1 {
      assert Held(m, o, i, p);
      CloneBacked(m, m', src, o, i, m.pages[p].frame, true);
    }
  }

  lemma ForkClones(k: Kernel, pid: nat, child: nat, j: nat, obj: nat)
    requires HasRegion(k, pid, j) && RegionOk(k, pid, j) && child in k.procs && child != pid && obj !in k.mem.objects
    requires Private(k.procs[pid].regions[j])
    ensures var g := k.procs[pid].regions[j];
            ForkRegion(k, pid, child, j, obj).mem == Clone(k.mem, g.obj, g.offset, g.pages, obj)
  {
    hide Clone;
  }

  lemma CloneMem(k: Kernel, pid: nat, child: nat, j: nat, obj: nat)
    requires Inv(k) && HasRegion(k, pid, j) && child in k.procs && child != pid && obj !in k.mem.objects
    requires Private(k.procs[pid].regions[j])
    ensures RegionOk(k, pid, j)
    ensures var m', g := ForkRegion(k, pid, child, j, obj).mem, k.procs[pid].regions[j];
            && Conserved(m') && SharedFrom(k.mem, m', g.obj)
            && m'.objects == k.mem.objects[obj := Object(1, k.mem.objects[g.obj].slots[g.offset..g.offset + g.pages])]
            && Stores(m') == Stores(k.mem)[obj := Stores(k.mem)[g.obj][g.offset..g.offset + g.pages]]
  {
    hide Inv, Conserved, Stores, Clone, SharedFrom, ForkRegion, Single;
    InvParts(k, pid, j);
    var g := k.procs[pid].regions[j];
    ForkClones(k, pid, child, j, obj);
    CloneConserves(k.mem, g.obj, g.offset, g.pages, obj);
  }

  lemma CloneAdded(k: Kernel, pid: nat, child: nat, j: nat, obj: nat)
    requires HasRegion(k, pid, j) && RegionOk(k, pid, j) && child in k.procs && child != pid && obj !in k.mem.objects
    requires Private(k.procs[pid].regions[j])
    ensures Added(k, ForkRegion(k, pid, child, j, obj), child, k.procs[pid].regions[j].(obj := obj, offset := 0))
  {
    hide Clone;
  }

  lemma CloneJoins(k: Kernel, m: Mem, g: Region, obj: nat)
    requires g.obj in k.mem.objects && g.offset + g.pages <= |k.mem.objects[g.obj].slots| && obj !in k.mem.objects
    requires m.objects == k.mem.objects[obj := Object(1, k.mem.objects[g.obj].slots[g.offset..g.offset + g.pages])]
    ensures Joins(k, m, g.(obj := obj, offset := 0))
  {
  }

  /** The parent's mapped pages of the cloned region lose their write permission; no other entry changes. */
  lemma CloneMarks(k: Kernel, pid: nat, child: nat, j: nat, obj: nat, q: nat, b: nat, a: nat)
    requires HasRegion(k, pid, j) && RegionOk(k, pid, j) && child in k.procs && child != pid && obj !in k.mem.objects
    requires Private(k.procs[pid].regions[j]) && HasRegion(k, q, b) && (b, a) in k.procs[q].ptes
    ensures var k', t := ForkRegion(k, pid, child, j, obj), k.procs[q].ptes[(b, a)];
            && HasRegion(k', q, b) && k'.procs[q].regions[b] == k.procs[q].regions[b] && (b, a) in k'.procs[q].ptes
            && k'.procs[q].ptes[(b, a)] == if (q, b) == (pid, j) then Pte(t.frame, false, true) else t
  {
    hide Clone;
  }

  lemma ClonePteFrom(k: Kernel, k': Kernel, src: nat, q: nat, b: nat, a: nat, marked: bool)
    requires Conserved(k.mem) && src in k.mem.objects && SharedFrom(k.mem, k'.mem, src) && PteOk(k, q, b, a)
    requires HasRegion(k', q, b) && k'.procs[q].regions[b] == k.procs[q].regions[b] && (b, a) in k'.procs[q].ptes
    requires var t, o := k.procs[q].ptes[(b, a)], k.procs[q].regions[b].obj;
             && k'.procs[q].ptes[(b, a)] == (if marked then Pte(t.frame, false, true) else t) && (o == src ==> marked)
             && o in k'.mem.objects && k'.mem.objects[o] == k.mem.objects[o]
    ensures PteOk(k', q, b, a)
  {
    hide Conserved, SharedFrom;
    var h := k.procs[q].regions[b];
    CloneBacked(k.mem, k'.mem, src, h.obj, h.offset + a, k'.procs[q].ptes[(b, a)].frame,
        k'.procs[q].ptes[(b, a)].writable);
    PteFrom(k, k', q, b, a);
  }

  lemma ClonePte(k: Kernel, pid: nat, child: nat, j: nat, obj: nat, q: nat, b: nat, a: nat)
    requires Inv(k) && HasRegion(k, pid, j) && child in k.procs && child != pid && obj !in k.mem.objects
    requires Private(k.procs[pid].regions[j]) && PteOk(k, q, b, a)
    ensures RegionOk(k, pid, j) && PteOk(ForkRegion(k, pid, child, j, obj), q, b, a)
  {
    hide Inv, Conserved, SharedFrom, Stores, ForkRegion, Single, PteOk;
    assert HasRegion(k, q, b) && (b, a) in k.procs[q].ptes by { PteInRegion(k, q, b, a); }
    CloneMem(k, pid, child, j, obj);
    CloneMarks(k, pid, child, j, obj, q, b, a);
    InvParts(k, pid, j);
    InvParts(k, q, b);
    if k.procs[q].regions[b].obj == k.procs[pid].regions[j].obj { SoleUser(k, pid, j, q, b); }
    ClonePteFrom(k, ForkRegion(k, pid, child, j, obj), k.procs[pid].regions[j].obj, q, b, a, (q, b) == (pid, j));
  }

  lemma PteInRegion(k: Kernel, pid: nat, j: nat, i: nat)
    requires PteOk(k, pid, j, i)
    ensures HasRegion(k, pid, j) && (j, i) in k.procs[pid].ptes && i < k.procs[pid].regions[j].pages
  {
  }

  lemma SoleUser(k: Kernel, pid: nat, j: nat, q: nat, b: nat)
    requires Inv(k) && HasRegion(k, pid, j) && HasRegion(k, q, b) && Private(k.procs[pid].regions[j])
    requires k.procs[q].regions[b].obj == k.procs[pid].regions[j].obj
    ensures q == pid && b == j
  {
    hide Conserved, RegionsOk, UsersExact, SharedSingle, PtesOk;
    assert Uses(k, pid, j, k.procs[pid].regions[j].obj) && Uses(k, q, b, k.procs[pid].regions[j].obj);
  }

  lemma ClonePtes(k: Kernel, pid: nat, child: nat, j: nat, obj: nat)
    requires Inv(k) && HasRegion(k, pid, j) && child in k.procs && child != pid && obj !in k.mem.objects
    requires Private(k.procs[pid].regions[j])
    ensures RegionOk(k, pid, j) && PtesOk(ForkRegion(k, pid, child, j, obj))
  {
    InvParts(k, pid, j) by { hide Conserved, Single; }
    var k' := ForkRegion(k, pid, child, j, obj);
    hide Inv, Clone, PteOk;
    assert forall q :: q in k'.procs ==> q in k.procs && k'.procs[q].ptes.Keys == k.procs[q].ptes.Keys;
    hide ForkRegion;
    forall q: nat, b: nat, a: nat | q in k'.procs && (b, a) in k'.procs[q].ptes ensures PteOk(k', q, b, a) {
      PteIsOk(k, q, b, a);
      ClonePte(k, pid, child, j, obj, q, b, a);
    }
  }

  lemma CloneSharedSingle(k: Kernel, pid: nat, child: nat, j: nat, obj: nat)
    requires Inv(k) && HasRegion(k, pid, j) && child in k.procs && child != pid && obj !in k.mem.objects
    requires Private(k.procs[pid].regions[j])
    ensures RegionOk(k, pid, j) && SharedSingle(ForkRegion(k, pid, child, j, obj))
  {
    hide Inv, Conserved, SharedFrom, Stores, ForkRegion, Single;
    InvParts(k, pid, j);
    CloneAdded(k, pid, child, j, obj);
    var k' := ForkRegion(k, pid, child, j, obj);
    forall q: nat, b: nat | HasRegion(k', q, b) && !Private(k'.procs[q].regions[b])
        && k'.procs[q].regions[b].obj in k'.mem.objects
      ensures Single(k'.mem, k'.procs[q].regions[b].obj)
    {
      assert HasRegion(k, q, b) && k.procs[q].regions[b] == k'.procs[q].regions[b];
      CloneSharedOne(k, pid, child, j, obj, q, b);
    }
  }

  lemma CloneSharedOne(k: Kernel, pid: nat, child: nat, j: nat, obj: nat, q: nat, b: nat)
    requires Inv(k) && HasRegion(k, pid, j) && child in k.procs && child != pid && obj !in k.mem.objects
    requires Private(k.procs[pid].regions[j]) && HasRegion(k, q, b) && !Private(k.procs[q].regions[b])
    ensures RegionOk(k, pid, j) && k.procs[q].regions[b].obj in ForkRegion(k, pid, child, j, obj).mem.objects
    ensures Single(ForkRegion(k, pid, child, j, obj).mem, k.procs[q].regions[b].obj)
  {
    hide Inv, Conserved, SharedFrom, Stores, ForkRegion, Single;
    InvParts(k, pid, j);
    InvParts(k, q, b);
    CloneMem(k, pid, child, j, obj);
    if k.procs[q].regions[b].obj == k.procs[pid].regions[j].obj { SoleUser(k, pid, j, q, b); }
    CloneSingle(k.mem, ForkRegion(k, pid, child, j, obj).mem, k.procs[pid].regions[j].obj, k.procs[q].regions[b].obj);
  }

  lemma CloneInv(k: Kernel, pid: nat, child: nat, j: nat, obj: nat)
    requires Inv(k) && HasRegion(k, pid, j) && child in k.procs && child != pid && obj !in k.mem.objects
    requires Private(k.procs[pid].regions[j])
    ensures RegionOk(k, pid, j) && Inv(ForkRegion(k, pid, child, j, obj))
  {
    hide Conserved, SharedFrom, Stores, ForkRegion, RegionsOk, UsersExact, Exclusive, SharedSingle, PtesOk, Added,
         Joins;
    CloneMem(k, pid, child, j, obj);
    CloneAdded(k, pid, child, j, obj);
    var k', g := ForkRegion(k, pid, child, j, obj), k.procs[pid].regions[j].(obj := obj, offset := 0);
    CloneJoins(k, k'.mem, k.procs[pid].regions[j], obj);
    ClonePtes(k, pid, child, j, obj);
    CloneSharedSingle(k, pid, child, j, obj);
    RegionsAdded(k, k', child, g);
    CountsAdded(k, k', child, g);
    ExclusiveAdded(k, k', child, g);
  }

  lemma CloneAbs(k: Kernel, pid: nat, child: nat, j: nat, obj: nat)
    requires Inv(k) && HasRegion(k, pid, j) && child in k.procs && child != pid && obj !in k.mem.objects
    requires Private(k.procs[pid].regions[j])
    ensures RegionOk(k, pid, j) && Abs(ForkRegion(k, pid, child, j, obj)) == EagerForkRegion(Abs(k), pid, child, j, obj)
  {
    hide Inv, Conserved, SharedFrom, Stores, ForkRegion, Single;
    CloneMem(k, pid, child, j, obj);
    CloneAdded(k, pid, child, j, obj);
    var k' := ForkRegion(k, pid, child, j, obj);
    assert Abs(k').procs == EagerForkRegion(Abs(k), pid, child, j, obj).procs;
  }

  /** Sharing adds a user and changes nothing else. */
  lemma ShareRefines(k: Kernel, pid: nat, child: nat, j: nat, obj: nat)
    requires Inv(k) && HasRegion(k, pid, j) && child in k.procs && child != pid && obj !in k.mem.objects
    requires !Private(k.procs[pid].regions[j])
    ensures RegionOk(k, pid, j) && Inv(ForkRegion(k, pid, child, j, obj))
    ensures Abs(ForkRegion(k, pid, child, j, obj)) == EagerForkRegion(Abs(k), pid, child, j, obj)
  {
    hide Conserved, Stores, RegionsOk, UsersExact, Exclusive, SharedSingle, PtesOk, Added, Joins;
    ShareShape(k, pid, child, j, obj);
    SharePtes(k, pid, child, j, obj);
    var k', g := ForkRegion(k, pid, child, j, obj), k.procs[pid].regions[j];
    RegionsAdded(k, k', child, g);
    CountsAdded(k, k', child, g);
    ExclusiveAdded(k, k', child, g);
  }

  lemma ShareMem(m: Mem, o: nat)
    requires Conserved(m) && o in m.objects
    ensures Conserved(BumpObject(m, o)) && Stores(BumpObject(m, o)) == Stores(m)
  {
    hide Conserved, Content, Store;
    RecountConserves(m, o, m.objects[o].count + 1);
    var m' := BumpObject(m, o);
    assert SamePlaces(m, m') && m'.objects.Keys == m.objects.Keys;
    assert forall x :: x in m.objects ==> m'.objects[x].slots == m.objects[x].slots;
    hide BumpObject, SamePlaces;
    forall x | x in m.objects ensures Store(m', x) == Store(m, x) { StoreKept(m, m', x); }
  }

  lemma ShareJoins(k: Kernel, pid: nat, j: nat)
    requires Inv(k) && HasRegion(k, pid, j) && RegionOk(k, pid, j) && !Private(k.procs[pid].regions[j])
    ensures Joins(k, BumpObject(k.mem, k.procs[pid].regions[j].obj), k.procs[pid].regions[j])
  {
    hide Inv;
    var g := k.procs[pid].regions[j];
    forall q: nat, b: nat | Uses(k, q, b, g.obj) ensures !Private(k.procs[q].regions[b]) {
      if Private(k.procs[q].regions[b]) { SoleUser(k, q, b, pid, j); }
    }
  }

  lemma ShareShape(k: Kernel, pid: nat, child: nat, j: nat, obj: nat)
    requires Inv(k) && HasRegion(k, pid, j) && child in k.procs && child != pid && obj !in k.mem.objects
    requires !Private(k.procs[pid].regions[j])
    ensures RegionOk(k, pid, j)
    ensures var k', g := ForkRegion(k, pid, child, j, obj), k.procs[pid].regions[j];
            && Added(k, k', child, g) && Joins(k, k'.mem, g) && Conserved(k'.mem) && Stores(k'.mem) == Stores(k.mem)
  {
    hide Inv, Conserved, Stores, Joins, BumpObject, Single;
    InvParts(k, pid, j);
    ShareMem(k.mem, k.procs[pid].regions[j].obj);
    ShareJoins(k, pid, j);
  }

  lemma SharePtes(k: Kernel, pid: nat, child: nat, j: nat, obj: nat)
    requires Inv(k) && HasRegion(k, pid, j) && child in k.procs && child != pid && obj !in k.mem.objects
    requires !Private(k.procs[pid].regions[j])
    ensures RegionOk(k, pid, j) && PtesOk(ForkRegion(k, pid, child, j, obj))
    ensures SharedSingle(ForkRegion(k, pid, child, j, obj))
  {
    hide Inv, Conserved;
    InvParts(k, pid, j);
    var k' := ForkRegion(k, pid, child, j, obj);
    forall q: nat, b: nat, a: nat | q in k'.procs && (b, a) in k'.procs[q].ptes ensures PteOk(k', q, b, a) {
      PteIsOk(k, q, b, a);
      PteFrom(k, k', q, b, a);
    }
    forall q: nat, b: nat | HasRegion(k', q, b) && !Private(k'.procs[q].regions[b])
        && k'.procs[q].regions[b].obj in k'.mem.objects
      ensures Single(k'.mem, k'.procs[q].regions[b].obj)
    {
      if (q, b) == (child, |k.procs[child].regions|) { InvParts(k, pid, j); } else { InvParts(k, q, b); }
      SingleFrom(k.mem, k'.mem, k'.procs[q].regions[b].obj);
    }
  }

  lemma ForkRegionRefines(k: Kernel, pid: nat, child: nat, j: nat, obj: nat)
    requires Inv(k) && HasRegion(k, pid, j) && child in k.procs && child != pid && obj !in k.mem.objects
    ensures RegionOk(k, pid, j) && Inv(ForkRegion(k, pid, child, j, obj))
    ensures Abs(ForkRegion(k, pid, child, j, obj)) == EagerForkRegion(Abs(k), pid, child, j, obj)
  {
    hide Inv, Abs;
    if Private(k.procs[pid].regions[j]) {
      CloneInv(k, pid, child, j, obj);
      CloneAbs(k, pid, child, j, obj);
    } else {
      ShareRefines(k, pid, child, j, obj);
    }
  }

  /** The entry for a page that is there already. */
  lemma MapPageRefines(k: Kernel, pid: nat, j: nat, i: nat)
    requires Inv(k) && CanUse(k, pid, j, i)
    ensures Inv(MapPage(k, pid, j, i)) && Abs(MapPage(k, pid, j, i)) == Abs(k)
  {
    hide Inv, Conserved, Stores, Abs;
    var g := k.procs[pid].regions[j];
    if k.mem.objects[g.obj].slots[g.offset + i].Some? {
      InvParts(k, pid, j);
      HeldIsRecorded(k.mem, g.obj, g.offset + i);
      NothingChanged(k.mem, g.obj, g.offset + i);
      var p := k.mem.pages[k.mem.objects[g.obj].slots[g.offset + i].value];
      SlotRefines(k, k.mem, pid, j, i, if p.count == 1 then Pte(p.frame, g.writable, false)
          else Pte(p.frame, false, true));
    }
  }
}
