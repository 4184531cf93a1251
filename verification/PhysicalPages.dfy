/** Reference-counted physical pages and the anonymous objects whose slots hold them
    (kernel/mem/phys_page.c, kernel/mem/anon_vm_object.c, kernel/mem/vm_object.c). */
module PhysicalPages {
  import opened Common

  const PAGE_SIZE: nat := 4096

  /** The bytes of one page frame. */
  type Page = s: seq<byte> | |s| == PAGE_SIZE witness seq(PAGE_SIZE, _ => 0 as byte)

  function ZeroPage(): (r: Page) { seq(PAGE_SIZE, _ => 0 as byte) }

  datatype PhysPage = PhysPage(frame: nat, count: nat)

  /** An anonymous object: its reference count and, per page, the physical page if there is one yet. */
  datatype Object = Object(count: nat, slots: seq<Option<nat>>)

  /** Frames in use with their contents, page records and objects, by identity. */
  datatype Mem = Mem(ram: map<nat, Page>, pages: map<nat, PhysPage>, objects: map<nat, Object>)

  // ---------------------------------------------------------------- invariant

  /** The slots that hold page `p`. */
  ghost function Holders(objects: map<nat, Object>, p: nat): (r: set<(nat, nat)>) {
    set o: nat, i: nat | o in objects && i < |objects[o].slots| && objects[o].slots[i] == Some(p) :: (o, i)
  }

  ghost predicate Held(m: Mem, o: nat, i: nat, p: nat) {
    o in m.objects && i < |m.objects[o].slots| && m.objects[o].slots[i] == Some(p)
  }

  ghost predicate HeldRecorded(m: Mem) { forall o, i, p :: Held(m, o, i, p) ==> p in m.pages }

  ghost predicate CountExact(m: Mem, p: nat)
    requires p in m.pages
  {
    m.pages[p].count == |Holders(m.objects, p)| && 0 < m.pages[p].count
  }

  ghost predicate IsFrame(m: Mem, f: nat) { exists p :: p in m.pages && m.pages[p].frame == f }

  /** The frames in use are exactly the recorded pages' frames, no two pages sharing one. */
  ghost predicate FramesExact(m: Mem) {
    && (forall p :: p in m.pages ==> m.pages[p].frame in m.ram)
    && (forall f :: f in m.ram ==> IsFrame(m, f))
    && (forall p, q :: p in m.pages && q in m.pages && m.pages[p].frame == m.pages[q].frame ==> p == q)
  }

  /** Conservation: a page's count is the number of slots holding it, never zero; every held page is recorded;
      frames and pages match one to one. */
  ghost predicate Conserved(m: Mem) {
    HeldRecorded(m) && (forall p :: p in m.pages ==> CountExact(m, p)) && FramesExact(m)
  }

  /** What an object's page reads as: its physical page, or zeroes where there is none yet. */
  ghost function Content(m: Mem, o: nat, i: nat): (r: Page)
    requires o in m.objects && i < |m.objects[o].slots|
  {
    match m.objects[o].slots[i]
    case None => ZeroPage()
    case Some(p) => if p in m.pages && m.pages[p].frame in m.ram then m.ram[m.pages[p].frame] else ZeroPage()
  }

  // ---------------------------------------------------------------- pages

  function Bump(m: Mem, p: nat): (r: Mem) {
    if p in m.pages then m.(pages := m.pages[p := m.pages[p].(count := m.pages[p].count + 1)]) else m
  }

  /** Dropping the last reference releases the record and its frame. */
  function Drop(m: Mem, p: nat): (r: Mem) {
    if p !in m.pages || m.pages[p].count == 0 then m
    else if m.pages[p].count == 1 then m.(pages := m.pages - {p}, ram := m.ram - {m.pages[p].frame})
    else m.(pages := m.pages[p := m.pages[p].(count := m.pages[p].count - 1)])
  }

  function SetSlots(m: Mem, o: nat, slots: seq<Option<nat>>): (r: Mem)
    requires o in m.objects
  {
    m.(objects := m.objects[o := m.objects[o].(slots := slots)])
  }

  // ---------------------------------------------------------------- steps on one slot

  ghost predicate Unused(m: Mem, id: nat, frame: nat) { id !in m.pages && frame !in m.ram }

  /** Puts a newly allocated page with the given contents into an empty slot. */
  function Fill(m: Mem, o: nat, i: nat, id: nat, frame: nat, content: Page): (r: Mem)
    requires o in m.objects && i < |m.objects[o].slots|
  {
    SetSlots(Mem(m.ram[frame := content], m.pages[id := PhysPage(frame, 1)], m.objects),
             o, m.objects[o].slots[i := Some(id)])
  }

  /** Gives up the page in a slot. */
  function Release(m: Mem, o: nat, i: nat): (r: Mem)
    requires o in m.objects && i < |m.objects[o].slots|
  {
    if m.objects[o].slots[i].None? then m
    else Drop(SetSlots(m, o, m.objects[o].slots[i := None]), m.objects[o].slots[i].value)
  }

  /** Appends a slot that holds the same page as another one. */
  function Share(m: Mem, o: nat, v: Option<nat>): (r: Mem)
    requires o in m.objects
  {
    var m1 := SetSlots(m, o, m.objects[o].slots + [v]);
    if v.Some? then Bump(m1, v.value) else m1
  }

  lemma HoldersUpdate(objects: map<nat, Object>, o: nat, i: nat, v: Option<nat>, p: nat)
    requires o in objects && i < |objects[o].slots|
    ensures Holders(objects[o := objects[o].(slots := objects[o].slots[i := v])], p) ==
            Holders(objects, p) - {(o, i)} + (if v == Some(p) then {(o, i)} else {})
  {
  }

  lemma HoldersAppend(objects: map<nat, Object>, o: nat, v: Option<nat>, p: nat)
    requires o in objects
    ensures Holders(objects[o := objects[o].(slots := objects[o].slots + [v])], p) ==
            Holders(objects, p) + (if v == Some(p) then {(o, |objects[o].slots|)} else {})
  {
  }

  lemma NoHolders(m: Mem, p: nat)
    requires HeldRecorded(m) && p !in m.pages
    ensures Holders(m.objects, p) == {}
  {
    assert forall h: (nat, nat) :: h in Holders(m.objects, p) ==> Held(m, h.0, h.1, p);
  }

  lemma FramesAdded(m: Mem, m': Mem, id: nat, frame: nat)
    requires FramesExact(m) && Unused(m, id, frame)
    requires m'.pages == m.pages[id := PhysPage(frame, 1)] && m'.ram.Keys == m.ram.Keys + {frame}
    ensures FramesExact(m')
  {
    forall f | f in m'.ram ensures IsFrame(m', f) {
      if f == frame {
        assert m'.pages[id].frame == f;
      } else {
        assert IsFrame(m, f);
        var p :| p in m.pages && m.pages[p].frame == f;
        assert p in m'.pages && m'.pages[p].frame == f;
      }
    }
  }

  lemma FramesRemoved(m: Mem, m': Mem, id: nat)
    requires FramesExact(m) && id in m.pages
    requires m'.pages == m.pages - {id} && m'.ram.Keys == m.ram.Keys - {m.pages[id].frame}
    ensures FramesExact(m')
  {
    forall f | f in m'.ram ensures IsFrame(m', f) {
      assert IsFrame(m, f);
      var p :| p in m.pages && m.pages[p].frame == f;
      assert p in m'.pages && m'.pages[p].frame == f;
    }
  }

  lemma FramesKept(m: Mem, m': Mem, p: nat)
    requires FramesExact(m) && p in m.pages && m'.ram.Keys == m.ram.Keys
    requires p in m'.pages && m'.pages == m.pages[p := m.pages[p].(count := m'.pages[p].count)]
    ensures FramesExact(m')
  {
    forall f | f in m'.ram ensures IsFrame(m', f) {
      assert IsFrame(m, f);
      var q :| q in m.pages && m.pages[q].frame == f;
      assert q in m'.pages && m'.pages[q].frame == f;
    }
  }

  lemma FillConserves(m: Mem, o: nat, i: nat, id: nat, frame: nat, content: Page)
    requires Conserved(m) && o in m.objects && i < |m.objects[o].slots| && m.objects[o].slots[i].None?
    requires Unused(m, id, frame)
    ensures Conserved(Fill(m, o, i, id, frame, content))
  {
    var m' := Fill(m, o, i, id, frame, content);
    assert HeldRecorded(m') by {
      forall x: nat, j: nat, p: nat | Held(m', x, j, p) ensures p in m'.pages {
        if (x, j) != (o, i) { assert Held(m, x, j, p); }
      }
    }
    FramesAdded(m, m', id, frame);
    hide FramesExact, HeldRecorded;
    forall p | p in m'.pages ensures CountExact(m', p) {
      if p == id { NoHolders(m, id); } else { assert CountExact(m, p); }
      FillCount(m, o, i, id, frame, content, p);
    }
  }

  lemma FillCount(m: Mem, o: nat, i: nat, id: nat, frame: nat, content: Page, p: nat)
    requires o in m.objects && i < |m.objects[o].slots| && m.objects[o].slots[i].None?
    requires if p == id then Holders(m.objects, id) == {} else p in m.pages && CountExact(m, p)
    ensures p in Fill(m, o, i, id, frame, content).pages && CountExact(Fill(m, o, i, id, frame, content), p)
  {
    HoldersUpdate(m.objects, o, i, Some(id), p);
    assert (o, i) !in Holders(m.objects, p);
  }

  lemma ShareConserves(m: Mem, o: nat, v: Option<nat>)
    requires Conserved(m) && o in m.objects && (v.Some? ==> v.value in m.pages)
    ensures Conserved(Share(m, o, v))
  {
    var m' := Share(m, o, v);
    assert HeldRecorded(m') by {
      forall x: nat, j: nat, p: nat | Held(m', x, j, p) ensures p in m'.pages {
        if (x, j) != (o, |m.objects[o].slots|) { assert Held(m, x, j, p); }
      }
    }
    if v.Some? { FramesKept(m, m', v.value); }
    assert FramesExact(m') by { if v.None? { assert m'.pages == m.pages; SameFrames(m, m'); } }
    hide FramesExact, HeldRecorded;
    forall p | p in m'.pages ensures CountExact(m', p) {
      assert CountExact(m, p);
      ShareCount(m, o, v, p);
    }
  }

  lemma ShareCount(m: Mem, o: nat, v: Option<nat>, p: nat)
    requires o in m.objects && (v.Some? ==> v.value in m.pages) && p in m.pages && CountExact(m, p)
    ensures p in Share(m, o, v).pages && CountExact(Share(m, o, v), p)
  {
    HoldersAppend(m.objects, o, v, p);
    assert (o, |m.objects[o].slots|) !in Holders(m.objects, p);
  }

  lemma SameFrames(m: Mem, m': Mem)
    requires FramesExact(m) && m'.ram.Keys == m.ram.Keys && m'.pages == m.pages
    ensures FramesExact(m')
  {
    assert forall f :: IsFrame(m, f) ==> IsFrame(m', f);
  }

  lemma ReleaseFrames(m: Mem, o: nat, i: nat, v: nat)
    requires FramesExact(m) && Held(m, o, i, v) && v in m.pages && 0 < m.pages[v].count
    ensures FramesExact(Release(m, o, i))
  {
    var m' := Release(m, o, i);
    if m.pages[v].count == 1 { FramesRemoved(m, m', v); } else { FramesKept(m, m', v); }
  }

  lemma ReleaseHeld(m: Mem, o: nat, i: nat, v: nat)
    requires HeldRecorded(m) && Held(m, o, i, v) && v in m.pages && CountExact(m, v)
    ensures HeldRecorded(Release(m, o, i))
  {
    var m' := Release(m, o, i);
    if m.pages[v].count == 1 { SoleHolder(m, o, i, v); }
    hide CountExact;
    forall x: nat, j: nat, p: nat | Held(m', x, j, p) ensures p in m'.pages { assert Held(m, x, j, p); }
  }

  lemma ReleaseConserves(m: Mem, o: nat, i: nat)
    requires Conserved(m) && o in m.objects && i < |m.objects[o].slots|
    ensures Conserved(Release(m, o, i))
  {
    if m.objects[o].slots[i].Some? {
      var v := m.objects[o].slots[i].value;
      assert Held(m, o, i, v);
      assert CountExact(m, v);
      ReleaseFrames(m, o, i, v);
      ReleaseHeld(m, o, i, v);
      hide FramesExact, HeldRecorded;
      forall p | p in Release(m, o, i).pages ensures CountExact(Release(m, o, i), p) {
        assert CountExact(m, p);
        ReleaseCount(m, o, i, v, p);
      }
    }
  }

  lemma ReleaseCount(m: Mem, o: nat, i: nat, v: nat, p: nat)
    requires Held(m, o, i, v) && v in m.pages && CountExact(m, v)
    requires p in m.pages && CountExact(m, p) && p in Release(m, o, i).pages
    ensures CountExact(Release(m, o, i), p)
  {
    HoldersUpdate(m.objects, o, i, None, p);
    if p == v { assert (o, i) in Holders(m.objects, v); } else { assert (o, i) !in Holders(m.objects, p); }
  }

  /** A page counted once is held by one slot only. */
  lemma SoleHolder(m: Mem, o: nat, i: nat, p: nat)
    requires p in m.pages && CountExact(m, p) && m.pages[p].count == 1 && Held(m, o, i, p)
    ensures forall x, j :: Held(m, x, j, p) ==> x == o && j == i
  {
    var hs := Holders(m.objects, p);
    assert (o, i) in hs;
    assert |hs - {(o, i)}| == 0;
    assert hs == {(o, i)};
    forall x, j | Held(m, x, j, p) ensures x == o && j == i { assert (x, j) in hs; }
  }

  // ---------------------------------------------------------------- contents

  ghost predicate HasSlot(m: Mem, o: nat, i: nat) { o in m.objects && i < |m.objects[o].slots| }

  /** Everything one object holds. */
  ghost function Store(m: Mem, o: nat): (r: seq<Page>)
    requires o in m.objects
    ensures |r| == |m.objects[o].slots| && forall i :: 0 <= i < |r| ==> r[i] == Content(m, o, i)
  {
    seq(|m.objects[o].slots|, i requires 0 <= i < |m.objects[o].slots| => Content(m, o, i))
  }

  /** The simple view: every object is just its pages' contents. */
  ghost function Stores(m: Mem): (r: map<nat, seq<Page>>)
    ensures r.Keys == m.objects.Keys && forall o :: o in m.objects ==> r[o] == Store(m, o)
  {
    map o | o in m.objects :: Store(m, o)
  }

  lemma FillContent(m: Mem, o: nat, i: nat, id: nat, frame: nat, content: Page, x: nat, j: nat)
    requires Conserved(m) && HasSlot(m, o, i) && m.objects[o].slots[i].None? && Unused(m, id, frame) && HasSlot(m, x, j)
    ensures Content(Fill(m, o, i, id, frame, content), x, j) == if (x, j) == (o, i) then content else Content(m, x, j)
  {
    if (x, j) != (o, i) && m.objects[x].slots[j].Some? { assert Held(m, x, j, m.objects[x].slots[j].value); }
  }

  lemma ReleaseContent(m: Mem, o: nat, i: nat, x: nat, j: nat)
    requires Conserved(m) && HasSlot(m, o, i) && HasSlot(m, x, j)
    ensures Content(Release(m, o, i), x, j) == if (x, j) == (o, i) then ZeroPage() else Content(m, x, j)
  {
    if m.objects[o].slots[i].Some? {
      var v := m.objects[o].slots[i].value;
      assert Held(m, o, i, v) && CountExact(m, v);
      if m.pages[v].count == 1 { SoleHolder(m, o, i, v); }
      hide CountExact;
      if m.objects[x].slots[j].Some? { assert Held(m, x, j, m.objects[x].slots[j].value); }
    }
  }

  // ---------------------------------------------------------------- anonymous objects

  function NewObject(m: Mem, o: nat, n: nat): (r: Mem) {
    m.(objects := m.objects[o := Object(1, seq(n, _ => None))])
  }

  function Extend(m: Mem, o: nat, n: nat): (r: Mem)
    requires o in m.objects
  {
    SetSlots(m, o, m.objects[o].slots + seq(n, _ => None))
  }

  /** Fills in slots start..start+n of `src` as slots of the new object `dst`, sharing the pages. */
  function CloneSlots(m: Mem, src: nat, start: nat, n: nat, dst: nat): (r: Mem)
    requires src in m.objects && dst in m.objects && src != dst && start + n <= |m.objects[src].slots|
    ensures r.objects.Keys == m.objects.Keys && r.objects[src] == m.objects[src]
  {
    if n == 0 then m
    else Share(CloneSlots(m, src, start, n - 1, dst), dst, m.objects[src].slots[start + n - 1])
  }

  function Clone(m: Mem, src: nat, start: nat, n: nat, dst: nat): (r: Mem)
    requires src in m.objects && src != dst && start + n <= |m.objects[src].slots|
  {
    CloneSlots(m.(objects := m.objects[dst := Object(1, [])]), src, start, n, dst)
  }

  /** Gives up the first n slots of an object. */
  function KillSlots(m: Mem, o: nat, n: nat): (r: Mem)
    requires o in m.objects && n <= |m.objects[o].slots|
    ensures r.objects.Keys == m.objects.Keys && |r.objects[o].slots| == |m.objects[o].slots|
  {
    if n == 0 then m else Release(KillSlots(m, o, n - 1), o, n - 1)
  }

  /** Dropping the last reference to an object gives up its pages. */
  function DropObject(m: Mem, o: nat): (r: Mem)
    requires o in m.objects
  {
    if m.objects[o].count <= 1 then
      var m1 := KillSlots(m, o, |m.objects[o].slots|);
      m1.(objects := m1.objects - {o})
    else m.(objects := m.objects[o := m.objects[o].(count := m.objects[o].count - 1)])
  }

  function BumpObject(m: Mem, o: nat): (r: Mem)
    requires o in m.objects
  {
    m.(objects := m.objects[o := m.objects[o].(count := m.objects[o].count + 1)])
  }

  /** A fault on a page: the frame to map and whether it must be mapped for copying on write. An empty slot
      gets a new zeroed page. */
  function HandleFault(m: Mem, o: nat, i: nat, id: nat, frame: nat): (r: (Mem, nat, bool))
    requires o in m.objects && i < |m.objects[o].slots|
  {
    match m.objects[o].slots[i]
    case Some(p) => if p in m.pages then (m, m.pages[p].frame, m.pages[p].count > 1) else (m, 0, false)
    case None => (Fill(m, o, i, id, frame, ZeroPage()), frame, false)
  }

  /** A write fault on a page mapped for copying on write: a page nobody else holds is kept, otherwise the
      slot gets a copy. */
  function HandleCowFault(m: Mem, o: nat, i: nat, id: nat, frame: nat): (r: (Mem, nat))
    requires o in m.objects && i < |m.objects[o].slots|
  {
    match m.objects[o].slots[i]
    case None => (m, 0)
    case Some(p) =>
      if p !in m.pages || m.pages[p].frame !in m.ram then (m, 0)
      else if m.pages[p].count == 1 then (m, m.pages[p].frame)
      else (Fill(Release(m, o, i), o, i, id, frame, m.ram[m.pages[p].frame]), frame)
  }

  // ---------------------------------------------------------------- what the object operations keep

  /** Slot j of object x holds the same page, in the same frame, counted no higher than before. */
  ghost predicate Kept(m: Mem, m': Mem, x: nat, j: nat)
    requires HasSlot(m, x, j)
  {
    && HasSlot(m', x, j) && m'.objects[x].slots[j] == m.objects[x].slots[j]
    && forall p :: Held(m, x, j, p) && p in m.pages ==>
         p in m'.pages && m'.pages[p].frame == m.pages[p].frame && m'.pages[p].count <= m.pages[p].count
  }

  /** The page behind a mapped slot. */
  ghost predicate Backed(m: Mem, o: nat, i: nat, frame: nat, single: bool) {
    && HasSlot(m, o, i) && m.objects[o].slots[i].Some?
    && var p := m.objects[o].slots[i].value;
       p in m.pages && m.pages[p].frame == frame && (single ==> m.pages[p].count == 1)
  }

  lemma SameObjectsConserve(m: Mem, m': Mem)
    requires Conserved(m) && m'.pages == m.pages && m'.ram == m.ram
    requires forall x: nat, j: nat, p: nat :: Held(m', x, j, p) <==> Held(m, x, j, p)
    ensures Conserved(m')
  {
    SameFrames(m, m');
    forall p | p in m'.pages ensures CountExact(m', p) {
      assert CountExact(m, p);
      assert forall h: (nat, nat) :: h in Holders(m'.objects, p) <==> Held(m', h.0, h.1, p);
      assert forall h: (nat, nat) :: h in Holders(m.objects, p) <==> Held(m, h.0, h.1, p);
      assert Holders(m'.objects, p) == Holders(m.objects, p);
    }
  }

  /** The same pages in the same frames with the same contents; only counts may differ. */
  ghost predicate SamePlaces(m: Mem, m': Mem) {
    && m'.ram == m.ram && m'.pages.Keys == m.pages.Keys
    && forall p :: p in m.pages ==> m'.pages[p].frame == m.pages[p].frame
  }

  lemma StoreIs(m: Mem, o: nat, t: seq<Page>)
    requires o in m.objects && |t| == |m.objects[o].slots|
    requires forall j :: 0 <= j < |t| ==> Content(m, o, j) == t[j]
    ensures Store(m, o) == t
  {
  }

  lemma StoreKept(m: Mem, m': Mem, o: nat)
    requires o in m.objects && o in m'.objects && m'.objects[o].slots == m.objects[o].slots && SamePlaces(m, m')
    ensures Store(m', o) == Store(m, o)
  {
    hide Store;
    forall j | 0 <= j < |m.objects[o].slots| ensures Content(m', o, j) == Store(m, o)[j] {
      assert Store(m, o)[j] == Content(m, o, j);
    }
    StoreIs(m', o, Store(m, o));
  }

  lemma StoresUpdated(m: Mem, m': Mem, o: nat, t: seq<Page>)
    requires m'.objects.Keys == m.objects.Keys + {o} && Store(m', o) == t
    requires forall x :: x in m.objects && x != o ==> Store(m', x) == Store(m, x)
    ensures Stores(m') == Stores(m)[o := t]
  {
    hide Store;
  }

  /** All other objects untouched, one object's contents new. */
  lemma StoresChanged(m: Mem, m': Mem, o: nat, t: seq<Page>)
    requires SamePlaces(m, m') && m'.objects.Keys == m.objects.Keys + {o}
    requires forall x :: x in m.objects && x != o ==> m'.objects[x].slots == m.objects[x].slots
    requires |t| == |m'.objects[o].slots| && forall j :: 0 <= j < |t| ==> Content(m', o, j) == t[j]
    ensures Stores(m') == Stores(m)[o := t]
  {
    hide Store, Stores;
    StoreIs(m', o, t);
    forall x | x in m.objects && x != o
      ensures Store(m', x) == Store(m, x)
    {
      hide Content, SamePlaces; StoreKept(m, m', x);
    }
    StoresUpdated(m, m', o, t);
  }

  lemma NewObjectConserves(m: Mem, o: nat, n: nat)
    requires Conserved(m) && o !in m.objects
    ensures Conserved(NewObject(m, o, n))
    ensures Stores(NewObject(m, o, n)) == Stores(m)[o := seq(n, _ => ZeroPage())]
  {
    SameObjectsConserve(m, NewObject(m, o, n));
    hide Conserved, Store, Stores;
    StoresChanged(m, NewObject(m, o, n), o, seq(n, _ => ZeroPage()));
  }

  lemma ExtendConserves(m: Mem, o: nat, n: nat)
    requires Conserved(m) && o in m.objects
    ensures Conserved(Extend(m, o, n))
    ensures Stores(Extend(m, o, n)) == Stores(m)[o := Stores(m)[o] + seq(n, _ => ZeroPage())]
  {
    ExtendHeld(m, o, n);
    SameObjectsConserve(m, Extend(m, o, n));
    hide Conserved, Store, Stores;
    var t := Store(m, o) + seq(n, _ => ZeroPage());
    forall j | 0 <= j < |t| ensures Content(Extend(m, o, n), o, j) == t[j] {
      if j < |m.objects[o].slots| { assert Store(m, o)[j] == Content(m, o, j); }
    }
    StoresChanged(m, Extend(m, o, n), o, t);
  }

  lemma ExtendHeld(m: Mem, o: nat, n: nat)
    requires o in m.objects
    ensures forall x: nat, j: nat, p: nat :: Held(Extend(m, o, n), x, j, p) <==> Held(m, x, j, p)
  {
  }

  /** Only pages held by `src` are counted higher, and nothing moves. */
  ghost predicate SharedFrom(m: Mem, m': Mem, src: nat)
    requires src in m.objects
  {
    SamePlaces(m, m') && forall p :: p in m.pages && Some(p) !in m.objects[src].slots ==> m'.pages[p] == m.pages[p]
  }

  lemma ShareMoves(m: Mem, src: nat, v: Option<nat>, dst: nat)
    requires src in m.objects && dst in m.objects && v in m.objects[src].slots
    ensures SharedFrom(m, Share(m, dst, v), src)
    ensures Share(m, dst, v).objects == m.objects[dst := m.objects[dst].(slots := m.objects[dst].slots + [v])]
  {
  }

  lemma ShareFrom(m: Mem, src: nat, i: nat, dst: nat)
    requires Conserved(m) && HasSlot(m, src, i) && dst in m.objects
    ensures var m' := Share(m, dst, m.objects[src].slots[i]);
            && Conserved(m') && SharedFrom(m, m', src)
            && m'.objects ==
               m.objects[dst := m.objects[dst].(slots := m.objects[dst].slots + [m.objects[src].slots[i]])]
  {
    hide Conserved, CountExact, SharedFrom, Share;
    var v := m.objects[src].slots[i];
    if v.Some? { HeldIsRecorded(m, src, i); }
    ShareConserves(m, dst, v);
    ShareMoves(m, src, v, dst);
  }

  /** Sharing slots one by one. */
  lemma {:induction false} CloneSlotsConserves(m: Mem, src: nat, start: nat, n: nat, dst: nat)
    requires Conserved(m) && src in m.objects && dst in m.objects && src != dst && start + n <= |m.objects[src].slots|
    ensures var m' := CloneSlots(m, src, start, n, dst);
            && Conserved(m') && SharedFrom(m, m', src)
            && m'.objects ==
               m.objects[dst := m.objects[dst].(slots :=
                 m.objects[dst].slots + m.objects[src].slots[start..start + n])]
  {
    hide Conserved, Share;
    var from := m.objects[src].slots;
    if n == 0 {
      assert m.objects[dst].slots + from[start..start] == m.objects[dst].slots;
    } else {
      CloneSlotsConserves(m, src, start, n - 1, dst);
      ShareFrom(CloneSlots(m, src, start, n - 1, dst), src, start + n - 1, dst);
      assert m.objects[dst].slots + from[start..start + n] ==
          m.objects[dst].slots + from[start..start + n - 1] + [from[start + n - 1]];
    }
  }

  lemma HeldIsRecorded(m: Mem, o: nat, i: nat)
    requires Conserved(m) && HasSlot(m, o, i) && m.objects[o].slots[i].Some?
    ensures var p := m.objects[o].slots[i].value;
            p in m.pages && 0 < m.pages[p].count && m.pages[p].frame in m.ram && Held(m, o, i, p) && CountExact(m, p)
  {
    assert Held(m, o, i, m.objects[o].slots[i].value);
  }

  lemma SharedFromCopy(m: Mem, m0: Mem, m': Mem, src: nat)
    requires src in m.objects && src in m0.objects && m0.objects[src] == m.objects[src] && m0.pages == m.pages
    requires m0.ram == m.ram
    requires SharedFrom(m0, m', src)
    ensures SharedFrom(m, m', src)
  {
  }

  lemma CloneShares(m: Mem, src: nat, start: nat, n: nat, dst: nat)
    requires Conserved(m) && src in m.objects && dst !in m.objects && start + n <= |m.objects[src].slots|
    ensures var m' := Clone(m, src, start, n, dst);
            && Conserved(m') && SharedFrom(m, m', src)
            && m'.objects == m.objects[dst := Object(1, m.objects[src].slots[start..start + n])]
  {
    var m0 := m.(objects := m.objects[dst := Object(1, [])]);
    SameObjectsConserve(m, m0);
    hide Conserved, SharedFrom, CloneSlots;
    CloneSlotsConserves(m0, src, start, n, dst);
    SharedFromCopy(m, m0, Clone(m, src, start, n, dst), src);
    assert [] + m.objects[src].slots[start..start + n] == m.objects[src].slots[start..start + n];
  }

  /** Cloning copies what can be read, not the pages. */
  lemma CloneConserves(m: Mem, src: nat, start: nat, n: nat, dst: nat)
    requires Conserved(m) && src in m.objects && dst !in m.objects && start + n <= |m.objects[src].slots|
    ensures var m' := Clone(m, src, start, n, dst);
            && Conserved(m') && SharedFrom(m, m', src)
            && m'.objects == m.objects[dst := Object(1, m.objects[src].slots[start..start + n])]
            && Stores(m') == Stores(m)[dst := Stores(m)[src][start..start + n]]
  {
    hide Conserved, Store, Stores, Clone, Content, SamePlaces;
    var m' := Clone(m, src, start, n, dst);
    CloneShares(m, src, start, n, dst);
    CloneContent(m, m', src, start, n, dst);
    assert Stores(m)[src] == Store(m, src);
    StoresChanged(m, m', dst, Store(m, src)[start..start + n]);
  }

  lemma CloneContent(m: Mem, m': Mem, src: nat, start: nat, n: nat, dst: nat)
    requires src in m.objects && start + n <= |m.objects[src].slots| && SamePlaces(m, m')
    requires dst in m'.objects && m'.objects[dst].slots == m.objects[src].slots[start..start + n]
    ensures forall j :: 0 <= j < n ==> Content(m', dst, j) == Store(m, src)[start..start + n][j]
  {
    hide Store;
    forall j | 0 <= j < n ensures Content(m', dst, j) == Store(m, src)[start..start + n][j] {
      assert Store(m, src)[start + j] == Content(m, src, start + j);
    }
  }

  /** A slot other than the one worked on keeps its page and what can be read in it. */
  ghost predicate Spared(m: Mem, m': Mem, x: nat, j: nat)
    requires HasSlot(m, x, j)
  {
    Kept(m, m', x, j) && Content(m', x, j) == Content(m, x, j)
  }

  lemma ReleaseSpares(m: Mem, o: nat, i: nat, x: nat, j: nat)
    requires Conserved(m) && HasSlot(m, o, i) && HasSlot(m, x, j) && (x, j) != (o, i)
    ensures Spared(m, Release(m, o, i), x, j)
  {
    hide Conserved, Content;
    ReleaseContent(m, o, i, x, j);
    if m.objects[o].slots[i].Some? {
      var v := m.objects[o].slots[i].value;
      HeldIsRecorded(m, o, i);
      hide CountExact;
      if m.pages[v].count == 1 { SoleHolder(m, o, i, v); }
    }
  }

  lemma FillSpares(m: Mem, o: nat, i: nat, id: nat, frame: nat, content: Page, x: nat, j: nat)
    requires Conserved(m) && HasSlot(m, o, i) && m.objects[o].slots[i].None? && Unused(m, id, frame)
    requires HasSlot(m, x, j) && (x, j) != (o, i)
    ensures Spared(m, Fill(m, o, i, id, frame, content), x, j)
  {
    FillContent(m, o, i, id, frame, content, x, j);
    hide Conserved, Content;
  }

  lemma SparedTwice(m: Mem, m1: Mem, m2: Mem, x: nat, j: nat)
    requires HasSlot(m, x, j) && Spared(m, m1, x, j) && Spared(m1, m2, x, j)
    ensures Spared(m, m2, x, j)
  {
    hide Content;
    forall p | Held(m, x, j, p) && p in m.pages
      ensures p in m2.pages && m2.pages[p].frame == m.pages[p].frame && m2.pages[p].count <= m.pages[p].count
    {
      assert Held(m1, x, j, p);
    }
  }

  /** Giving up an object's slots one by one. */
  lemma {:induction false} KillSlotsConserves(m: Mem, o: nat, n: nat)
    requires Conserved(m) && o in m.objects && n <= |m.objects[o].slots|
    ensures var m' := KillSlots(m, o, n);
            && Conserved(m')
            && (forall j :: 0 <= j < n ==> m'.objects[o].slots[j] == None)
            && (forall x, j :: HasSlot(m, x, j) && (x != o || n <= j) ==> Spared(m, m', x, j))
            && (forall x :: x in m.objects && x != o ==> m'.objects[x] == m.objects[x])
  {
    hide Conserved, Content;
    if n == 0 {
      forall x, j | HasSlot(m, x, j) ensures Spared(m, m, x, j) {}
    } else {
      KillSlotsConserves(m, o, n - 1);
      var m1 := KillSlots(m, o, n - 1);
      ReleaseConserves(m1, o, n - 1);
      forall x, j | HasSlot(m, x, j) && (x != o || n <= j) ensures Spared(m, Release(m1, o, n - 1), x, j) {
        ReleaseSpares(m1, o, n - 1, x, j);
        SparedTwice(m, m1, Release(m1, o, n - 1), x, j);
      }
    }
  }

  lemma StoresSame(m: Mem, m': Mem)
    requires m'.objects.Keys == m.objects.Keys
    requires forall x :: x in m.objects ==> |m'.objects[x].slots| == |m.objects[x].slots|
    requires forall x, j :: HasSlot(m, x, j) ==> HasSlot(m', x, j) && Content(m', x, j) == Content(m, x, j)
    ensures Stores(m') == Stores(m)
  {
    hide Content, Store;
    forall x | x in m.objects ensures Store(m', x) == Store(m, x) {
      forall j | 0 <= j < |m.objects[x].slots| ensures Content(m', x, j) == Store(m, x)[j] {
        assert HasSlot(m, x, j);
      }
      StoreIs(m', x, Store(m, x));
    }
  }

  lemma DropObjectConserves(m: Mem, o: nat)
    requires Conserved(m) && o in m.objects
    ensures var m' := DropObject(m, o);
            && Conserved(m')
            && (forall x, j :: HasSlot(m, x, j) && (x != o || 1 < m.objects[o].count) ==> Spared(m, m', x, j))
            && m'.objects == (if m.objects[o].count <= 1 then m.objects - {o}
                              else m.objects[o := m.objects[o].(count := m.objects[o].count - 1)])
  {
    hide Content, Conserved;
    var m' := DropObject(m, o);
    if m.objects[o].count <= 1 {
      var n := |m.objects[o].slots|;
      KillSlotsConserves(m, o, n);
      var m1 := KillSlots(m, o, n);
      DropEmpty(m1, o);
      forall x, j | HasSlot(m, x, j) && x != o ensures Spared(m, m', x, j) {
        assert Spared(m, m1, x, j);
        ObjectRemoved(m1, o, x, j);
        SparedTwice(m, m1, m', x, j);
      }
    } else {
      assert Conserved(m') by { RecountConserves(m, o, m.objects[o].count - 1); }
      forall x, j | HasSlot(m, x, j) ensures Spared(m, m', x, j) { Recounted(m, o, m.objects[o].count - 1, x, j); }
    }
  }

  lemma DropEmpty(m: Mem, o: nat)
    requires Conserved(m) && o in m.objects && forall j :: 0 <= j < |m.objects[o].slots| ==>
               m.objects[o].slots[j] == None
    ensures Conserved(m.(objects := m.objects - {o}))
  {
    SameObjectsConserve(m, m.(objects := m.objects - {o}));
  }

  lemma ObjectRemoved(m: Mem, o: nat, x: nat, j: nat)
    requires HasSlot(m, x, j) && x != o
    ensures Spared(m, m.(objects := m.objects - {o}), x, j)
  {
  }

  lemma RecountConserves(m: Mem, o: nat, count: nat)
    requires Conserved(m) && o in m.objects
    ensures Conserved(m.(objects := m.objects[o := m.objects[o].(count := count)]))
  {
    SameObjectsConserve(m, m.(objects := m.objects[o := m.objects[o].(count := count)]));
  }

  lemma Recounted(m: Mem, o: nat, count: nat, x: nat, j: nat)
    requires o in m.objects && HasSlot(m, x, j)
    ensures Spared(m, m.(objects := m.objects[o := m.objects[o].(count := count)]), x, j)
  {
  }

  /** Every slot but one is spared, and no object changes its size or count. */
  ghost predicate OnlySlot(m: Mem, m': Mem, o: nat, i: nat) {
    && m'.objects.Keys == m.objects.Keys
    && (forall x :: x in m.objects ==>
          m'.objects[x].count == m.objects[x].count && |m'.objects[x].slots| == |m.objects[x].slots|)
    && (forall x: nat, j: nat :: HasSlot(m, x, j) && (x != o || j != i) ==> Spared(m, m', x, j))
  }

  lemma OnlySlotStores(m: Mem, m': Mem, o: nat, i: nat)
    requires OnlySlot(m, m', o, i) && HasSlot(m, o, i) && HasSlot(m', o, i) && Content(m', o, i) == Content(m, o, i)
    ensures Stores(m') == Stores(m)
  {
    hide Content, Kept;
    StoresSame(m, m');
  }

  lemma FillOnly(m: Mem, o: nat, i: nat, id: nat, frame: nat, content: Page)
    requires Conserved(m) && HasSlot(m, o, i) && m.objects[o].slots[i].None? && Unused(m, id, frame)
    ensures OnlySlot(m, Fill(m, o, i, id, frame, content), o, i)
    ensures Backed(Fill(m, o, i, id, frame, content), o, i, frame, true)
  {
    hide Conserved, Content, Spared;
    forall x: nat, j: nat | HasSlot(m, x, j) && (x != o || j != i)
      ensures Spared(m, Fill(m, o, i, id, frame, content), x, j)
    {
      FillSpares(m, o, i, id, frame, content, x, j);
    }
  }

  lemma ReleaseOnly(m: Mem, o: nat, i: nat)
    requires Conserved(m) && HasSlot(m, o, i)
    ensures OnlySlot(m, Release(m, o, i), o, i)
  {
    hide Conserved, Content, Spared;
    forall x: nat, j: nat | HasSlot(m, x, j) && (x != o || j != i) ensures Spared(m, Release(m, o, i), x, j) {
      ReleaseSpares(m, o, i, x, j);
    }
  }

  lemma OnlySlotTwice(m: Mem, m1: Mem, m2: Mem, o: nat, i: nat)
    requires OnlySlot(m, m1, o, i) && OnlySlot(m1, m2, o, i)
    ensures OnlySlot(m, m2, o, i)
  {
    hide Spared;
    forall x: nat, j: nat | HasSlot(m, x, j) && (x != o || j != i) ensures Spared(m, m2, x, j) {
      assert Spared(m, m1, x, j);
      assert HasSlot(m1, x, j);
      SparedTwice(m, m1, m2, x, j);
    }
  }

  lemma NothingChanged(m: Mem, o: nat, i: nat)
    ensures OnlySlot(m, m, o, i)
  {
    hide Content;
  }

  /** A fault changes nothing that can be read, and ends with a page behind the slot. */
  lemma HandleFaultConserves(m: Mem, o: nat, i: nat, id: nat, frame: nat)
    requires Conserved(m) && HasSlot(m, o, i) && Unused(m, id, frame)
    ensures var (m', f, cow) := HandleFault(m, o, i, id, frame);
            && Conserved(m') && Stores(m') == Stores(m) && OnlySlot(m, m', o, i)
            && Backed(m', o, i, f, !cow)
            && (if m.objects[o].slots[i].Some? then m' == m else !cow)
  {
    hide Stores;
    if m.objects[o].slots[i].Some? {
      HeldIsRecorded(m, o, i);
      NothingChanged(m, o, i);
    } else {
      FillConserves(m, o, i, id, frame, ZeroPage());
      FillContent(m, o, i, id, frame, ZeroPage(), o, i);
      FillOnly(m, o, i, id, frame, ZeroPage());
      OnlySlotStores(m, Fill(m, o, i, id, frame, ZeroPage()), o, i);
    }
    hide Conserved, OnlySlot, Content;
  }

  lemma CopyPage(m: Mem, o: nat, i: nat, id: nat, frame: nat, content: Page)
    requires Conserved(m) && HasSlot(m, o, i) && m.objects[o].slots[i].Some? && Unused(m, id, frame)
    requires content == Content(m, o, i)
    ensures var m' := Fill(Release(m, o, i), o, i, id, frame, content);
            && Conserved(m') && Stores(m') == Stores(m) && OnlySlot(m, m', o, i) && Backed(m', o, i, frame, true)
  {
    var m1 := Release(m, o, i);
    ReleaseConserves(m, o, i);
    ReleaseOnly(m, o, i);
    HeldIsRecorded(m, o, i);
    assert Unused(m1, id, frame) && m1.objects[o].slots[i].None? && HasSlot(m1, o, i);
    hide Content, OnlySlot, Stores, Release;
    FillConserves(m1, o, i, id, frame, content);
    FillContent(m1, o, i, id, frame, content, o, i);
    FillOnly(m1, o, i, id, frame, content);
    hide Conserved;
    OnlySlotTwice(m, m1, Fill(m1, o, i, id, frame, content), o, i);
    OnlySlotStores(m, Fill(m1, o, i, id, frame, content), o, i);
  }

  /** So does a copy-on-write fault, and the page behind the slot is then its own. */
  lemma HandleCowFaultConserves(m: Mem, o: nat, i: nat, id: nat, frame: nat)
    requires Conserved(m) && HasSlot(m, o, i) && m.objects[o].slots[i].Some? && Unused(m, id, frame)
    ensures var (m', f) := HandleCowFault(m, o, i, id, frame);
            && Conserved(m') && Stores(m') == Stores(m) && OnlySlot(m, m', o, i)
            && Backed(m', o, i, f, true)
            && (m.objects[o].slots[i].value in m.pages && m.pages[m.objects[o].slots[i].value].count == 1 ==> m' == m)
  {
    HeldIsRecorded(m, o, i);
    hide Stores, OnlySlot, CountExact;
    var p := m.objects[o].slots[i].value;
    if m.pages[p].count == 1 {
      NothingChanged(m, o, i);
    } else {
      CopyPage(m, o, i, id, frame, m.ram[m.pages[p].frame]);
    }
    hide Conserved, Content;
  }
}
