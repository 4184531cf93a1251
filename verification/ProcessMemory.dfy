/** What processes read, byte by byte, in the memory of the machine: what was last written there, by themselves or by
    those they share with, and by nobody else (kernel/mem/vm_allocator.c, kernel/mem/anon_vm_object.c). */
module ProcessMemory {
  import opened Common
  import opened PhysicalPages
  import opened CopyOnWrite
  import opened ForkRefinement
  import opened ProcessIsolation

  /** The byte a process finds, with the fault that may take: the entry's frame is looked up in memory. */
  function ReadByte(k: Kernel, pid: nat, j: nat, i: nat, x: nat, id: nat, frame: nat): (r: byte)
    requires CanUse(k, pid, j, i) && x < PAGE_SIZE
  {
    var k1 := Touch(k, pid, j, i, id, frame);
    var f := k1.procs[pid].ptes[(j, i)].frame;
    if f in k1.mem.ram then k1.mem.ram[f][x] else 0
  }

  /** It can be read: the page exists and there is room for a fault. */
  ghost predicate Readable(k: Kernel, pid: nat, j: nat, i: nat, id: nat, frame: nat) {
    CanUse(k, pid, j, i) && Unused(k.mem, id, frame)
  }

  lemma ReadsEager(k: Kernel, pid: nat, j: nat, i: nat, x: nat, id: nat, frame: nat)
    requires Inv(k) && Readable(k, pid, j, i, id, frame) && x < PAGE_SIZE
    ensures EagerSlot(Abs(k), pid, j, i) && ReadByte(k, pid, j, i, x, id, frame) == EagerPage(Abs(k), pid, j, i)[x]
  {
    hide Inv, Abs, Touch, EagerPage, EagerSlot, Unused;
    TouchRefines(k, pid, j, i, id, frame);
    MappedReads(Touch(k, pid, j, i, id, frame), pid, j, i);
  }

  // ---------------------------------------------------------------- one write

  /** Two pages are the same: the same page of the same object. */
  predicate SamePage(k: Kernel, pid: nat, j: nat, i: nat, q: nat, b: nat, a: nat)
    requires HasRegion(k, pid, j) && HasRegion(k, q, b)
  {
    var g, h := k.procs[pid].regions[j], k.procs[q].regions[b];
    g.obj == h.obj && g.offset + i == h.offset + a
  }

  lemma EagerWrite(e: Eager, pid: nat, j: nat, i: nat, at: nat, v: byte, q: nat, b: nat, a: nat, x: nat)
    requires at < PAGE_SIZE && x < PAGE_SIZE && EagerSlot(e, pid, j, i) && EagerSlot(e, q, b, a)
    ensures var e' := EagerPoke(e, pid, j, i, at, v);
            && EagerSlot(e', q, b, a)
            && EagerPage(e', q, b, a)[x] ==
               if (e.procs[q][b].obj == e.procs[pid][j].obj && e.procs[q][b].offset + a == e.procs[pid][j].offset + i
                   && x == at) then v else EagerPage(e, q, b, a)[x]
  {
  }

  /** A write is read back in the pages that are the same as the one written, at that byte, and nowhere else, by
      whichever process. */
  lemma WriteSeen(k: Kernel, op: Op, q: nat, b: nat, a: nat, x: nat, id: nat, frame: nat, id': nat, frame': nat)
    requires Inv(k) && Enabled(k, op) && op.Put? && x < PAGE_SIZE
    requires Readable(k, q, b, a, id, frame) && Readable(Next(k, op), q, b, a, id', frame')
    ensures ReadByte(Next(k, op), q, b, a, x, id', frame') ==
            if SamePage(k, op.pid, op.j, op.i, q, b, a) && x == op.at then op.b else ReadByte(k, q, b, a, x, id, frame)
  {
    hide Inv, Next, ReadByte, EagerPoke, Unused, Touch;
    PutRefines(k, op);
    ReadsEager(k, q, b, a, x, id, frame);
    ReadsEager(Next(k, op), q, b, a, x, id', frame');
    EagerWrite(Abs(k), op.pid, op.j, op.i, op.at, op.b, q, b, a, x);
    hide Abs, EagerSlot, EagerPage;
    RegionsSeen(k, op.pid, op.j);
    RegionsSeen(k, q, b);
  }

  lemma RegionsSeen(k: Kernel, pid: nat, j: nat)
    requires HasRegion(k, pid, j)
    ensures pid in Abs(k).procs && j < |Abs(k).procs[pid]| && Abs(k).procs[pid][j] == k.procs[pid].regions[j]
  {
  }

  // ---------------------------------------------------------------- new memory and fork

  /** A new mapping is the last region of its process, as it was asked for, and nothing else changes hands. */
  lemma MapGives(k: Kernel, op: Op)
    requires Inv(k) && Enabled(k, op) && op.Mmap?
    ensures var k', n := Next(k, op), |k.procs[op.pid].regions|;
            && k'.procs.Keys == k.procs.Keys && (forall p :: p in k.procs && p != op.pid ==> k'.procs[p] == k.procs[p])
            && |k'.procs[op.pid].regions| == n + 1 && k'.procs[op.pid].regions[..n] == k.procs[op.pid].regions
            && var g := k'.procs[op.pid].regions[n];
               g.pages == op.pages && g.writable == op.writable && g.shared == op.shared
  {
    hide Inv;
  }

  /** A new mapping reads as zeroes. */
  lemma MapReadsZero(k: Kernel, op: Op, i: nat, x: nat, id: nat, frame: nat)
    requires Inv(k) && Enabled(k, op) && op.Mmap? && i < op.pages && x < PAGE_SIZE
    requires Readable(Next(k, op), op.pid, |k.procs[op.pid].regions|, i, id, frame)
    ensures ReadByte(Next(k, op), op.pid, |k.procs[op.pid].regions|, i, x, id, frame) == 0
  {
    hide Inv, ReadByte, Unused, Stores;
    MapAnonRefines(k, op.pid, op.obj, op.pages, op.writable, op.shared);
    ReadsEager(Next(k, op), op.pid, |k.procs[op.pid].regions|, i, x, id, frame);
  }

  /** At a fork the child reads in every region what the parent reads. */
  lemma ForkReads(k: Kernel, op: Op, j: nat, i: nat, x: nat, id: nat, frame: nat, id': nat, frame': nat)
    requires Inv(k) && Enabled(k, op) && op.Spawn? && x < PAGE_SIZE
    requires Readable(k, op.pid, j, i, id, frame) && Readable(Next(k, op), op.child, j, i, id', frame')
    ensures ReadByte(Next(k, op), op.child, j, i, x, id', frame') == ReadByte(k, op.pid, j, i, x, id, frame)
  {
    hide Inv, Next, ReadByte, Unused, EagerOk;
    ForkGives(k, op.pid, op.child, op.objs);
    StepRefines(k, op);
    ReadsEager(k, op.pid, j, i, x, id, frame);
    ReadsEager(Next(k, op), op.child, j, i, x, id', frame');
    var e, e' := Abs(k), Abs(Next(k, op));
    RegionsSeen(k, op.pid, j);
    hide Abs, EagerSlot;
    assert Inherits(e, e', op.pid, op.child, op.objs, j);
    InheritedPage(e, e', op.pid, op.child, op.objs, j, i);
  }

  lemma InheritedPage(e: Eager, e': Eager, pid: nat, child: nat, objs: seq<nat>, j: nat, i: nat)
    requires EagerOk(e, pid) && child in e'.procs && j < |e.procs[pid]| && j < |e'.procs[child]| && j < |objs|
    requires Inherits(e, e', pid, child, objs, j) && i < e.procs[pid][j].pages
    ensures EagerSlot(e, pid, j, i) && EagerSlot(e', child, j, i)
    ensures EagerPage(e', child, j, i) == EagerPage(e, pid, j, i)
  {
    var g, c := e.procs[pid][j], e'.procs[child][j];
    assert e'.stores[c.obj][c.offset..c.offset + c.pages][i] == e.stores[g.obj][g.offset..g.offset + g.pages][i];
  }

  // ---------------------------------------------------------------- isolation

  /** However the other processes run, fork, write and exit, a byte of a region that is writable and not shared is the
      same. */
  lemma RunKeepsPrivate(k: Kernel, ops: seq<Op>, pid: nat, j: nat, i: nat, x: nat, id: nat, frame: nat, id': nat,
          frame': nat)
    requires Inv(k) && Possible(k, ops) && ByOthers(ops, pid) && x < PAGE_SIZE
    requires Readable(k, pid, j, i, id, frame) && Readable(Run(k, ops), pid, j, i, id', frame')
    requires k.procs[pid].regions[j].writable && !k.procs[pid].regions[j].shared
    ensures ReadByte(Run(k, ops), pid, j, i, x, id', frame') == ReadByte(k, pid, j, i, x, id, frame)
  {
    hide Inv, Run, Abs, ReadByte, EagerPage, EagerSlot, Unused;
    RunRefines(k, ops);
    RunIsolated(k, ops, pid, j, i);
    ReadsEager(k, pid, j, i, x, id, frame);
    ReadsEager(Run(k, ops), pid, j, i, x, id', frame');
  }

  /** So what a child writes after a fork, the parent does not read there, and the other way round. */
  lemma ForkSeparates(k: Kernel, op: Op, j: nat)
    requires Inv(k) && Enabled(k, op) && op.Spawn? && HasRegion(k, op.pid, j)
    requires k.procs[op.pid].regions[j].writable && !k.procs[op.pid].regions[j].shared
    ensures var k' := Next(k, op);
            && HasRegion(k', op.pid, j) && HasRegion(k', op.child, j)
            && forall i: nat, a: nat :: !SamePage(k', op.pid, j, i, op.child, j, a)
  {
    hide Inv, Next, EagerOk;
    ForkGives(k, op.pid, op.child, op.objs);
    var e, e' := Abs(k), Abs(Next(k, op));
    assert Inherits(e, e', op.pid, op.child, op.objs, j);
    StepRefines(k, op);
    assert HasRegion(Next(k, op), op.pid, j) && HasRegion(Next(k, op), op.child, j);
    PrivateObject(k, op.pid, j, op.objs);
  }

  lemma PrivateObject(k: Kernel, pid: nat, j: nat, objs: seq<nat>)
    requires Inv(k) && HasRegion(k, pid, j) && NewObjects(k, objs, 0)
    ensures forall n :: 0 <= n < |objs| ==> objs[n] != k.procs[pid].regions[j].obj
  {
    hide Conserved, Single;
    InvParts(k, pid, j);
    hide Inv;
  }

  // ---------------------------------------------------------------- sharing

  /** The two regions map the same object from the same page on. */
  predicate Together(k: Kernel, pid: nat, j: nat, q: nat, b: nat) {
    && HasRegion(k, pid, j) && HasRegion(k, q, b)
    && k.procs[pid].regions[j].obj == k.procs[q].regions[b].obj
    && k.procs[pid].regions[j].offset == k.procs[q].regions[b].offset
  }

  /** A region that is shared, or that cannot be written, is the same for parent and child. */
  lemma ForkShares(k: Kernel, op: Op, j: nat)
    requires Inv(k) && Enabled(k, op) && op.Spawn? && HasRegion(k, op.pid, j)
    requires k.procs[op.pid].regions[j].shared || !k.procs[op.pid].regions[j].writable
    ensures Together(Next(k, op), op.pid, j, op.child, j)
  {
    hide Inv, Next, EagerOk;
    ForkGives(k, op.pid, op.child, op.objs);
    var e, e' := Abs(k), Abs(Next(k, op));
    assert Inherits(e, e', op.pid, op.child, op.objs, j);
  }

  /** No operation moves a region to another object, or to another place in it. */
  lemma StepStays(k: Kernel, op: Op, pid: nat, j: nat)
    requires Inv(k) && Enabled(k, op) && op != Quit(pid) && HasRegion(k, pid, j)
    ensures var k' := Next(k, op);
            && HasRegion(k', pid, j)
            && k'.procs[pid].regions[j].obj == k.procs[pid].regions[j].obj
            && k'.procs[pid].regions[j].offset == k.procs[pid].regions[j].offset
            && k'.procs[pid].regions[j].pages >= k.procs[pid].regions[j].pages
            && k'.procs[pid].regions[j].writable == k.procs[pid].regions[j].writable
            && k'.procs[pid].regions[j].shared == k.procs[pid].regions[j].shared
  {
    hide Inv, Next;
    StepRefines(k, op);
    RegionsSeen(k, pid, j);
    if op.Spawn? {
      hide Inherits, EagerOk;
      ForkGives(k, op.pid, op.child, op.objs);
    } else {
      EagerStays(Abs(k), op, pid, j);
    }
  }

  lemma EagerStays(e: Eager, op: Op, pid: nat, j: nat)
    requires pid in e.procs && j < |e.procs[pid]| && op != Quit(pid) && !op.Spawn?
    ensures var e' := EagerNext(e, op);
            && pid in e'.procs && j < |e'.procs[pid]|
            && e'.procs[pid][j].obj == e.procs[pid][j].obj && e'.procs[pid][j].offset == e.procs[pid][j].offset
            && e'.procs[pid][j].pages >= e.procs[pid][j].pages
            && e'.procs[pid][j].writable == e.procs[pid][j].writable
            && e'.procs[pid][j].shared == e.procs[pid][j].shared
  {
  }

  lemma {:induction false} RunTogether(k: Kernel, ops: seq<Op>, pid: nat, j: nat, q: nat, b: nat)
    requires Inv(k) && Possible(k, ops) && Quit(pid) !in ops && Quit(q) !in ops && Together(k, pid, j, q, b)
    ensures Together(Run(k, ops), pid, j, q, b)
    decreases |ops|
  {
    hide Inv, Next, Enabled, Abs;
    if ops != [] {
      assert ops[0] in ops && forall op :: op in ops[1..] ==> op in ops;
      StepRefines(k, ops[0]);
      StepStays(k, ops[0], pid, j);
      StepStays(k, ops[0], q, b);
      RunTogether(Next(k, ops[0]), ops[1..], pid, j, q, b);
    }
  }

  /** After a fork, in every run in which neither exits, parent and child go on reading the same in a region that is
      shared. */
  lemma RunShares(k: Kernel, op: Op, ops: seq<Op>, j: nat, i: nat, x: nat, id: nat, frame: nat)
    requires Inv(k) && Enabled(k, op) && op.Spawn? && HasRegion(k, op.pid, j) && k.procs[op.pid].regions[j].shared
    requires Possible(Next(k, op), ops) && Quit(op.pid) !in ops && Quit(op.child) !in ops && x < PAGE_SIZE
    requires var r := Run(Next(k, op), ops);
             Readable(r, op.pid, j, i, id, frame) && Readable(r, op.child, j, i, id, frame)
    ensures var r := Run(Next(k, op), ops);
            && SamePage(r, op.pid, j, i, op.child, j, i)
            && ReadByte(r, op.child, j, i, x, id, frame) == ReadByte(r, op.pid, j, i, x, id, frame)
  {
    hide Inv, Next, Run, Abs, ReadByte, EagerSlot, Unused;
    var k1 := Next(k, op);
    StepRefines(k, op);
    ForkShares(k, op, j);
    RunTogether(k1, ops, op.pid, j, op.child, j);
    RunRefines(k1, ops);
    var r := Run(k1, ops);
    ReadsEager(r, op.pid, j, i, x, id, frame);
    ReadsEager(r, op.child, j, i, x, id, frame);
    RegionsSeen(r, op.pid, j);
    RegionsSeen(r, op.child, j);
  }

  /** So what either of them writes there then, the other reads. */
  lemma SharedWriteSeen(k: Kernel, op: Op, ops: seq<Op>, w: Op, j: nat, i: nat, id: nat, frame: nat)
    requires Inv(k) && Enabled(k, op) && op.Spawn? && HasRegion(k, op.pid, j) && k.procs[op.pid].regions[j].shared
    requires Possible(Next(k, op), ops) && Quit(op.pid) !in ops && Quit(op.child) !in ops
    requires w.Put? && w.j == j && w.i == i && (w.pid == op.pid || w.pid == op.child)
    requires Enabled(Run(Next(k, op), ops), w)
    requires var r := Next(Run(Next(k, op), ops), w);
             Readable(r, op.pid, j, i, id, frame) && Readable(r, op.child, j, i, id, frame)
    ensures var r := Next(Run(Next(k, op), ops), w);
            ReadByte(r, op.child, j, i, w.at, id, frame) == ReadByte(r, op.pid, j, i, w.at, id, frame) == w.b
  {
    hide Inv, Next, Run, Abs, ReadByte, EagerSlot, Unused, Touch, EagerPoke;
    var k1 := Next(k, op);
    StepRefines(k, op);
    ForkShares(k, op, j);
    RunTogether(k1, ops, op.pid, j, op.child, j);
    RunRefines(k1, ops);
    var r := Run(k1, ops);
    WriteReadBack(r, w, op.pid, j, i, id, frame);
    WriteReadBack(r, w, op.child, j, i, id, frame);
  }

  lemma WriteReadBack(k: Kernel, w: Op, q: nat, b: nat, a: nat, id: nat, frame: nat)
    requires Inv(k) && Enabled(k, w) && w.Put? && HasRegion(k, q, b) && SamePage(k, w.pid, w.j, w.i, q, b, a)
    requires Readable(Next(k, w), q, b, a, id, frame)
    ensures ReadByte(Next(k, w), q, b, a, w.at, id, frame) == w.b
  {
    hide Inv, Next, ReadByte, Unused, Touch;
    PutRefines(k, w);
    ReadsEager(Next(k, w), q, b, a, w.at, id, frame);
    RegionsSeen(k, w.pid, w.j);
    RegionsSeen(k, q, b);
    EagerWrite(Abs(k), w.pid, w.j, w.i, w.at, w.b, q, b, a, w.at);
    hide Abs, EagerPoke;
  }

  // ---------------------------------------------------------------- memory as its history

  lemma EagerStepReads(e: Eager, op: Op, q: nat, b: nat, a: nat)
    requires EagerSlot(e, q, b, a) && !op.Put? && !op.Spawn? && op != Quit(q) && (op.Mmap? ==> op.obj !in e.stores)
    ensures EagerSlot(EagerNext(e, op), q, b, a) && EagerPage(EagerNext(e, op), q, b, a) == EagerPage(e, q, b, a)
  {
    if op.Quit? { assert (e.procs - {op.pid})[q][b].obj == e.procs[q][b].obj; }
  }

  lemma StillCanUse(k: Kernel, op: Op, q: nat, b: nat, a: nat)
    requires Inv(k) && Enabled(k, op) && op != Quit(q) && CanUse(k, q, b, a)
    ensures CanUse(Next(k, op), q, b, a)
  {
    hide Inv, Next, Abs, Conserved, Single;
    StepRefines(k, op);
    StepStays(k, op, q, b);
    InvParts(Next(k, op), q, b);
  }

  lemma PutReads(k: Kernel, op: Op, q: nat, b: nat, a: nat, x: nat)
    requires Inv(k) && Enabled(k, op) && op.Put? && CanUse(k, q, b, a) && x < PAGE_SIZE
    ensures EagerSlot(Abs(k), q, b, a) && EagerSlot(Abs(Next(k, op)), q, b, a)
    ensures EagerPage(Abs(Next(k, op)), q, b, a)[x] == Written(k, op, q, b, a, x, EagerPage(Abs(k), q, b, a)[x])
  {
    hide Inv, Next, Abs, EagerPoke, EagerPage, EagerSlot, Unused, Touch;
    UsableEager(k, q, b, a);
    PutRefines(k, op);
    RegionsSeen(k, q, b);
    RegionsSeen(k, op.pid, op.j);
    EagerWrite(Abs(k), op.pid, op.j, op.i, op.at, op.b, q, b, a, x);
  }

  /** What one operation does to what a process reads: it shows if and only if it writes that byte of that page. */
  lemma StepReads(k: Kernel, op: Op, q: nat, b: nat, a: nat, x: nat)
    requires Inv(k) && Enabled(k, op) && op != Quit(q) && CanUse(k, q, b, a) && x < PAGE_SIZE
    ensures EagerSlot(Abs(k), q, b, a) && CanUse(Next(k, op), q, b, a) && EagerSlot(Abs(Next(k, op)), q, b, a)
    ensures EagerPage(Abs(Next(k, op)), q, b, a)[x] == Written(k, op, q, b, a, x, EagerPage(Abs(k), q, b, a)[x])
  {
    StillCanUse(k, op, q, b, a);
    if op.Put? {
      PutReads(k, op, q, b, a, x);
    } else {
      hide Inv, Next, Abs, EagerNext, EagerPage, EagerSlot, Inherits, EagerOk, Unused;
      UsableEager(k, q, b, a);
      if op.Spawn? {
        ForkGives(k, op.pid, op.child, op.objs);
        ForkIsolated(Abs(k), Abs(Next(k, op)), op.pid, op.child, op.objs, q, b, a);
      } else {
        StepRefines(k, op);
        if op.Mmap? { ObjectIsNew(k, op); }
        EagerStepReads(Abs(k), op, q, b, a);
      }
    }
  }

  lemma ObjectIsNew(k: Kernel, op: Op)
    requires Enabled(k, op) && op.Mmap?
    ensures op.obj !in Abs(k).stores
  {
  }

  /** The byte after an operation, if it was v before. */
  ghost function Written(k: Kernel, op: Op, q: nat, b: nat, a: nat, x: nat, v: byte): (r: byte)
    requires HasRegion(k, q, b) && Enabled(k, op)
  {
    if op.Put? && SamePage(k, op.pid, op.j, op.i, q, b, a) && x == op.at then op.b else v
  }

  /** The byte last written to the page in a run, by whoever has it, or v if it was not written. */
  ghost function LastWritten(k: Kernel, ops: seq<Op>, q: nat, b: nat, a: nat, x: nat, v: byte): (r: byte)
    requires Possible(k, ops)
    decreases |ops|
  {
    if ops == [] || !HasRegion(k, q, b) then v
    else LastWritten(Next(k, ops[0]), ops[1..], q, b, a, x, Written(k, ops[0], q, b, a, x, v))
  }

  lemma {:induction false} RunLastWritten(k: Kernel, ops: seq<Op>, q: nat, b: nat, a: nat, x: nat)
    requires Inv(k) && Possible(k, ops) && Quit(q) !in ops && CanUse(k, q, b, a) && x < PAGE_SIZE
    ensures EagerSlot(Abs(k), q, b, a) && EagerSlot(Abs(Run(k, ops)), q, b, a)
    ensures EagerPage(Abs(Run(k, ops)), q, b, a)[x] ==
            LastWritten(k, ops, q, b, a, x, EagerPage(Abs(k), q, b, a)[x])
    decreases |ops|
  {
    hide Inv, Next, Enabled, Abs, EagerSlot, EagerPage, Written, RegionOk;
    UsableEager(k, q, b, a);
    if ops != [] {
      assert ops[0] in ops && forall op :: op in ops[1..] ==> op in ops;
      StepRefines(k, ops[0]);
      StepReads(k, ops[0], q, b, a, x);
      RunLastWritten(Next(k, ops[0]), ops[1..], q, b, a, x);
    }
  }

  /** In every run, what a process reads is the byte last written to that page by a process that has it, and what was
      there at the start if none was. */
  lemma MemoryIsHistory(k: Kernel, ops: seq<Op>, q: nat, b: nat, a: nat, x: nat, id: nat, frame: nat, id': nat,
          frame': nat)
    requires Inv(k) && Possible(k, ops) && Quit(q) !in ops && x < PAGE_SIZE
    requires Readable(k, q, b, a, id, frame) && Readable(Run(k, ops), q, b, a, id', frame')
    ensures ReadByte(Run(k, ops), q, b, a, x, id', frame') ==
            LastWritten(k, ops, q, b, a, x, ReadByte(k, q, b, a, x, id, frame))
  {
    hide Inv, Run, Abs, ReadByte, EagerSlot, EagerPage, Unused, LastWritten;
    RunRefines(k, ops);
    RunLastWritten(k, ops, q, b, a, x);
    ReadsEager(k, q, b, a, x, id, frame);
    ReadsEager(Run(k, ops), q, b, a, x, id', frame');
  }
}
