/** Seeking to a block by number (kernel/fs/ext2.c), and what the walk does from there. */
module Ext2Seek {
  import opened Common
  import opened Ext2Blocks
  import opened Ext2Iterator

  /** The pointer to the block of level l on the way to the target: from the inode for the top level, from the
      block above otherwise. */
  function PointerFor(ino: Inode, it: Iter, l: nat): (r: nat)
    requires Usable(ino, it) && l < 3
  {
    if l >= it.level then ino.block[12 + l]
    else if it.indexes[l + 1] < |it.blocks[l + 1]| then it.blocks[l + 1][it.indexes[l + 1]]
    else 0
  }

  /** Loads the blocks of levels l down to 0 on the way to entry `rest` of the tree. */
  function Load(ino: Inode, it: Iter, l: int, rest: nat): (r: Status)
    requires Usable(ino, it) && l <= it.level && 0 < ino.fanout
    ensures r.Go? ==>
              Usable(ino, r.it) && r.it.level == it.level && r.it.indirect == it.indirect && r.it.offset == it.offset
    decreases l + 1
  {
    if l < 0 then Go(it)
    else
      var p := PointerFor(ino, it, l);
      if p == 0 then Stop
      else match ino.read(p)
           case None => Fail
           case Some(d) =>
             var w := Power(ino.fanout, l);
             Load(ino, it.(blocks := it.blocks[l := d], limits := it.limits[l := ino.fanout],
                           indexes := it.indexes[l := Div(rest, w)]), l - 1, Mod(rest, w))
  }

  /** Seeks to block n: finds its area and loads the blocks on the way. */
  function Seek(ino: Inode, it: Iter, n: nat): (r: Status)
    requires Usable(ino, it) && 0 < ino.fanout
  {
    var b := ino.fanout;
    var start2, start3 := DIRECT + b, DIRECT + b + Power(b, 2);
    var at := it.(offset := Mul(n, ino.blockSize));
    if n < DIRECT then
      Go(at.(level := 0, indirect := false, limits := it.limits[0 := DIRECT], indexes := it.indexes[0 := n]))
    else if n < start2 then Load(ino, at.(level := 0, indirect := true), 0, n - DIRECT)
    else if n < start3 then Load(ino, at.(level := 1, indirect := true), 1, n - start2)
    else if n < start3 + Power(b, 3) then Load(ino, at.(level := 2, indirect := true), 2, n - start3)
    else Stop
  }

  // ---------------------------------------------------------------- where a seek ends

  lemma PowerZero(b: nat)
    requires 0 < b
    ensures Power(b, 0) == 1
  {
  }

  /** What a seek has to come to, given the position sought. */
  ghost predicate Reaches(ino: Inode, r: Status, p: Pos, offset: nat)
    requires |ino.block| == 15
  {
    match r
    case Go(it) => Stands(ino, it, p, true, true) && it.offset == offset && EntryAt(ino, p) != Broken
    case Stop => EntryAt(ino, p) == Hole
    case Fail => EntryAt(ino, p) == Broken
  }

  lemma LoadSingle(ino: Inode, it: Iter, k: nat)
    requires WellFormed(ino) && Usable(ino, it) && it.level == 0 && it.indirect && k < ino.fanout
    ensures Reaches(ino, Load(ino, it, 0, k), Single(k), it.offset)
  {
    PowerZero(ino.fanout);
    DivOne(k);
    hide Power, Div, Mod;
    var p := ino.block[12];
    if p != 0 && ino.read(p).Some? {
      var it1 := it.(blocks := it.blocks[0 := ino.read(p).value], limits := it.limits[0 := ino.fanout],
                     indexes := it.indexes[0 := k]);
      assert Load(ino, it, 0, k) == Load(ino, it1, -1, 0) == Go(it1);
    }
  }

  /** The lowest level: entry k of the block that the level above points at. */
  lemma LoadLeaf(ino: Inode, it: Iter, k: nat)
    requires WellFormed(ino) && Usable(ino, it) && 1 <= it.level && k < ino.fanout && it.indexes[1] < |it.blocks[1]|
    ensures var p := it.blocks[1][it.indexes[1]];
            Load(ino, it, 0, k) ==
            if p == 0 then Stop
            else match ino.read(p)
                 case None => Fail
                 case Some(d) => Go(it.(blocks := it.blocks[0 := d], limits := it.limits[0 := ino.fanout],
                                        indexes := it.indexes[0 := k]))
  {
    PowerZero(ino.fanout);
    DivOne(k);
    hide Power, Div, Mod;
    var p := it.blocks[1][it.indexes[1]];
    if p != 0 && ino.read(p).Some? {
      var it1 := it.(blocks := it.blocks[0 := ino.read(p).value], limits := it.limits[0 := ino.fanout],
                     indexes := it.indexes[0 := k]);
      assert Load(ino, it, 0, k) == Load(ino, it1, -1, 0) == Go(it1);
    }
  }

  /** One level of loading. */
  function Loaded(ino: Inode, it: Iter, l: nat, d: seq<nat>, i: nat): (r: Iter)
    requires Usable(ino, it) && l < 3
  {
    it.(blocks := it.blocks[l := d], limits := it.limits[l := ino.fanout], indexes := it.indexes[l := i])
  }

  lemma LoadOne(ino: Inode, it: Iter, l: nat, rest: nat, i: nat, rest': nat)
    requires Usable(ino, it) && l <= it.level && 0 < ino.fanout
    requires Div(rest, Power(ino.fanout, l)) == i && Mod(rest, Power(ino.fanout, l)) == rest'
    ensures var p := PointerFor(ino, it, l);
            Load(ino, it, l, rest) ==
            if p == 0 then Stop
            else match ino.read(p) case None => Fail case Some(d) => Load(ino, Loaded(ino, it, l, d, i), l - 1, rest')
  {
    hide Power, Div, Mod;
  }

  lemma LoadMid(ino: Inode, it: Iter, j: nat, k: nat)
    requires WellFormed(ino) && Usable(ino, it) && 1 <= it.level && it.indirect && j < ino.fanout && k < ino.fanout
    ensures var p := PointerFor(ino, it, 1);
            Load(ino, it, 1, Mul(j, ino.fanout) + k) ==
            if p == 0 then Stop
            else match ino.read(p)
                 case None => Fail
                 case Some(d) =>
                   if d[j] == 0 then Stop
                   else match ino.read(d[j])
                        case None => Fail
                        case Some(e) => Go(Loaded(ino, Loaded(ino, it, 1, d, j), 0, e, k))
  {
    hide Load, Power, Div, Mod, Mul;
    Powers(ino.fanout);
    Split(j, k, ino.fanout);
    LoadOne(ino, it, 1, Mul(j, ino.fanout) + k, j, k);
    var p := PointerFor(ino, it, 1);
    if p != 0 && ino.read(p).Some? { LoadLeaf(ino, Loaded(ino, it, 1, ino.read(p).value, j), k); }
  }

  lemma LoadDouble(ino: Inode, it: Iter, j: nat, k: nat)
    requires WellFormed(ino) && Usable(ino, it) && it.level == 1 && it.indirect && j < ino.fanout && k < ino.fanout
    ensures Reaches(ino, Load(ino, it, 1, Mul(j, ino.fanout) + k), Double(j, k), it.offset)
  {
    hide Load, Mul;
    LoadMid(ino, it, j, k);
  }

  lemma SplitSquare(m: nat, j: nat, k: nat, b: nat)
    requires j < b && k < b
    ensures Div(Mul(Mul(m, b) + j, b) + k, Power(b, 2)) == m
    ensures Mod(Mul(Mul(m, b) + j, b) + k, Power(b, 2)) == Mul(j, b) + k
  {
    hide Power, Div, Mod, Mul;
    Powers(b);
    Below(j, k, b, b);
    SquareSum(m, j, k, b);
    Split(m, Mul(j, b) + k, Mul(b, b));
  }

  lemma LoadTriple(ino: Inode, it: Iter, m: nat, j: nat, k: nat)
    requires WellFormed(ino) && Usable(ino, it) && it.level == 2 && it.indirect && m < ino.fanout && j < ino.fanout
    requires k < ino.fanout
    ensures Reaches(ino, Load(ino, it, 2, Mul(Mul(m, ino.fanout) + j, ino.fanout) + k), Triple(m, j, k), it.offset)
  {
    hide Load, Mul, Power, Div, Mod;
    var b := ino.fanout;
    SplitSquare(m, j, k, b);
    LoadOne(ino, it, 2, Mul(Mul(m, b) + j, b) + k, m, Mul(j, b) + k);
    var p := ino.block[14];
    if p != 0 && ino.read(p).Some? { LoadMid(ino, Loaded(ino, it, 2, ino.read(p).value, m), j, k); }
  }

  /** A seek to block n ends at the n-th position, or says that it is missing or unreadable. */
  lemma SeekReaches(ino: Inode, it: Iter, n: nat)
    requires WellFormed(ino) && Usable(ino, it) && n < Index(ino.fanout, Past)
    ensures Reaches(ino, Seek(ino, it, n), PosOf(ino.fanout, n), Mul(n, ino.blockSize))
  {
    hide Mul, Div, Mod, Power, Load;
    var b, p := ino.fanout, PosOf(ino.fanout, n);
    PosInRange(b, n);
    var at := it.(offset := Mul(n, ino.blockSize));
    match p
    case Direct(k) =>
    case Single(k) => LoadSingle(ino, at.(level := 0, indirect := true), k);
    case Double(j, k) => LoadDouble(ino, at.(level := 1, indirect := true), j, k);
    case Triple(m, j, k) => LoadTriple(ino, at.(level := 2, indirect := true), m, j, k);
    case Past =>
  }

  /** Seek and then next: entry n. */
  lemma SeekThenNext(ino: Inode, it: Iter, n: nat)
    requires WellFormed(ino) && Usable(ino, it) && n < Index(ino.fanout, Past) && Mul(n, ino.blockSize) < ino.size
    ensures match Seek(ino, it, n)
            case Go(it') => Usable(ino, it') && Replies(Next(ino, it'), Flat(ino, n))
            case Stop => Flat(ino, n) == Hole
            case Fail => Flat(ino, n) == Broken
  {
    hide Mul, Seek, Next, Flat, EntryAt, Index;
    SeekReaches(ino, it, n);
    FlatAt(ino, n);
    PosInRange(ino.fanout, n);
    match Seek(ino, it, n)
    case Go(it') =>
      var p := PosOf(ino.fanout, n);
      StandsUsable(ino, it', p, true, true);
      FirstReply(ino, it', p, true, true);
      assert Onward(ino.fanout, p, true, true) == p;
    case Stop =>
    case Fail =>
  }

  // ---------------------------------------------------------------- the walk after a seek

  function Shifted(p: Pos, i: nat): (r: Pos) {
    match p
    case Direct(k) => Direct(k + i)
    case Single(k) => Single(k + i)
    case Double(j, k) => Double(j, k + i)
    case Triple(m, j, k) => Triple(m, j, k + i)
    case Past => Past
  }

  function LeafStart(p: Pos): (r: Pos) {
    match p
    case Direct(k) => Direct(0)
    case Single(k) => Single(0)
    case Double(j, k) => Double(j, 0)
    case Triple(m, j, k) => Triple(m, j, 0)
    case Past => Past
  }

  predicate Deep(p: Pos) { p.Double? || p.Triple? }

  /** Within its leaf a walk takes one entry after the other, whatever the indexes above. */
  lemma {:induction false} LeafTrace(b: nat, p: Pos, late1: bool, late2: bool, i: nat)
    requires Deep(p) && p.k + i < b
    ensures Trace(b, p, late1, late2, i) == Shifted(p, i)
    decreases i
  {
    if i > 0 { LeafTrace(b, Bumped(p), late1, StillLate(b, p, late1, late2), i - 1); }
  }

  /** Behind the leaf's end. */
  lemma {:induction false} LeafEnds(b: nat, p: Pos, late1: bool, late2: bool, i: nat)
    requires Deep(p) && p.k <= b && b <= p.k + i
    ensures Trace(b, p, late1, late2, i) ==
            Trace(b, Shifted(p, b - p.k), late1, if p.Triple? then late2 else false, p.k + i - b)
         || p.k == b
    decreases i
  {
    if p.k < b {
      assert i > 0;
      if p.k + 1 < b {
        LeafEnds(b, Bumped(p), late1, StillLate(b, p, late1, late2), i - 1);
      }
    }
  }

  /** The number of the first entry behind the middle block of a position in the tree of height three. */
  function MidEnd(b: nat, p: Pos): (r: nat)
    requires 0 < b && p.Triple?
  {
    Index(b, Triple(p.m, 0, 0)) + Power(b, 2)
  }

  lemma IndexInMid(b: nat, p: Pos)
    requires InRange(b, p) && p.Triple?
    ensures Index(b, p) == Index(b, Triple(p.m, 0, 0)) + Mul(p.j, b) + p.k
    ensures Index(b, p) < MidEnd(b, p)
  {
    hide Mul, Power;
    Powers(b);
    MulZero(b);
    SquareSum(p.m, p.j, p.k, b);
    SquareSum(p.m, 0, 0, b);
    Below(p.j, p.k, b, b);
  }

  lemma LastInMid(b: nat, p: Pos)
    requires InRange(b, p) && p.Triple? && p.j + 1 == b && p.k + 1 == b
    ensures Index(b, p) + 1 == MidEnd(b, p)
  {
    hide Mul, Power, Index;
    Powers(b);
    IndexInMid(b, p);
    NextMul(p.j, b);
  }

  /** With the middle index late and the leaf index in step, a walk takes one entry after the other to the end of
      the middle block, and then that block comes again. */
  lemma {:induction false} MidTrace(b: nat, p: Pos, i: nat)
    requires InRange(b, p) && p.Triple?
    ensures var n := Index(b, p) + 1 + i;
            Trace(b, Bumped(p), false, true, i) == PosOf(b, if n < MidEnd(b, p) then n else n - Power(b, 2))
    decreases i
  {
    hide Index, PosOf, Power;
    var q := Onward(b, Bumped(p), false, true);
    if p.j + 1 == b && p.k + 1 == b {
      LastInMid(b, p);
      PosIs(b, q);
      if i > 0 { TraceFrom(b, q, i - 1); }
    } else {
      OnwardNext(b, p);
      IndexInMid(b, q);
      PosIs(b, q);
      if i > 0 { MidTrace(b, q, i - 1); }
    }
  }

  /** The entry that comes i calls after a seek to p in a tree of height two or three: the right one to the end
      of the leaf; from then on a leaf behind; and in the tree of height three, from the end of the middle block
      on, a middle block further behind. */
  function WalkIndex(b: nat, p: Pos, i: nat): (r: nat)
    requires 0 < b && Deep(p)
  {
    var n := Index(b, p) + i;
    if i < b - p.k then n
    else if p.Double? || n - b < MidEnd(b, p) then n - b
    else n - b - Power(b, 2)
  }

  lemma ShiftedIndex(b: nat, p: Pos, i: nat)
    requires 0 < b && p != Past
    ensures Index(b, Shifted(p, i)) == Index(b, p) + i
  {
  }

  /** Behind the leaf's end the leaf begins again. */
  lemma LeafAgain(b: nat, p: Pos, i: nat)
    requires Deep(p) && InRange(b, p) && b - p.k <= i
    ensures Trace(b, p, true, true, i) ==
            if i == b - p.k then LeafStart(p) else Trace(b, Bumped(LeafStart(p)), false, p.Triple?, p.k + i - b - 1)
  {
    LeafEnds(b, p, true, true, i);
  }

  lemma SeekTrace(b: nat, p: Pos, i: nat)
    requires Deep(p) && InRange(b, p)
    ensures Trace(b, p, true, true, i) == PosOf(b, WalkIndex(b, p, i))
  {
    hide Index, PosOf, Power, Trace;
    var q := LeafStart(p);
    ShiftedIndex(b, q, p.k);
    if i < b - p.k {
      LeafTrace(b, p, true, true, i);
      ShiftedIndex(b, p, i);
      PosIs(b, Shifted(p, i));
    } else {
      LeafAgain(b, p, i);
      PosIs(b, q);
      var n := p.k + i - b;
      if p.Triple? { IndexInMid(b, q); }
      if n > 0 {
        if p.Triple? { MidTrace(b, q, n - 1); } else { TraceFrom(b, q, n - 1); }
      }
    }
  }

  /** The same by number, for every call after the seek. */
  lemma SeekRun(ino: Inode, it: Iter, n: nat, i: nat)
    requires WellFormed(ino) && Usable(ino, it) && n < Index(ino.fanout, Past) && Deep(PosOf(ino.fanout, n))
    requires Seek(ino, it, n).Go? && Usable(ino, Seek(ino, it, n).it) && After(ino, Seek(ino, it, n).it, i).Some?
    requires Mul(n, ino.blockSize) + Mul(i, ino.blockSize) < ino.size
    ensures Replies(Next(ino, After(ino, Seek(ino, it, n).it, i).value),
                    Flat(ino, WalkIndex(ino.fanout, PosOf(ino.fanout, n), i)))
  {
    hide Mul, Seek, Next, Flat, EntryAt, Index, Power, Div, Mod, WalkIndex;
    var b, p, at := ino.fanout, PosOf(ino.fanout, n), Seek(ino, it, n).it;
    SeekReaches(ino, it, n);
    PosInRange(b, n);
    RunTraces(ino, at, p, true, true, i);
    SeekTrace(b, p, i);
    FlatAt(ino, WalkIndex(b, p, i));
  }

  /** So the walk after such a seek is the rest of the file exactly to the end of the leaf. */
  lemma SeekRunExact(b: nat, n: nat, i: nat)
    requires 0 < b && Deep(PosOf(b, n))
    ensures WalkIndex(b, PosOf(b, n), i) == n + i <==> i < b - PosOf(b, n).k
  {
    hide PosOf, Power;
    PosInRange(b, n);
  }

  /** Among the direct blocks and in the tree of height one there is no index to be late. */
  lemma {:induction false} ShallowTrace(b: nat, p: Pos, late1: bool, late2: bool, i: nat)
    requires p.Direct? || p.Single?
    ensures Trace(b, p, late1, late2, i) == Trace(b, p, false, false, i)
    decreases i
  {
    var q := Onward(b, p, late1, late2);
    if i > 0 && !q.Double? { ShallowTrace(b, Bumped(q), late1 && !UsedUp(b, p), false, i - 1); }
  }

  /** There a seek is followed by exactly the rest of the file. */
  lemma SeekShallow(ino: Inode, it: Iter, n: nat, i: nat)
    requires WellFormed(ino) && Usable(ino, it) && n < DIRECT + ino.fanout
    requires Seek(ino, it, n).Go? && Usable(ino, Seek(ino, it, n).it) && After(ino, Seek(ino, it, n).it, i).Some?
    requires Mul(n, ino.blockSize) + Mul(i, ino.blockSize) < ino.size
    ensures Replies(Next(ino, After(ino, Seek(ino, it, n).it, i).value), Flat(ino, n + i))
  {
    hide Mul, Seek, Next, Flat, EntryAt, Power, Div, Mod;
    var b, p, at := ino.fanout, PosOf(ino.fanout, n), Seek(ino, it, n).it;
    SeekReaches(ino, it, n);
    PosInRange(b, n);
    RunTraces(ino, at, p, true, true, i);
    ShallowTrace(b, p, true, true, i);
    if i > 0 { TraceFrom(b, p, i - 1); }
    FlatAt(ino, n + i);
  }
}
