/** The incremental walk over an inode's blocks in read mode (kernel/fs/ext2.c): indirect blocks are kept per level
    and refilled from the level above when they are used up. */
module Ext2Iterator {
  import opened Common
  import opened Ext2Blocks

  /** `level` is the height of the current tree less one; `indirect` says whether the direct blocks are done. */
  datatype Iter = Iter(level: nat, indirect: bool, offset: nat, limits: seq<nat>, indexes: seq<nat>,
      blocks: seq<seq<nat>>)

  ghost predicate Shaped(it: Iter) { |it.limits| == 3 && |it.indexes| == 3 && |it.blocks| == 3 && it.level < 3 }

  datatype Status = Go(it: Iter) | Stop | Fail

  function Fresh(): (r: Iter) { Iter(0, false, 0, [DIRECT, 0, 0], [0, 0, 0], [[], [], []]) }

  /** Every block from level 0 up to l is used up. */
  predicate Finished(it: Iter, l: nat)
    requires |it.limits| == 3 && |it.indexes| == 3 && l < 3
  {
    forall i :: 0 <= i <= l ==> it.indexes[i] >= it.limits[i]
  }

  /** Takes the next block of level l from the block above it. */
  function Refill(ino: Inode, it: Iter, l: nat): (r: Status)
    requires Shaped(it) && l < 2
    ensures r.Go? ==> Shaped(r.it) && r.it.level == it.level && r.it.indirect == it.indirect
  {
    var i := it.indexes[l + 1];
    if i >= |it.blocks[l + 1]| || it.blocks[l + 1][i] == 0 then Stop
    else match ino.read(it.blocks[l + 1][i])
         case None => Fail
         case Some(d) => Go(it.(indexes := it.indexes[l + 1 := i + 1][l := 0], blocks := it.blocks[l := d]))
  }

  /** Starts the tree of height l + 1. */
  function Enter(ino: Inode, it: Iter, l: nat): (r: Status)
    requires Shaped(it) && |ino.block| == 15
    ensures r.Go? ==> Shaped(r.it) && l < 3 && r.it.level == l && r.it.indirect
  {
    if l >= 3 || ino.block[12 + l] == 0 then Stop
    else match ino.read(ino.block[12 + l])
         case None => Fail
         case Some(d) =>
           Go(Iter(l, true, it.offset, it.limits[l := ino.fanout], it.indexes[l := 0], it.blocks[l := d]))
  }

  datatype Scan = Ready(it: Iter) | Again(it: Iter) | Ended | Failed

  function Rank(it: Iter): (r: nat) { if it.indirect then it.level + 1 else 0 }

  /** From level l down: a level that is used up is refilled, or if it is the top one the next tree is entered. */
  function Down(ino: Inode, it: Iter, l: int): (r: Scan)
    requires Shaped(it) && |ino.block| == 15 && l <= it.level && (!it.indirect ==> it.level == 0)
    ensures r.Ready? ==> Shaped(r.it)
    ensures r.Again? ==> Shaped(r.it) && Rank(it) < Rank(r.it) <= 3 && r.it.indirect
    decreases l + 1
  {
    if l < 0 then Ready(it)
    else if !Finished(it, l) then Down(ino, it, l - 1)
    else if l < it.level then
      match Refill(ino, it, l)
      case Go(it') => Down(ino, it', l - 1)
      case Stop => Ended
      case Fail => Failed
    else
      match Enter(ino, it, if it.indirect then l + 1 else 0)
      case Go(it') => Again(it')
      case Stop => Ended
      case Fail => Failed
  }

  datatype Reply = Block(block: nat, it: Iter) | End | IoError

  /** The pointer at the current place. */
  function Take(ino: Inode, it: Iter): (r: Reply)
    requires Shaped(it) && |ino.block| == 15
  {
    var data := if it.indirect then it.blocks[0] else ino.block;
    var i := it.indexes[0];
    if i >= |data| || data[i] == 0 then End
    else Block(data[i], it.(indexes := it.indexes[0 := i + 1], offset := it.offset + ino.blockSize))
  }

  function Next(ino: Inode, it: Iter): (r: Reply)
    requires Shaped(it) && |ino.block| == 15 && (!it.indirect ==> it.level == 0)
    decreases 3 - Rank(it)
  {
    if it.offset >= ino.size then End
    else match Down(ino, it, it.level)
         case Ended => End
         case Failed => IoError
         case Ready(it') => Take(ino, it')
         case Again(it') => Next(ino, it')
  }

  // ---------------------------------------------------------------- where an iterator stands

  /** The blocks kept are the ones on the way to the position, and level 0 has used k entries. A scan keeps the
      index above a block one past it; after a seek it is still at it (`late1`, `late2`). */
  ghost predicate Stands(ino: Inode, it: Iter, p: Pos, late1: bool, late2: bool) {
    && Shaped(it) && WellFormed(ino)
    && match p
       case Direct(k) => !it.indirect && it.level == 0 && it.limits[0] == DIRECT && it.indexes[0] == k <= DIRECT
       case Single(k) =>
         && it.indirect && it.level == 0 && it.limits[0] == ino.fanout && it.indexes[0] == k <= ino.fanout
         && ino.block[12] != 0 && ino.read(ino.block[12]) == Some(it.blocks[0])
       case Double(j, k) =>
         && it.indirect && it.level == 1 && it.limits[0] == ino.fanout && it.limits[1] == ino.fanout
         && it.indexes[0] == k <= ino.fanout && j < ino.fanout && it.indexes[1] == (if late1 then j else j + 1)
         && ino.block[13] != 0 && ino.read(ino.block[13]) == Some(it.blocks[1])
         && it.blocks[1][j] != 0 && ino.read(it.blocks[1][j]) == Some(it.blocks[0])
       case Triple(m, j, k) =>
         && it.indirect && it.level == 2 && it.limits[0] == ino.fanout && it.limits[1] == ino.fanout
         && it.limits[2] == ino.fanout
         && it.indexes[0] == k <= ino.fanout && j < ino.fanout && it.indexes[1] == (if late1 then j else j + 1)
         && m < ino.fanout && it.indexes[2] == (if late2 then m else m + 1)
         && ino.block[14] != 0 && ino.read(ino.block[14]) == Some(it.blocks[2])
         && it.blocks[2][m] != 0 && ino.read(it.blocks[2][m]) == Some(it.blocks[1])
         && it.blocks[1][j] != 0 && ino.read(it.blocks[1][j]) == Some(it.blocks[0])
       case Past => false
  }

  /** Where the next entry comes from. A late index makes the block just used up come again. */
  function Onward(b: nat, p: Pos, late1: bool, late2: bool): (r: Pos) {
    match p
    case Direct(k) => if k < DIRECT then p else Single(0)
    case Single(k) => if k < b then p else Double(0, 0)
    case Double(j, k) =>
      if k < b then p
      else if late1 then Double(j, 0)
      else if j + 1 < b then Double(j + 1, 0)
      else Triple(0, 0, 0)
    case Triple(m, j, k) =>
      if k < b then p
      else if late1 then Triple(m, j, 0)
      else if j + 1 < b then Triple(m, j + 1, 0)
      else if late2 then Triple(m, 0, 0)
      else if m + 1 < b then Triple(m + 1, 0, 0)
      else Past
    case Past => Past
  }

  /** A position one entry further in the same block. */
  function Bumped(p: Pos): (r: Pos) {
    match p
    case Direct(k) => Direct(k + 1)
    case Single(k) => Single(k + 1)
    case Double(j, k) => Double(j, k + 1)
    case Triple(m, j, k) => Triple(m, j, k + 1)
    case Past => Past
  }

  /** Used up: its block has no entry left. */
  predicate UsedUp(b: nat, p: Pos) {
    match p
    case Direct(k) => k >= DIRECT
    case Single(k) => k >= b
    case Double(j, k) => k >= b
    case Triple(m, j, k) => k >= b
    case Past => true
  }

  // ---------------------------------------------------------------- one step

  /** What a call has to give for an entry: the block, the end at a missing one, an error at an unreadable one. */
  ghost predicate Gives(ino: Inode, it: Iter, r: Reply, p: Pos, late1: bool, late2: bool)
    requires |ino.block| == 15
  {
    match EntryAt(ino, p)
    case Present(b) =>
      && r.Block? && r.block == b && Stands(ino, r.it, Bumped(p), late1, late2)
      && r.it.offset == it.offset + ino.blockSize
    case Hole => r == End
    case Broken => r == IoError
  }

  lemma TakeInside(ino: Inode, it: Iter, p: Pos, late1: bool, late2: bool)
    requires Stands(ino, it, p, late1, late2) && !UsedUp(ino.fanout, p)
    ensures Gives(ino, it, Take(ino, it), p, late1, late2)
  {
  }

  /** In the middle of a block the pointer there comes next. */
  lemma NextInside(ino: Inode, it: Iter, p: Pos, late1: bool, late2: bool)
    requires Stands(ino, it, p, late1, late2) && !UsedUp(ino.fanout, p) && it.offset < ino.size
    ensures Next(ino, it) == Take(ino, it) && Gives(ino, it, Next(ino, it), p, late1, late2)
  {
    TakeInside(ino, it, p, late1, late2);
    hide Take, Gives;
    assert !Finished(it, 0) by { assert it.indexes[0] < it.limits[0]; }
    assert Down(ino, it, -1) == Ready(it);
    assert Down(ino, it, 0) == Ready(it);
    if it.level >= 1 { assert !Finished(it, 1) && Down(ino, it, 1) == Ready(it); }
    if it.level == 2 { assert !Finished(it, 2) && Down(ino, it, 2) == Ready(it); }
  }

  /** Level 0 filled from the block in level 1. */
  function LeafFrom(ino: Inode, it: Iter): (r: Scan)
    requires Shaped(it)
  {
    match Refill(ino, it, 0) case Go(it') => Ready(it') case Stop => Ended case Fail => Failed
  }

  lemma DownLeaf(ino: Inode, it: Iter)
    requires Shaped(it) && |ino.block| == 15 && it.indirect && 1 <= it.level
    requires it.indexes[0] >= it.limits[0] && it.indexes[1] < it.limits[1]
    ensures Down(ino, it, 0) == LeafFrom(ino, it) && Down(ino, it, it.level) == LeafFrom(ino, it)
  {
    hide Refill;
    assert Finished(it, 0);
    assert forall x :: Shaped(x) && 0 <= x.level && x.indirect ==> Down(ino, x, -1) == Ready(x);
    assert !Finished(it, 1) && Down(ino, it, 1) == Down(ino, it, 0);
    if it.level == 2 { assert !Finished(it, 2) && Down(ino, it, 2) == Down(ino, it, 1); }
  }

  /** Levels 1 and 0 filled from the block in level 2. */
  function MidFrom(ino: Inode, it: Iter): (r: Scan)
    requires Shaped(it)
  {
    match Refill(ino, it, 1) case Go(it') => LeafFrom(ino, it') case Stop => Ended case Fail => Failed
  }

  lemma DownMid(ino: Inode, it: Iter)
    requires Shaped(it) && WellFormed(ino) && it.indirect && it.level == 2
    requires it.indexes[0] >= it.limits[0] && it.indexes[1] >= it.limits[1] && it.indexes[2] < it.limits[2]
    requires it.limits[1] == ino.fanout
    ensures Down(ino, it, 2) == MidFrom(ino, it)
  {
    assert Finished(it, 1) && !Finished(it, 2);
    assert Down(ino, it, 2) == Down(ino, it, 1);
    match Refill(ino, it, 1)
    case Go(it') => DownLeaf(ino, it');
    case Stop =>
    case Fail =>
  }

  /** A new leaf below the same block of level 1. */
  lemma LeafStands(ino: Inode, it: Iter, j: nat)
    requires WellFormed(ino) && Shaped(it) && it.indirect && 1 <= it.level && it.limits[0] == ino.fanout
    requires it.limits[1] == ino.fanout
    requires it.indexes[1] == j < ino.fanout == |it.blocks[1]|
    ensures match LeafFrom(ino, it)
            case Ready(it') =>
              && it.blocks[1][j] != 0 && ino.read(it.blocks[1][j]) == Some(it'.blocks[0])
              && it'.indexes == it.indexes[1 := j + 1][0 := 0]
              && it' == it.(indexes := it'.indexes, blocks := it.blocks[0 := it'.blocks[0]])
              && |it'.blocks[0]| == ino.fanout
            case Ended => it.blocks[1][j] == 0
            case Failed => it.blocks[1][j] != 0 && ino.read(it.blocks[1][j]).None?
            case Again(_) => false
  {
  }

  /** The leaf of a tree of height two is used up: the one the index points at comes next. */
  lemma CrossDouble(ino: Inode, it: Iter, j: nat, late1: bool, late2: bool)
    requires Stands(ino, it, Double(j, ino.fanout), late1, late2) && it.offset < ino.size && it.indexes[1] < ino.fanout
    ensures Gives(ino, it, Next(ino, it), Double(it.indexes[1], 0), false, false)
  {
    var i := it.indexes[1];
    DownLeaf(ino, it);
    LeafStands(ino, it, i);
    hide Down, Refill;
    match LeafFrom(ino, it)
    case Ready(it') =>
      assert Stands(ino, it', Double(i, 0), false, false);
      TakeInside(ino, it', Double(i, 0), false, false);
    case Ended =>
    case Failed =>
  }

  lemma CrossLeaf(ino: Inode, it: Iter, m: nat, j: nat, late1: bool, late2: bool)
    requires Stands(ino, it, Triple(m, j, ino.fanout), late1, late2) && it.offset < ino.size
    requires it.indexes[1] < ino.fanout
    ensures Gives(ino, it, Next(ino, it), Triple(m, it.indexes[1], 0), false, late2)
  {
    var i := it.indexes[1];
    DownLeaf(ino, it);
    LeafStands(ino, it, i);
    hide Down, Refill;
    match LeafFrom(ino, it)
    case Ready(it') =>
      assert Stands(ino, it', Triple(m, i, 0), false, late2);
      TakeInside(ino, it', Triple(m, i, 0), false, late2);
    case Ended =>
    case Failed =>
  }

  /** Levels 1 and 0 are used up: the block the level-2 index points at comes next, from its start. */
  lemma MidGives(ino: Inode, it: Iter)
    requires WellFormed(ino) && Shaped(it) && it.indirect && it.level == 2 && it.offset < ino.size
    requires it.limits[0] == ino.fanout && it.limits[1] == ino.fanout && it.limits[2] == ino.fanout
    requires it.indexes[0] == ino.fanout && it.indexes[1] == ino.fanout && it.indexes[2] < ino.fanout
    requires ino.block[14] != 0 && ino.read(ino.block[14]) == Some(it.blocks[2])
    ensures Gives(ino, it, Next(ino, it), Triple(it.indexes[2], 0, 0), false, false)
  {
    var i := it.indexes[2];
    DownMid(ino, it);
    hide Down;
    match Refill(ino, it, 1)
    case Stop =>
    case Fail =>
    case Go(it1) =>
      LeafStands(ino, it1, 0);
      hide Refill;
      match LeafFrom(ino, it1)
      case Ready(it') =>
        assert Stands(ino, it', Triple(i, 0, 0), false, false);
        TakeInside(ino, it', Triple(i, 0, 0), false, false);
      case Ended =>
      case Failed =>
  }

  /** The top level is used up: the next tree is entered and the walk goes on in it. */
  lemma Enters(ino: Inode, it: Iter)
    requires WellFormed(ino) && Shaped(it) && it.offset < ino.size && (!it.indirect ==> it.level == 0)
    requires Finished(it, it.level)
    ensures Next(ino, it) ==
            match Enter(ino, it, Rank(it)) case Go(it') => Next(ino, it') case Stop => End case Fail => IoError
  {
  }

  lemma CrossDirect(ino: Inode, it: Iter, late1: bool, late2: bool)
    requires Stands(ino, it, Direct(DIRECT), late1, late2) && it.offset < ino.size
    ensures Gives(ino, it, Next(ino, it), Single(0), false, false)
  {
    Enters(ino, it);
    match Enter(ino, it, 0)
    case Go(it') =>
      assert Stands(ino, it', Single(0), false, false);
      hide Next, Enter;
      NextInside(ino, it', Single(0), false, false);
    case Stop =>
    case Fail =>
  }

  lemma CrossSingle(ino: Inode, it: Iter, late1: bool, late2: bool)
    requires Stands(ino, it, Single(ino.fanout), late1, late2) && it.offset < ino.size
    ensures Gives(ino, it, Next(ino, it), Double(0, 0), false, false)
  {
    Enters(ino, it);
    match Enter(ino, it, 1)
    case Stop =>
    case Fail =>
    case Go(it1) =>
      DownLeaf(ino, it1);
      LeafStands(ino, it1, 0);
      hide Down, Refill, Enter;
      match LeafFrom(ino, it1)
      case Ready(it') =>
        assert Stands(ino, it', Double(0, 0), false, false);
        TakeInside(ino, it', Double(0, 0), false, false);
      case Ended =>
      case Failed =>
  }

  lemma CrossLastLeaf(ino: Inode, it: Iter, j: nat, late2: bool)
    requires Stands(ino, it, Double(j, ino.fanout), false, late2) && it.offset < ino.size && it.indexes[1] == ino.fanout
    ensures Gives(ino, it, Next(ino, it), Triple(0, 0, 0), false, false)
  {
    Enters(ino, it);
    match Enter(ino, it, 2)
    case Go(it1) =>
      hide Next, Enter;
      MidGives(ino, it1);
    case Stop =>
    case Fail =>
  }

  lemma CrossEnd(ino: Inode, it: Iter, m: nat, j: nat)
    requires Stands(ino, it, Triple(m, j, ino.fanout), false, false) && it.offset < ino.size
    requires j + 1 == ino.fanout == m + 1
    ensures Next(ino, it) == End
  {
    Enters(ino, it);
  }

  /** Whether the index of level 2 is still behind after the step. */
  predicate StillLate(b: nat, p: Pos, late1: bool,
          late2: bool) { p.Triple? && late2 && (p.k < b || late1 || p.j + 1 < b) }

  /** One call, from anywhere: it gives the entry where the walk goes on, or says that the file ends. */
  lemma NextGives(ino: Inode, it: Iter, p: Pos, late1: bool, late2: bool)
    requires Stands(ino, it, p, late1, late2)
    ensures it.offset >= ino.size ==> Next(ino, it) == End
    ensures it.offset < ino.size ==>
              var q := Onward(ino.fanout, p, late1, late2);
              Gives(ino, it, Next(ino, it), q, late1 && !UsedUp(ino.fanout, p), StillLate(ino.fanout, p, late1, late2))
  {
    if it.offset < ino.size {
      hide Next, Gives;
      var b := ino.fanout;
      if !UsedUp(b, p) {
        NextInside(ino, it, p, late1, late2);
        SameLate(ino, it, Next(ino, it), p, late1, late2);
      } else {
        match p
        case Direct(k) => CrossDirect(ino, it, late1, late2);
        case Single(k) => CrossSingle(ino, it, late1, late2);
        case Double(j, k) =>
          if it.indexes[1] < b { CrossDouble(ino, it, j, late1, late2); } else { CrossLastLeaf(ino, it, j, late2); }
        case Triple(m, j, k) =>
          if it.indexes[1] < b {
            CrossLeaf(ino, it, m, j, late1, late2);
          } else if it.indexes[2] < b {
            MidGives(ino, it);
          } else {
            CrossEnd(ino, it, m, j);
            PastGives(ino, it, Next(ino, it));
          }
        case Past =>
      }
    }
  }

  /** Only in trees of height three does the level-2 index matter. */
  lemma SameLate(ino: Inode, it: Iter, r: Reply, p: Pos, late1: bool, late2: bool)
    requires |ino.block| == 15 && !UsedUp(ino.fanout, p) && Gives(ino, it, r, p, late1, late2)
    ensures Gives(ino, it, r, p, late1, StillLate(ino.fanout, p, late1, late2))
  {
  }

  lemma PastGives(ino: Inode, it: Iter, r: Reply)
    requires |ino.block| == 15 && r == End
    ensures Gives(ino, it, r, Past, false, false)
  {
  }

  // ---------------------------------------------------------------- runs

  /** The iterator after n calls that each gave a block. */
  function After(ino: Inode, it: Iter, n: nat): (r: Option<Iter>)
    requires Usable(ino, it)
    ensures r.Some? ==> Usable(ino, r.value)
  {
    if n == 0 then Some(it)
    else match After(ino, it, n - 1)
         case None => None
         case Some(it') =>
           match Next(ino, it')
           case Block(b, it2) => if Usable(ino, it2) then Some(it2) else None
           case End => None
           case IoError => None
  }

  predicate Usable(ino: Inode, it: Iter) {
    && |ino.block| == 15 && |it.limits| == 3 && |it.indexes| == 3 && |it.blocks| == 3 && it.level < 3
    && (!it.indirect ==> it.level == 0)
  }

  /** Where the k-th call from here takes its entry. */
  ghost function Trace(b: nat, p: Pos, late1: bool, late2: bool, k: nat): (r: Pos)
    decreases k
  {
    var q := Onward(b, p, late1, late2);
    if k == 0 then q else Trace(b, Bumped(q), late1 && !UsedUp(b, p), StillLate(b, p, late1, late2), k - 1)
  }

  /** What a call has to reply for an entry. */
  ghost predicate Replies(r: Reply, e: Entry) {
    match e
    case Present(b) => r.Block? && r.block == b
    case Hole => r == End
    case Broken => r == IoError
  }

  lemma StandsUsable(ino: Inode, it: Iter, p: Pos, late1: bool, late2: bool)
    requires Stands(ino, it, p, late1, late2)
    ensures Usable(ino, it)
  {
  }

  /** The first call of a run peeled off. */
  lemma {:induction false} AfterFirst(ino: Inode, it: Iter, n: nat)
    requires Usable(ino, it)
    ensures After(ino, it, n + 1) ==
            match Next(ino, it)
            case Block(b, it') => if Usable(ino, it') then After(ino, it', n) else None
            case End => None
            case IoError => None
  {
    hide Next;
    if n > 0 { AfterFirst(ino, it, n - 1); }
  }

  /** Every run follows its trace: the k-th call gives the entry there, until the size is reached. */
  lemma {:induction false} RunTraces(ino: Inode, it: Iter, p: Pos, late1: bool, late2: bool, k: nat)
    requires Stands(ino, it, p, late1, late2) && Usable(ino, it) && After(ino, it, k).Some?
    ensures var it' := After(ino, it, k).value;
            && it'.offset == it.offset + Mul(k, ino.blockSize)
            && if it'.offset < ino.size
               then Replies(Next(ino, it'), EntryAt(ino, Trace(ino.fanout, p, late1, late2, k)))
               else Next(ino, it') == End
    decreases k
  {
    hide Next, Stands, Onward, StillLate, EntryAt, Mul, Gives;
    var b := ino.fanout;
    MulZero(ino.blockSize);
    if k == 0 {
      FirstReply(ino, it, p, late1, late2);
    } else {
      AfterFirst(ino, it, k - 1);
      FirstStep(ino, it, p, late1, late2);
      NextMul(k - 1, ino.blockSize);
      RunTraces(ino, Next(ino, it).it, Bumped(Onward(b, p, late1, late2)),
                late1 && !UsedUp(b, p), StillLate(b, p, late1, late2), k - 1);
    }
  }

  lemma MulZero(b: nat)
    ensures Mul(0, b) == 0
  {
  }

  lemma FirstReply(ino: Inode, it: Iter, p: Pos, late1: bool, late2: bool)
    requires Stands(ino, it, p, late1, late2) && Usable(ino, it)
    ensures if it.offset < ino.size then Replies(Next(ino, it), EntryAt(ino, Onward(ino.fanout, p, late1, late2)))
        else Next(ino, it) == End
  {
    NextGives(ino, it, p, late1, late2);
    hide Next, Stands, Onward, StillLate, EntryAt;
  }

  lemma FirstStep(ino: Inode, it: Iter, p: Pos, late1: bool, late2: bool)
    requires Stands(ino, it, p, late1, late2) && Usable(ino, it) && Next(ino, it).Block?
    ensures var r, b := Next(ino, it).it, ino.fanout;
            && Stands(ino, r, Bumped(Onward(b, p, late1, late2)), late1 && !UsedUp(b, p), StillLate(b, p, late1, late2))
            && r.offset == it.offset + ino.blockSize
  {
    NextGives(ino, it, p, late1, late2);
    hide Next, Stands, Onward, StillLate, EntryAt;
  }

  // ---------------------------------------------------------------- a fresh walk

  /** The position after p is the one with the next number. */
  lemma OnwardNext(b: nat, p: Pos)
    requires 0 < b && InRange(b, p)
    ensures var q := Onward(b, Bumped(p), false, false); (q == Past || InRange(b, q)) && Index(b, q) == Index(b, p) + 1
  {
    hide Mul, Power;
    Powers(b);
    MulZero(b);
    match p
    case Direct(k) =>
    case Single(k) =>
    case Double(j, k) => NextMul(j, b);
    case Triple(m, j, k) =>
      NextMul(Mul(m, b) + j, b);
      NextMul(m, b);
    case Past =>
  }

  lemma {:induction false} TraceFrom(b: nat, p: Pos, k: nat)
    requires 0 < b && InRange(b, p)
    ensures Trace(b, Bumped(p), false, false, k) == PosOf(b, Index(b, p) + 1 + k)
    decreases k
  {
    OnwardNext(b, p);
    var q := Onward(b, Bumped(p), false, false);
    hide Index, PosOf, Onward;
    if q == Past {
      PastTrace(b, Bumped(p), k);
      PosInRange(b, Index(b, p) + 1 + k);
    } else {
      PosIs(b, q);
      if k > 0 { TraceFrom(b, q, k - 1); }
    }
  }

  lemma {:induction false} PastTrace(b: nat, p: Pos, k: nat)
    requires Onward(b, p, false, false) == Past
    ensures Trace(b, p, false, false, k) == Past
    decreases k
  {
    if k > 0 { PastTrace(b, Bumped(Past), k - 1); }
  }

  lemma FreshTrace(b: nat, k: nat)
    requires 0 < b
    ensures Trace(b, Direct(0), false, false, k) == PosOf(b, k)
  {
    if k > 0 { TraceFrom(b, Direct(0), k - 1); }
  }

  lemma FlatAt(ino: Inode, n: nat)
    requires WellFormed(ino)
    ensures Flat(ino, n) == EntryAt(ino, PosOf(ino.fanout, n))
  {
    PosInRange(ino.fanout, n);
    if PosOf(ino.fanout, n) != Past {
      hide Flat, EntryAt, Index, PosOf;
      FlatIs(ino, PosOf(ino.fanout, n));
    } else {
      hide Power;
    }
  }

  /** The n-th call on a fresh iterator gives entry n of the flattened tree, until the size is reached. */
  lemma ScanIsFlat(ino: Inode, n: nat)
    requires WellFormed(ino) && After(ino, Fresh(), n).Some?
    ensures var it := After(ino, Fresh(), n).value;
            && it.offset == Mul(n, ino.blockSize)
            && (if Mul(n, ino.blockSize) < ino.size then Replies(Next(ino, it), Flat(ino, n)) else Next(ino, it) == End)
  {
    assert Stands(ino, Fresh(), Direct(0), false, false);
    hide Stands, Next, Flat, EntryAt, Mul;
    RunTraces(ino, Fresh(), Direct(0), false, false, n);
    FreshTrace(ino.fanout, n);
    FlatAt(ino, n);
  }

  /** A fresh iterator gives n blocks if and only if the first n entries are there and start within the size. */
  lemma {:induction false} ScanReaches(ino: Inode, n: nat)
    requires WellFormed(ino)
    ensures After(ino, Fresh(), n).Some? <==>
              forall m :: 0 <= m < n ==> Mul(m, ino.blockSize) < ino.size && Flat(ino, m).Present?
  {
    hide Next, Flat, Mul;
    if n > 0 {
      ScanReaches(ino, n - 1);
      if After(ino, Fresh(), n - 1).Some? {
        ScanIsFlat(ino, n - 1);
        StaysUsable(ino, n - 1);
      }
    }
  }

  lemma StaysUsable(ino: Inode, n: nat)
    requires WellFormed(ino) && After(ino, Fresh(), n).Some?
    ensures var r := Next(ino, After(ino, Fresh(), n).value); r.Block? ==> Usable(ino, r.it)
  {
    assert Stands(ino, Fresh(), Direct(0), false, false);
    RunStands(ino, Fresh(), Direct(0), n);
  }

  lemma {:induction false} RunStands(ino: Inode, it: Iter, p: Pos, n: nat)
    requires Stands(ino, it, p, false, false) && Usable(ino, it) && After(ino, it, n).Some?
    ensures var r := Next(ino, After(ino, it, n).value); r.Block? ==> Usable(ino, r.it)
    decreases n
  {
    hide Next, Stands, Onward, Gives, EntryAt;
    if Next(ino, it).Block? {
      FirstStep(ino, it, p, false, false);
      var q := Bumped(Onward(ino.fanout, p, false, false));
      assert !StillLate(ino.fanout, p, false, false);
      StandsUsable(ino, Next(ino, it).it, q, false, false);
      if n > 0 {
        AfterFirst(ino, it, n - 1);
        RunStands(ino, Next(ino, it).it, q, n - 1);
      }
    } else if n > 0 {
      AfterFirst(ino, it, n - 1);
    }
  }
}
