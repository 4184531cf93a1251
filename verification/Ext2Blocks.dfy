/** The block tree of an ext2 inode (kernel/fs/ext2.c): twelve direct blocks, then trees of height one, two and
    three. */
module Ext2Blocks {
  import opened Common

  const DIRECT: nat := 12

  /** An inode's fifteen block pointers, its size in bytes and the disk blocks read as pointers. Zero is no block.
      `fanout` is how many pointers fit into a block. */
  datatype Inode = Inode(block: seq<nat>, size: nat, blockSize: nat, fanout: nat, read: nat -> Option<seq<nat>>)

  ghost predicate WellFormed(ino: Inode) {
    && |ino.block| == 15 && 0 < ino.blockSize && 0 < ino.fanout
    && forall p: nat :: ino.read(p).Some? ==> |ino.read(p).value| == ino.fanout
  }

  datatype Entry = Present(block: nat) | Hole | Broken

  function Leaf(p: nat): (r: Entry) { if p == 0 then Hole else Present(p) }

  function Mul(a: nat, b: nat): (r: nat) { a * b }

  function Div(n: nat, b: nat): (r: nat)
    requires 0 < b
    ensures n == Mul(r, b) + n % b
  {
    n / b
  }

  function Mod(n: nat, b: nat): (r: nat)
    requires 0 < b
    ensures r < b && n == Mul(Div(n, b), b) + r
  {
    n % b
  }

  function Power(b: nat, h: nat): (r: nat)
    requires 0 < b
    ensures 0 < r
  {
    if h == 0 then 1 else Mul(b, Power(b, h - 1))
  }

  /** Entry n of the tree of height h under pointer p. */
  function Tree(ino: Inode, p: nat, h: nat, n: nat): (r: Entry)
    requires 0 < ino.fanout
    decreases h
  {
    if h == 0 || p == 0 then Leaf(p)
    else match ino.read(p)
         case None => Broken
         case Some(d) =>
           var w := Power(ino.fanout, h - 1);
           if Div(n, w) < |d| then Tree(ino, d[Div(n, w)], h - 1, Mod(n, w)) else Hole
  }

  /** Entry n of the file: the four areas one after another. */
  function Flat(ino: Inode, n: nat): (r: Entry)
    requires |ino.block| == 15 && 0 < ino.fanout
  {
    var b := ino.fanout;
    var start2, start3 := DIRECT + b, DIRECT + b + Power(b, 2);
    if n < DIRECT then Leaf(ino.block[n])
    else if n < start2 then Tree(ino, ino.block[12], 1, n - DIRECT)
    else if n < start3 then Tree(ino, ino.block[13], 2, n - start2)
    else if n < start3 + Power(b, 3) then Tree(ino, ino.block[14], 3, n - start3)
    else Hole
  }

  // ---------------------------------------------------------------- positions

  /** A place in the file, as indexes into the blocks on the way to it. */
  datatype Pos = Direct(k: nat) | Single(k: nat) | Double(j: nat, k: nat) | Triple(m: nat, j: nat, k: nat) | Past

  ghost predicate InRange(b: nat, p: Pos) {
    match p
    case Direct(k) => k < DIRECT
    case Single(k) => k < b
    case Double(j, k) => j < b && k < b
    case Triple(m, j, k) => m < b && j < b && k < b
    case Past => false
  }

  function PosOf(b: nat, n: nat): (r: Pos)
    requires 0 < b
  {
    var start2, start3 := DIRECT + b, DIRECT + b + Power(b, 2);
    if n < DIRECT then Direct(n)
    else if n < start2 then Single(n - DIRECT)
    else if n < start3 then Double(Div(n - start2, b), Mod(n - start2, b))
    else if n < start3 + Power(b, 3) then
      Triple(Div(Div(n - start3, b), b), Mod(Div(n - start3, b), b), Mod(n - start3, b))
    else Past
  }

  function Index(b: nat, p: Pos): (r: nat)
    requires 0 < b
  {
    match p
    case Direct(k) => k
    case Single(k) => DIRECT + k
    case Double(j, k) => DIRECT + b + (Mul(j, b) + k)
    case Triple(m, j, k) => DIRECT + b + Power(b, 2) + (Mul(Mul(m, b) + j, b) + k)
    case Past => DIRECT + b + Power(b, 2) + Power(b, 3)
  }

  function At1(ino: Inode, p: nat, k: nat): (r: Entry) {
    if p == 0 then Hole
    else match ino.read(p) case None => Broken case Some(d) => if k < |d| then Leaf(d[k]) else Hole
  }

  function At2(ino: Inode, p: nat, j: nat, k: nat): (r: Entry) {
    if p == 0 then Hole
    else match ino.read(p) case None => Broken case Some(d) => if j < |d| then At1(ino, d[j], k) else Hole
  }

  function At3(ino: Inode, p: nat, m: nat, j: nat, k: nat): (r: Entry) {
    if p == 0 then Hole
    else match ino.read(p) case None => Broken case Some(d) => if m < |d| then At2(ino, d[m], j, k) else Hole
  }

  function EntryAt(ino: Inode, p: Pos): (r: Entry)
    requires |ino.block| == 15
  {
    match p
    case Direct(k) => if k < DIRECT then Leaf(ino.block[k]) else Hole
    case Single(k) => At1(ino, ino.block[12], k)
    case Double(j, k) => At2(ino, ino.block[13], j, k)
    case Triple(m, j, k) => At3(ino, ino.block[14], m, j, k)
    case Past => Hole
  }

  // ---------------------------------------------------------------- arithmetic

  lemma Grows(x: nat, y: nat, b: nat)
    requires x <= y
    ensures Mul(x, b) <= Mul(y, b)
  {
    assert y * b == x * b + (y - x) * b;
  }

  lemma NextMul(q: nat, b: nat)
    ensures Mul(q + 1, b) == Mul(q, b) + b
  {
  }

  lemma Below(q: nat, r: nat, c: nat, b: nat)
    requires q < c && r < b
    ensures Mul(q, b) + r < Mul(c, b)
  {
    hide Mul;
    NextMul(q, b);
    Grows(q + 1, c, b);
  }

  /** Quotient and remainder are determined. */
  lemma Unique(q: nat, r: nat, q': nat, r': nat, b: nat)
    requires r < b && r' < b && Mul(q, b) + r == Mul(q', b) + r'
    ensures q == q' && r == r'
  {
    hide Mul;
    if q < q' {
      NextMul(q, b);
      Grows(q + 1, q', b);
    } else if q' < q {
      NextMul(q', b);
      Grows(q' + 1, q, b);
    }
  }

  lemma Split(q: nat, r: nat, b: nat)
    requires r < b
    ensures Div(Mul(q, b) + r, b) == q && Mod(Mul(q, b) + r, b) == r
  {
    hide Mul, Div, Mod;
    var n := Mul(q, b) + r;
    Unique(q, r, Div(n, b), Mod(n, b), b);
  }

  lemma DivBound(n: nat, b: nat, c: nat)
    requires 0 < b && n < Mul(c, b)
    ensures Div(n, b) < c
  {
    hide Mul, Div, Mod;
    var m := Mod(n, b);
    if c <= Div(n, b) { Grows(c, Div(n, b), b); }
  }

  lemma Powers(b: nat)
    requires 0 < b
    ensures Power(b, 1) == b && Power(b, 2) == Mul(b, b) && Power(b, 3) == Mul(Mul(b, b), b)
  {
    assert Power(b, 0) == 1 && Power(b, 1) == b * 1 && Power(b, 2) == b * Power(b, 1) && Power(b, 3) == b * Power(b, 2);
    assert b * (b * b) == b * b * b;
  }

  lemma PosInRange(b: nat, n: nat)
    requires 0 < b
    ensures PosOf(b, n) == Past || (InRange(b, PosOf(b, n)) && Index(b, PosOf(b, n)) == n)
    ensures PosOf(b, n) == Past <==> Index(b, Past) <= n
  {
    hide Mul, Div, Mod, Power;
    Powers(b);
    var start2, start3 := DIRECT + b, DIRECT + b + Power(b, 2);
    if start2 <= n < start3 {
      DivBound(n - start2, b, b);
    } else if start3 <= n < start3 + Power(b, 3) {
      var t := n - start3;
      DivBound(t, b, Mul(b, b));
      DivBound(Div(t, b), b, b);
    }
  }

  lemma PosIs(b: nat, p: Pos)
    requires 0 < b && InRange(b, p)
    ensures PosOf(b, Index(b, p)) == p
  {
    hide Mul, Div, Mod, Power;
    Powers(b);
    match p
    case Direct(k) =>
    case Single(k) =>
    case Double(j, k) =>
      Split(j, k, b);
      Below(j, k, b, b);
    case Triple(m, j, k) =>
      Split(Mul(m, b) + j, k, b);
      Split(m, j, b);
      Below(m, j, b, b);
      Below(Mul(m, b) + j, k, Mul(b, b), b);
    case Past =>
  }

  // ---------------------------------------------------------------- the flattened file by position

  lemma TreeOne(ino: Inode, p: nat, k: nat)
    requires WellFormed(ino) && k < ino.fanout
    ensures Tree(ino, p, 1, k) == At1(ino, p, k)
  {
    DivOne(k);
  }

  lemma DivOne(n: nat)
    ensures Div(n, 1) == n && Mod(n, 1) == 0
  {
  }

  lemma TreeTwo(ino: Inode, p: nat, j: nat, k: nat)
    requires WellFormed(ino) && j < ino.fanout && k < ino.fanout
    ensures Tree(ino, p, 2, Mul(j, ino.fanout) + k) == At2(ino, p, j, k)
  {
    var b := ino.fanout;
    Split(j, k, b);
    Powers(b);
    hide Mul, Div, Mod, Power;
    if p != 0 && ino.read(p).Some? { TreeOne(ino, ino.read(p).value[j], k); }
  }

  lemma TreeThree(ino: Inode, p: nat, m: nat, j: nat, k: nat)
    requires WellFormed(ino) && m < ino.fanout && j < ino.fanout && k < ino.fanout
    ensures Tree(ino, p, 3, Mul(Mul(m, ino.fanout) + j, ino.fanout) + k) == At3(ino, p, m, j, k)
  {
    hide Power, Div, Mod, Mul;
    var b := ino.fanout;
    Powers(b);
    Below(j, k, b, b);
    SquareSum(m, j, k, b);
    Split(m, Mul(j, b) + k, Mul(b, b));
    if p != 0 && ino.read(p).Some? { TreeTwo(ino, ino.read(p).value[m], j, k); }
  }

  lemma SquareSum(m: nat, j: nat, k: nat, b: nat)
    ensures Mul(Mul(m, b) + j, b) + k == Mul(m, Mul(b, b)) + (Mul(j, b) + k)
  {
    Distribute(m, b, j);
  }

  lemma Distribute(m: nat, b: nat, j: nat)
    ensures (m * b + j) * b == m * (b * b) + j * b
  {
  }

  /** The n-th entry by division is the entry at the n-th position. */
  lemma FlatIs(ino: Inode, p: Pos)
    requires WellFormed(ino) && InRange(ino.fanout, p)
    ensures Flat(ino, Index(ino.fanout, p)) == EntryAt(ino, p)
  {
    var b := ino.fanout;
    hide Mul, Power, Tree, At1, At2, At3, Div, Mod;
    Powers(b);
    match p
    case Direct(k) =>
    case Single(k) => TreeOne(ino, ino.block[12], k);
    case Double(j, k) =>
      Below(j, k, b, b);
      TreeTwo(ino, ino.block[13], j, k);
    case Triple(m, j, k) =>
      Below(m, j, b, b);
      Below(Mul(m, b) + j, k, Mul(b, b), b);
      TreeThree(ino, ino.block[14], m, j, k);
    case Past =>
  }

  // ---------------------------------------------------------------- with the numbers written out

  /** What pointer p leads to through pointer blocks, by the entries to take in them. */
  function Through(ino: Inode, p: nat, path: seq<nat>): (r: Entry)
    decreases |path|
  {
    if p == 0 then Hole
    else if path == [] then Present(p)
    else match ino.read(p)
         case None => Broken
         case Some(d) => if path[0] < |d| then Through(ino, d[path[0]], path[1..]) else Hole
  }

  lemma ThroughStep(ino: Inode, p: nat, i: nat, path: seq<nat>)
    ensures Through(ino, p, [i] + path) ==
            if p == 0 then Hole
            else match ino.read(p)
                 case None => Broken
                 case Some(d) => if i < |d| then Through(ino, d[i], path) else Hole
  {
    assert ([i] + path)[1..] == path;
  }

  lemma ThroughOne(ino: Inode, p: nat, k: nat)
    ensures At1(ino, p, k) == Through(ino, p, [k])
  {
    ThroughStep(ino, p, k, []);
    assert [k] + [] == [k];
  }

  lemma ThroughTwo(ino: Inode, p: nat, j: nat, k: nat)
    ensures At2(ino, p, j, k) == Through(ino, p, [j, k])
  {
    hide Through, At1;
    ThroughStep(ino, p, j, [k]);
    assert [j] + [k] == [j, k];
    if p != 0 && ino.read(p).Some? && j < |ino.read(p).value| { ThroughOne(ino, ino.read(p).value[j], k); }
  }

  lemma ThroughThree(ino: Inode, p: nat, m: nat, j: nat, k: nat)
    ensures At3(ino, p, m, j, k) == Through(ino, p, [m, j, k])
  {
    hide Through, At2;
    ThroughStep(ino, p, m, [j, k]);
    assert [m] + [j, k] == [m, j, k];
    if p != 0 && ino.read(p).Some? && m < |ino.read(p).value| { ThroughTwo(ino, ino.read(p).value[m], j, k); }
  }

  /** The first twelve entries of a file are the first twelve pointers of its inode. */
  lemma FlatDirect(ino: Inode, n: nat)
    requires WellFormed(ino) && n < 12
    ensures Flat(ino, n) == if ino.block[n] == 0 then Hole else Present(ino.block[n])
  {
    hide Power, Tree;
  }

  /** The thirteenth pointer leads to the next b entries, b being the pointers in a block. */
  lemma FlatSingle(ino: Inode, k: nat, n: nat)
    requires WellFormed(ino) && k < ino.fanout && n == 12 + k
    ensures Flat(ino, n) == Through(ino, ino.block[12], [k])
  {
    FlatIs(ino, Single(k));
    ThroughOne(ino, ino.block[12], k);
    hide Flat, Through, At1;
  }

  /** The fourteenth leads to b * b more. */
  lemma FlatDouble(ino: Inode, j: nat, k: nat, n: nat)
    requires WellFormed(ino) && j < ino.fanout && k < ino.fanout && n == 12 + ino.fanout + (j * ino.fanout + k)
    ensures Flat(ino, n) == Through(ino, ino.block[13], [j, k])
  {
    FlatIs(ino, Double(j, k));
    ThroughTwo(ino, ino.block[13], j, k);
    hide Flat, Through, At2;
  }

  /** The fifteenth leads to b * b * b more. */
  lemma FlatTriple(ino: Inode, m: nat, j: nat, k: nat, n: nat)
    requires WellFormed(ino) && m < ino.fanout && j < ino.fanout && k < ino.fanout
    requires var b := ino.fanout; n == 12 + b + b * b + ((m * b + j) * b + k)
    ensures Flat(ino, n) == Through(ino, ino.block[14], [m, j, k])
  {
    Powers(ino.fanout);
    FlatIs(ino, Triple(m, j, k));
    ThroughThree(ino, ino.block[14], m, j, k);
    hide Flat, Through, At3, Power;
  }

  /** There are no others. */
  lemma FlatPast(ino: Inode, n: nat)
    requires WellFormed(ino) && (var b := ino.fanout; 12 + b + b * b + b * b * b <= n)
    ensures Flat(ino, n) == Hole
  {
    Powers(ino.fanout);
    hide Power, Tree;
  }
}
