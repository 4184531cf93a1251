/** The block iterator with its loops and in-place updates (kernel/fs/ext2.c), proved to do what the functions on
    values do. */
module Ext2Walker {
  import opened Common
  import opened Ext2Blocks
  import opened Ext2Iterator
  import opened Ext2Seek

  datatype Code = Ok | Missing | Unreadable

  datatype Answer = Gave(block: nat) | AtEnd | Error

  /** A method's code for a function's status. */
  ghost predicate Agrees(c: Code, it: Iter, s: Status) {
    match s
    case Go(it') => c == Ok && it == it'
    case Stop => c == Missing
    case Fail => c == Unreadable
  }

  ghost predicate Answers(a: Answer, it: Iter, r: Ext2Iterator.Reply) {
    match r
    case Block(b, it') => a == Gave(b) && it == it'
    case End => a == AtEnd
    case IoError => a == Error
  }

  class Walker {
    const ino: Inode
    var level: nat
    var indirect: bool
    var offset: nat
    var limits: seq<nat>
    var indexes: seq<nat>
    var blocks: seq<seq<nat>>

    constructor (ino: Inode)
      ensures this.ino == ino && View() == Fresh()
    {
      this.ino := ino;
      level, indirect, offset := 0, false, 0;
      limits, indexes, blocks := [DIRECT, 0, 0], [0, 0, 0], [[], [], []];
    }

    ghost function View(): (r: Iter)
      reads this
    {
      Iter(level, indirect, offset, limits, indexes, blocks)
    }

    method IsFinished(l: nat) returns (f: bool)
      requires Usable(ino, View()) && l < 3
      ensures f == Finished(View(), l)
    {
      var i := 0;
      while i <= l
        invariant i <= l + 1 && forall k :: 0 <= k < i ==> indexes[k] >= limits[k]
      {
        if indexes[i] < limits[i] { return false; }
        i := i + 1;
      }
      return true;
    }

    /** Fetches the next block of level l from the block above. */
    method RefillLevel(l: nat) returns (c: Code)
      requires Usable(ino, View()) && l < 2
      modifies this`indexes, this`blocks
      ensures Agrees(c, View(), Refill(ino, old(View()), l))
    {
      var i := indexes[l + 1];
      if i >= |blocks[l + 1]| { return Missing; }
      var p := blocks[l + 1][i];
      indexes := indexes[l + 1 := i + 1];
      if p == 0 { return Missing; }
      var d := ino.read(p);
      if d.None? { return Unreadable; }
      indexes, blocks := indexes[l := 0], blocks[l := d.value];
      return Ok;
    }

    /** Starts the tree of height l + 1. */
    method EnterLevel(l: nat) returns (c: Code)
      requires Usable(ino, View())
      modifies this
      ensures Agrees(c, View(), Enter(ino, old(View()), l))
    {
      if l >= 3 || ino.block[12 + l] == 0 { return Missing; }
      var d := ino.read(ino.block[12 + l]);
      if d.None? { return Unreadable; }
      level, indirect := l, true;
      blocks, limits, indexes := blocks[l := d.value], limits[l := ino.fanout], indexes[l := 0];
      return Ok;
    }

    /** One pass over the levels from the top down. */
    method Pass() returns (c: Code, again: bool)
      requires Usable(ino, View())
      modifies this
      ensures match Down(ino, old(View()), old(level))
              case Ready(it) => c == Ok && !again && View() == it
              case Again(it) => c == Ok && again && View() == it
              case Ended => c == Missing
              case Failed => c == Unreadable
    {
      hide Refill, Enter;
      c, again := Ok, false;
      var l: int := level;
      ghost var goal := Down(ino, View(), level);
      while l >= 0
        invariant c == Ok && !again && Usable(ino, View()) && l <= level && Down(ino, View(), l) == goal
        decreases l + 1
      {
        var finished := IsFinished(l);
        if finished {
          if l < level {
            c := RefillLevel(l);
            if c != Ok { return; }
            l := l - 1;
            continue;
          }
          c := EnterLevel(if indirect then l + 1 else 0);
          again := true;
          return;
        }
        l := l - 1;
      }
    }

    /** The next block of the file. */
    method NextBlock() returns (a: Answer)
      requires Usable(ino, View())
      modifies this
      ensures Answers(a, View(), Next(ino, old(View())))
    {
      hide Down;
      ghost var goal := Next(ino, View());
      while true
        invariant Usable(ino, View()) && Next(ino, View()) == goal
        decreases 3 - Rank(View())
      {
        if offset >= ino.size { return AtEnd; }
        var c, again := Pass();
        if c == Missing { return AtEnd; }
        if c == Unreadable { return Error; }
        if !again { break; }
      }
      a := TakeBlock();
    }

    /** Walks a whole file: the blocks handed out are the entries of the flattened tree in order, and the walk ends
        exactly at the size, at the first missing entry, or with an error at the first unreadable one. */
    method Collect() returns (got: seq<nat>, a: Answer)
      requires WellFormed(ino) && View() == Fresh()
      modifies this
      ensures forall i :: 0 <= i < |got| ==> Mul(i, ino.blockSize) < ino.size && Flat(ino, i) == Present(got[i])
      ensures a == (if ino.size <= Mul(|got|, ino.blockSize) || Flat(ino, |got|) == Hole then AtEnd else Error)
      ensures a == Error ==> Flat(ino, |got|) == Broken
    {
      hide Next, Flat, Mul;
      got := [];
      a := AtEnd;
      while true
        invariant After(ino, Fresh(), |got|) == Some(View())
        invariant forall i :: 0 <= i < |got| ==> Mul(i, ino.blockSize) < ino.size && Flat(ino, i) == Present(got[i])
        decreases if offset < ino.size then ino.size - offset else 0
      {
        ghost var n := |got|;
        ScanIsFlat(ino, n);
        StaysUsable(ino, n);
        a := NextBlock();
        if !a.Gave? { return; }
        Advances(ino, n);
        ScanIsFlat(ino, n + 1);
        got := got + [a.block];
      }
    }

    method TakeBlock() returns (a: Answer)
      requires Shaped(View()) && |ino.block| == 15
      modifies this`indexes, this`offset
      ensures Answers(a, View(), Take(ino, old(View())))
    {
      var data := if indirect then blocks[0] else ino.block;
      var i := indexes[0];
      if i >= |data| { return AtEnd; }
      indexes := indexes[0 := i + 1];
      offset := offset + ino.blockSize;
      if data[i] == 0 { return AtEnd; }
      return Gave(data[i]);
    }

    /** Loads the blocks on the way to entry `target` of the current tree. */
    method LoadLevels(target: nat) returns (c: Code)
      requires Usable(ino, View()) && 0 < ino.fanout
      modifies this`limits, this`indexes, this`blocks
      ensures Agrees(c, View(), Load(ino, old(View()), level, target))
    {
      hide Power, Div, Mod;
      ghost var goal := Load(ino, View(), level, target);
      var l: int, rest := level, target;
      while l >= 0
        invariant Usable(ino, View()) && l <= level && Load(ino, View(), l, rest) == goal
        decreases l + 1
      {
        var p := if l == level then ino.block[12 + l]
                 else if indexes[l + 1] < |blocks[l + 1]| then blocks[l + 1][indexes[l + 1]] else 0;
        if p == 0 { return Missing; }
        var d := ino.read(p);
        if d.None? { return Unreadable; }
        blocks, limits := blocks[l := d.value], limits[l := ino.fanout];
        var w := Power(ino.fanout, l);
        indexes := indexes[l := Div(rest, w)];
        rest := Mod(rest, w);
        l := l - 1;
      }
      return Ok;
    }

    /** Moves to block n. The areas are tried one after the other. */
    method SeekTo(n: nat) returns (c: Code)
      requires Usable(ino, View()) && 0 < ino.fanout
      modifies this
      ensures Agrees(c, View(), Seek(ino, old(View()), n))
    {
      hide Load, Power, Mul;
      ghost var was := View();
      var b := ino.fanout;
      PowerOne(b);
      var areas := [DIRECT, b, Power(b, 2), Power(b, 3)];
      assert Sum(areas, 0) == 0 && Sum(areas, 1) == DIRECT;
      assert Sum(areas, 2) == DIRECT + b;
      assert Sum(areas, 3) == DIRECT + b + Power(b, 2);
      assert Sum(areas, 4) == DIRECT + b + Power(b, 2) + Power(b, 3);
      var rest: nat, i := n, 0;
      while i < 4
        invariant 0 <= i <= 4 && View() == was
        invariant rest + Sum(areas, i) == n
        decreases 4 - i
      {
        if rest < areas[i] {
          level, indirect, offset := if i == 0 then 0 else i - 1, i > 0, Mul(n, ino.blockSize);
          if i == 0 {
            limits, indexes := limits[0 := DIRECT], indexes[0 := rest];
            return Ok;
          }
          c := LoadLevels(rest);
          return;
        }
        rest := rest - areas[i];
        i := i + 1;
      }
      return Missing;
    }
  }

  ghost function Sum(s: seq<nat>, i: nat): (r: nat)
    requires i <= |s|
  {
    if i == 0 then 0 else Sum(s, i - 1) + s[i - 1]
  }

  lemma Advances(ino: Inode, n: nat)
    requires WellFormed(ino)
    ensures Mul(n, ino.blockSize) < Mul(n + 1, ino.blockSize)
  {
  }

  lemma PowerOne(b: nat)
    requires 0 < b
    ensures Power(b, 1) == b
  {
  }
}
