/** The page cache of a block device (kernel/hal/block.c, kernel/hal/partition.c): whole pages are kept in a hash
    map and a list by last use, and written through. It is proved to be invisible, and complete whenever memory
    can be allocated and the disk can be read. */
module BlockCache {
  import opened Common

  /** The contents of one block. */
  type Block = seq<byte>

  /** `s` with `t` written over it at position i. */
  function Splice(s: seq<Block>, i: nat, t: seq<Block>): (r: seq<Block>)
    requires i + |t| <= |s|
    ensures |r| == |s|
  {
    s[..i] + t + s[i + |t|..]
  }

  lemma SpliceAt(s: seq<Block>, i: nat, t: seq<Block>)
    requires i + |t| <= |s|
    ensures forall k :: 0 <= k < |s| ==> Splice(s, i, t)[k] == if i <= k < i + |t| then t[k - i] else s[k]
  {
  }

  ghost predicate Distinct(s: seq<nat>) { forall i, j :: 0 <= i < j < |s| ==> s[i] != s[j] }

  function Without(s: seq<nat>, x: nat): (r: seq<nat>)
    ensures x !in r && forall y :: y in s && y != x ==> y in r
    ensures forall y :: y in r ==> y in s
  {
    if s == [] then [] else if s[0] == x then Without(s[1..], x) else [s[0]] + Without(s[1..], x)
  }

  lemma {:induction false} WithoutDistinct(s: seq<nat>, x: nat)
    requires Distinct(s)
    ensures Distinct(Without(s, x))
  {
    if s != [] {
      assert Distinct(s[1..]);
      WithoutDistinct(s[1..], x);
      if s[0] != x {
        assert s[0] !in s[1..];
        assert s[0] !in Without(s[1..], x);
      }
    }
  }

  lemma {:induction false} WithoutNone(s: seq<nat>, x: nat)
    requires x !in s
    ensures Without(s, x) == s
  {
    if s != [] { WithoutNone(s[1..], x); }
  }

  lemma {:induction false} WithoutIs(s: seq<nat>, x: nat) returns (i: nat)
    requires Distinct(s) && x in s
    ensures i < |s| && s[i] == x && Without(s, x) == s[..i] + s[i + 1..]
  {
    if s[0] == x {
      i := 0;
      assert x !in s[1..];
      WithoutNone(s[1..], x);
    } else {
      assert Distinct(s[1..]);
      var j := WithoutIs(s[1..], x);
      i := j + 1;
      assert s[..i] == [s[0]] + s[1..][..j] && s[i + 1..] == s[1..][j + 1..];
    }
  }

  /** The list is as it was, with what was at place i moved to the front. */
  ghost predicate MovedToFront(was: seq<nat>, now: seq<nat>, key: nat, i: nat) {
    i < |was| && was[i] == key && now == [key] + was[..i] + was[i + 1..]
  }

  ghost predicate NowFirst(was: seq<nat>, now: seq<nat>, key: nat) { exists i: nat :: MovedToFront(was, now, key, i) }

  lemma MovesFirst(s: seq<nat>, x: nat)
    requires Distinct(s) && x in s
    ensures NowFirst(s, [x] + Without(s, x), x)
  {
    hide Without, Distinct;
    var i := WithoutIs(s, x);
    assert [x] + (s[..i] + s[i + 1..]) == [x] + s[..i] + s[i + 1..];
    assert MovedToFront(s, [x] + Without(s, x), x, i);
  }

  /** Page k of the cache holds what the disk holds there. */
  ghost predicate PageOk(disk: seq<Block>, pages: map<nat, seq<Block>>, step: nat, k: nat)
    requires k in pages && 0 < step
  {
    k % step == 0 && k + step <= |disk| && pages[k] == disk[k..k + step]
  }

  ghost predicate Coherent(disk: seq<Block>, pages: map<nat, seq<Block>>, step: nat)
    requires 0 < step
  {
    forall k :: k in pages ==> PageOk(disk, pages, step, k)
  }

  ghost predicate CoherentBut(disk: seq<Block>, pages: map<nat, seq<Block>>, step: nat, k: nat)
    requires 0 < step
  {
    forall l :: l in pages && l != k ==> PageOk(disk, pages, step, l)
  }

  lemma CoherentAt(disk: seq<Block>, pages: map<nat, seq<Block>>, step: nat, k: nat)
    requires 0 < step && k in pages && Coherent(disk, pages, step)
    ensures CoherentBut(disk, pages, step, k) && PageOk(disk, pages, step, k) && |pages[k]| == step
  {
    assert PageOk(disk, pages, step, k);
  }

  lemma PageSlice(disk: seq<Block>, pages: map<nat, seq<Block>>, step: nat, k: nat, i: nat, n: nat)
    requires 0 < step && k in pages && Coherent(disk, pages, step) && i + n <= step
    ensures |pages[k]| == step && k + i + n <= |disk| && pages[k][i..i + n] == disk[k + i..k + i + n]
  {
    hide Coherent, CoherentBut;
    CoherentAt(disk, pages, step, k);
    Slices(disk, k, k + step, i, n);
  }

  lemma Slices(s: seq<Block>, lo: nat, hi: nat, i: nat, n: nat)
    requires lo + i + n <= hi <= |s|
    ensures s[lo..hi][i..i + n] == s[lo + i..lo + i + n]
  {
    var part, same := s[lo..hi][i..i + n], s[lo + i..lo + i + n];
    forall j | 0 <= j < |part| ensures part[j] == same[j] {}
  }

  ghost predicate OnPage(k: nat, size: nat, step: nat)
    requires 0 < step
  {
    k % step == 0 && k + step <= size
  }

  /** The list holds the pages of the map, each once. */
  ghost predicate Listed(pages: map<nat, seq<Block>>, lru: seq<nat>) {
    Distinct(lru) && (forall k :: k in lru <==> k in pages)
  }

  // ---------------------------------------------------------------- pages on the grid

  /** Two pages on the grid are the same or do not overlap. */
  lemma Apart(k: nat, l: nat, step: nat)
    requires 0 < step && k % step == 0 && l % step == 0 && k < l
    ensures k + step <= l
  {
    var a, b := k / step, l / step;
    assert k == a * step && l == b * step;
    assert a < b by { if b <= a { MulMono(b, a, step); } }
    MulMono(a + 1, b, step);
  }

  lemma MulMono(a: nat, b: nat, s: nat)
    requires a <= b
    ensures a * s <= b * s
  {
    assert b * s == a * s + (b - a) * s;
  }

  /** Writing one page through keeps all pages coherent. */
  lemma WriteThrough(disk: seq<Block>, pages: map<nat, seq<Block>>, step: nat, k: nat, page: seq<Block>)
    requires 0 < step && OnPage(k, |disk|, step) && |page| == step
    requires CoherentBut(disk, pages, step, k)
    ensures Coherent(Splice(disk, k, page), pages[k := page], step)
  {
    SpliceAt(disk, k, page);
    hide Splice;
    var disk', pages' := Splice(disk, k, page), pages[k := page];
    forall l | l in pages' ensures PageOk(disk', pages', step, l) {
      if l != k {
        assert PageOk(disk, pages, step, l);
        if l < k { Apart(l, k, step); } else { Apart(k, l, step); }
      }
    }
  }

  /** Part of a page overwritten and the page written through is the part written to the disk. */
  lemma PageWrite(disk: seq<Block>, k: nat, step: nat, page: seq<Block>, i: nat, chunk: seq<Block>)
    requires k + step <= |disk| && |page| == step && i + |chunk| <= step
    requires page == disk[k..k + step] || (i == 0 && |chunk| == step)
    ensures Splice(disk, k, Splice(page, i, chunk)) == Splice(disk, k + i, chunk)
  {
    hide Splice;
    SpliceAt(page, i, chunk);
    SpliceAt(disk, k, Splice(page, i, chunk));
    SpliceAt(disk, k + i, chunk);
  }

  /** The page k in the cache has a chunk in it that is not on the disk, which is otherwise what the cache shows. */
  ghost predicate Stale(disk: seq<Block>, pages: map<nat, seq<Block>>, step: nat, k: nat, i: nat, chunk: seq<Block>) {
    && 0 < step && k in pages && OnPage(k, |disk|, step) && i + |chunk| <= step
    && CoherentBut(disk, pages, step, k) && pages[k] == Splice(disk[k..k + step], i, chunk)
  }

  lemma Overwritten(disk: seq<Block>, pages: map<nat, seq<Block>>, step: nat, k: nat, i: nat, chunk: seq<Block>)
    requires 0 < step && k in pages && OnPage(k, |disk|, step) && |pages[k]| == step && i + |chunk| <= step
    requires CoherentBut(disk, pages, step, k)
    requires (i == 0 && |chunk| == step) || PageOk(disk, pages, step, k)
    ensures Stale(disk, pages[k := Splice(pages[k], i, chunk)], step, k, i, chunk)
  {
    var pages' := pages[k := Splice(pages[k], i, chunk)];
    assert Splice(pages[k], i, chunk) == Splice(disk[k..k + step], i, chunk);
    hide Splice;
    forall l | l in pages' && l != k ensures PageOk(disk, pages', step, l) { assert PageOk(disk, pages, step, l); }
  }

  /** A cache with such a page is in order all the same if and only if the chunk was on the disk already. */
  lemma StaleExact(disk: seq<Block>, pages: map<nat, seq<Block>>, step: nat, k: nat, i: nat, chunk: seq<Block>)
    requires Stale(disk, pages, step, k, i, chunk)
    ensures Coherent(disk, pages, step) <==> disk[k + i..k + i + |chunk|] == chunk
  {
    var page := disk[k..k + step];
    SpliceSame(page, i, chunk);
    Slices(disk, k, k + step, i, |chunk|);
    hide Splice, OnPage;
    if Splice(page, i, chunk) == page { StaleCoherent(disk, pages, step, k); }
    if Coherent(disk, pages, step) { assert PageOk(disk, pages, step, k); }
  }

  lemma SpliceSame(s: seq<Block>, i: nat, t: seq<Block>)
    requires i + |t| <= |s|
    ensures Splice(s, i, t) == s <==> s[i..i + |t|] == t
  {
    assert s == s[..i] + s[i..i + |t|] + s[i + |t|..];
    assert Splice(s, i, t)[i..i + |t|] == t;
  }

  lemma StaleCoherent(disk: seq<Block>, pages: map<nat, seq<Block>>, step: nat, k: nat)
    requires 0 < step && k in pages && OnPage(k, |disk|, step) && CoherentBut(disk, pages, step, k)
    requires pages[k] == disk[k..k + step]
    ensures Coherent(disk, pages, step)
  {
  }

  /** Two writes in a row are one. */
  lemma SpliceTwice(s: seq<Block>, i: nat, t: seq<Block>, u: seq<Block>)
    requires i + |t| + |u| <= |s|
    ensures Splice(Splice(s, i, t), i + |t|, u) == Splice(s, i, t + u)
  {
    hide Splice;
    SpliceAt(s, i, t);
    SpliceAt(Splice(s, i, t), i + |t|, u);
    SpliceAt(s, i, t + u);
  }

  lemma SpliceNothing(s: seq<Block>, i: nat)
    requires i <= |s|
    ensures Splice(s, i, []) == s
  {
  }

  // ---------------------------------------------------------------- what can fail

  /** Whether the n-th page of memory asked for can be had, and whether the n-th page read from the disk and the
      n-th page written to it succeed. */
  datatype World = World(memory: nat -> bool, media: nat -> bool, sync: nat -> bool)

  /** How many pages of memory, page reads and page writes have been asked for. */
  datatype Tried = Tried(allocations: nat, fetches: nat, syncs: nat)

  ghost predicate Later(m: Tried, n: Tried, most: nat) {
    && m.allocations <= n.allocations <= m.allocations + most && m.fetches <= n.fetches <= m.fetches + most
    && m.syncs <= n.syncs <= m.syncs + most
  }

  /** Every page write from m to n succeeded. */
  ghost predicate Synced(w: World, m: Tried, n: Tried) { forall k :: m.syncs <= k < n.syncs ==> w.sync(k) }

  /** None of the attempts from m to n failed. */
  ghost predicate Clear(w: World, m: Tried, n: Tried) {
    && (forall k :: m.allocations <= k < n.allocations ==> w.memory(k))
    && (forall k :: m.fetches <= k < n.fetches ==> w.media(k))
    && Synced(w, m, n)
  }

  lemma SyncedFrom(w: World, m: Tried, n: Tried)
    ensures Synced(w, m, n) <==> forall k :: m.syncs <= k < n.syncs ==> w.sync(k)
  {
  }

  lemma ClearSynced(w: World, m: Tried, n: Tried)
    ensures Clear(w, m, n) ==> Synced(w, m, n)
    ensures n.syncs == m.syncs ==> Synced(w, m, n)
  {
  }

  lemma ClearSame(w: World, m: Tried)
    ensures Clear(w, m, m)
  {
  }

  lemma LaterSame(m: Tried)
    ensures Later(m, m, 0)
  {
  }

  lemma LaterMore(m: Tried, n: Tried, x: nat, y: nat)
    requires Later(m, n, x) && x <= y
    ensures Later(m, n, y)
  {
  }

  lemma ClearJoin(w: World, a: Tried, b: Tried, c: Tried, x: nat, y: nat)
    requires Later(a, b, x) && Later(b, c, y)
    ensures Clear(w, a, c) <==> Clear(w, a, b) && Clear(w, b, c)
    ensures Synced(w, a, c) <==> Synced(w, a, b) && Synced(w, b, c)
    ensures Later(a, c, x + y)
  {
  }

  /** One disk write after everything else went well. */
  lemma SyncJoins(w: World, a: Tried, b: Tried, c: Tried, ok: bool)
    requires Later(a, b, 1) && Clear(w, a, b) && b.syncs == a.syncs
    requires c == b.(syncs := b.syncs + 1) && ok == w.sync(b.syncs)
    ensures Later(a, c, 1) && (Clear(w, a, c) <==> ok) && (Synced(w, a, c) <==> ok)
  {
  }

  /** The place of `block` in its page. */
  function InPage(step: nat, block: nat): (r: nat)
    requires 0 < step
    ensures r < step
  {
    block % step
  }

  /** The cache key of the page of `block`. */
  function Key(partition: nat, step: nat, block: nat): (r: nat)
    requires 0 < step
  {
    partition + (block - block % step)
  }

  /** All pages of the range are in the cache. */
  ghost predicate Cached(keys: set<nat>, partition: nat, step: nat, start: nat, count: nat)
    requires 0 < step
  {
    forall b: nat :: start <= b < start + count ==> Key(partition, step, b) in keys
  }

  lemma CachedAt(keys: set<nat>, partition: nat, step: nat, start: nat, count: nat, b: nat)
    requires 0 < step && Cached(keys, partition, step, start, count) && start <= b < start + count
    ensures Key(partition, step, b) in keys
  {
  }

  ghost predicate Aligned(block: nat, step: nat)
    requires 0 < step
  {
    block % step == 0
  }

  /** Where a transfer that is not complete stopped: in front of a page that is not in the cache, at the start of
      the transfer or of that page. */
  ghost predicate Stopped(keys: set<nat>, partition: nat, step: nat, start: nat, block: nat)
    requires 0 < step
  {
    Key(partition, step, block) !in keys && (block == start || Aligned(block, step))
  }

  // ---------------------------------------------------------------- the flat disk

  datatype Request = ReadAt(start: nat, count: nat) | WriteAt(start: nat, data: seq<Block>) | Trim

  datatype Answer = Got(data: seq<Block>) | Wrote(done: nat) | Trimmed

  /** What a request does to a flat disk, given how much of it was done. */
  function FlatStep(disk: seq<Block>, partition: nat, q: Request, a: Answer): (r: seq<Block>) {
    if q.WriteAt? && a.Wrote? && a.done <= |q.data| && partition + q.start + a.done <= |disk|
    then Splice(disk, partition + q.start, q.data[..a.done]) else disk
  }

  function FlatRun(disk: seq<Block>, partition: nat, qs: seq<Request>, answers: seq<Answer>, n: nat): (r: seq<Block>)
    requires n <= |qs| && n <= |answers|
  {
    if n == 0 then disk
    else FlatStep(FlatRun(disk, partition, qs, answers, n - 1), partition, qs[n - 1], answers[n - 1])
  }

  /** The answer of a flat disk: what was read is what is there, and all that was asked is done if and only if
      nothing failed. */
  ghost predicate FlatAnswer(disk: seq<Block>, partition: nat, q: Request, a: Answer, clear: bool) {
    match q
    case ReadAt(start, count) =>
      && a.Got? && |a.data| <= count && partition + start + |a.data| <= |disk|
      && a.data == disk[partition + start..partition + start + |a.data|]
      && (|a.data| == count <==> clear)
    case WriteAt(start, data) =>
      a.Wrote? && a.done <= |data| && partition + start + a.done <= |disk| && (a.done == |data| <==> clear)
    case Trim => a.Trimmed? && clear
  }

  /** What a request may try, with these pages in the cache: at most one page of each kind for every block, no disk
      write to read, and no memory and no disk read for what is cached. */
  ghost predicate Tries(keys: set<nat>, partition: nat, step: nat, q: Request, m: Tried, n: Tried)
    requires 0 < step
  {
    match q
    case ReadAt(start, count) =>
      Later(m, n, count) && n.syncs == m.syncs && (Cached(keys, partition, step, start, count) ==> n == m)
    case WriteAt(start, data) =>
      Later(m, n, |data|) && (Cached(keys, partition, step, start, |data|) ==> n == m.(syncs := n.syncs))
    case Trim => n == m
  }

  lemma FlatRunNone(disk: seq<Block>, partition: nat, qs: seq<Request>)
    ensures FlatRun(disk, partition, qs, [], 0) == disk
  {
  }

  lemma {:induction false} FlatRunPrefix(disk: seq<Block>, partition: nat, qs: seq<Request>, answers: seq<Answer>,
          a: Answer, n: nat)
    requires n <= |qs| && n <= |answers|
    ensures FlatRun(disk, partition, qs, answers + [a], n) == FlatRun(disk, partition, qs, answers, n)
  {
    if n > 0 { FlatRunPrefix(disk, partition, qs, answers, a, n - 1); }
  }

  /** The i-th request is answered as the flat disk answers it, completely if and only if nothing failed during it,
      and it tries no more than it may. */
  ghost predicate Answered(w: World, disk: seq<Block>, partition: nat, step: nat, qs: seq<Request>,
                           answers: seq<Answer>, marks: seq<Tried>, keys: seq<set<nat>>, i: nat)
    requires 0 < step && i < |answers| <= |qs| && |marks| == |answers| + 1 && |keys| == |answers|
  {
    && FlatAnswer(FlatRun(disk, partition, qs, answers, i), partition, qs[i], answers[i],
                  Clear(w, marks[i], marks[i + 1]))
    && Tries(keys[i], partition, step, qs[i], marks[i], marks[i + 1])
  }

  lemma AnsweredMore(w: World, disk: seq<Block>, partition: nat, step: nat, qs: seq<Request>, answers: seq<Answer>,
                     marks: seq<Tried>, keys: seq<set<nat>>, i: nat, a: Answer, mark: Tried, key: set<nat>)
    requires 0 < step && i < |answers| < |qs| && |marks| == |answers| + 1 && |keys| == |answers|
    requires Answered(w, disk, partition, step, qs, answers, marks, keys, i)
    ensures Answered(w, disk, partition, step, qs, answers + [a], marks + [mark], keys + [key], i)
  {
    hide FlatAnswer, Clear, Tries, FlatRun;
    FlatRunPrefix(disk, partition, qs, answers, a, i);
  }

  lemma AnsweredNow(w: World, disk: seq<Block>, partition: nat, step: nat, qs: seq<Request>, answers: seq<Answer>,
                    marks: seq<Tried>, keys: seq<set<nat>>, a: Answer, mark: Tried, key: set<nat>)
    requires 0 < step && |answers| < |qs| && |marks| == |answers| + 1 && |keys| == |answers|
    requires var n := |answers|;
             && FlatAnswer(FlatRun(disk, partition, qs, answers, n), partition, qs[n], a, Clear(w, marks[n], mark))
             && Tries(key, partition, step, qs[n], marks[n], mark)
    ensures Answered(w, disk, partition, step, qs, answers + [a], marks + [mark], keys + [key], |answers|)
    ensures FlatRun(disk, partition, qs, answers + [a], |answers| + 1) ==
            FlatStep(FlatRun(disk, partition, qs, answers, |answers|), partition, qs[|answers|], a)
  {
    hide FlatAnswer, Clear, Tries, FlatStep;
    FlatRunPrefix(disk, partition, qs, answers, a, |answers|);
  }

  /** How many blocks of the page of `block` come before `end`. */
  function Chunk(block: nat, end: nat, step: nat): (r: nat)
    requires 0 < step && block < end
    ensures 0 < r && InPage(step, block) + r <= step && block + r <= end
  {
    Min(block - block % step + step, end) - block
  }

  /** A chunk ends where its page ends, or where the transfer does. */
  lemma ChunkEnds(block: nat, end: nat, step: nat)
    requires 0 < step && block < end
    ensures var e := block + Chunk(block, end, step); Aligned(e, step) || e == end
  {
    if block - block % step + step <= end {
      var q := block / step;
      assert block == q * step + block % step;
      assert block - block % step + step == (q + 1) * step;
      MulMod(q + 1, step);
    }
  }

  datatype Reply = Bytes(blocks: nat) | EINVAL | ENXIO | EIO

  class Device {
    const blockSize: nat
    const blockCount: nat
    const step: nat
    const partition: nat
    const world: World
    var tried: Tried
    var disk: seq<Block>
    var pages: map<nat, seq<Block>>
    var lru: seq<nat>

    /** A device over part of a disk, with an empty cache. Partitions start at a page boundary. */
    constructor (disk: seq<Block>, blockSize: nat, step: nat, partition: nat, blockCount: nat,
                 world: World)
      requires 0 < blockSize && 0 < step && partition % step == 0 && |disk| % step == 0
      requires partition + blockCount <= |disk|
      ensures Valid() && this.disk == disk && this.blockSize == blockSize && this.blockCount == blockCount
      ensures this.step == step && this.partition == partition && this.world == world
      ensures pages == map[] && tried == Tried(0, 0, 0)
    {
      this.disk, this.blockSize, this.step, this.partition, this.blockCount :=
          disk, blockSize, step, partition, blockCount;
      this.world, tried := world, Tried(0, 0, 0);
      pages, lru := map[], [];
    }

    ghost predicate Shape()
      reads this
    {
      && 0 < blockSize && 0 < step && Aligned(partition, step) && Aligned(|disk|, step)
      && partition + blockCount <= |disk| && Listed(pages, lru)
    }

    /** Every cached page equals its disk page; list and map hold the same pages, once each. */
    ghost predicate Valid()
      reads this
    {
      Shape() && Coherent(disk, pages, step)
    }

    /** The least recently used page goes. */
    method ShrinkCache()
      requires Shape() && lru != []
      modifies this`pages, this`lru
      ensures Shape() && pages == old(pages) - {old(lru)[|old(lru)| - 1]} && lru == old(lru)[..|old(lru)| - 1]
      ensures pages.Keys <= old(pages.Keys) && |pages| == |old(pages)| - 1 && (old(Valid()) ==> Valid())
    {
      ghost var last := lru[|lru| - 1];
      assert (pages - {last}).Keys == pages.Keys - {last};
      pages := pages - {lru[|lru| - 1]};
      lru := lru[..|lru| - 1];
    }

    /** Called when memory is short: the hundred least recently used pages go, or all there are. */
    method TrimCache()
      requires Valid()
      modifies this`pages, this`lru
      ensures Valid() && pages.Keys <= old(pages.Keys) && |old(pages)| - |pages| <= 100
      ensures lru == old(lru)[..Max(0, |old(lru)| - 100)]
    {
      hide Coherent, Listed;
      var i := 0;
      while i < 100 && lru != []
        invariant Valid() && pages.Keys <= old(pages.Keys) && |old(pages)| <= |pages| + i && i <= 100
        invariant i <= |old(lru)| && lru == old(lru)[..|old(lru)| - i]
      {
        ShrinkCache();
        i := i + 1;
      }
    }

    /** Looks a page up and makes it the most recently used one. */
    method FindPage(block: nat) returns (found: bool)
      requires Valid()
      modifies this`lru
      ensures Valid() && (found <==> partition + block in pages)
      ensures !found ==> lru == old(lru)
      ensures found ==> NowFirst(old(lru), lru, partition + block)
    {
      hide NowFirst, Coherent;
      found := partition + block in pages;
      if found {
        WithoutDistinct(lru, partition + block);
        MovesFirst(lru, partition + block);
        lru := [partition + block] + Without(lru, partition + block);
      }
    }

    /** Puts a page into the cache, for another if memory is short. */
    method PutCache(key: nat, page: seq<Block>)
      requires Valid() && key !in pages
      modifies this`pages, this`lru
      ensures Shape() && key in pages && pages[key] == page
      ensures (forall l :: l in pages && l != key ==> PageOk(disk, pages, step, l))
      ensures lru == [key] + old(lru) || (old(lru) != [] && lru == [key] + old(lru)[..|old(lru)| - 1])
    {
      var low := *;
      if low && lru != [] { ShrinkCache(); }
      assert forall l :: l in pages ==> PageOk(disk, pages, step, l);
      lru := [key] + lru;
      pages := pages[key := page];
    }

    /** Getting a page of memory may fail, and the cache may be trimmed meanwhile. */
    method Allocate() returns (ok: bool)
      requires Valid()
      modifies this`pages, this`lru, this`tried
      ensures Valid() && pages.Keys <= old(pages.Keys)
      ensures tried == old(tried).(allocations := old(tried).allocations + 1)
      ensures ok == world.memory(old(tried).allocations)
    {
      hide Coherent, Listed;
      ok := world.memory(tried.allocations);
      tried := tried.(allocations := tried.allocations + 1);
      var short := *;
      if short { TrimCache(); }
    }

    /** Reading the disk may fail. */
    method Fetch() returns (ok: bool)
      modifies this`tried
      ensures tried == old(tried).(fetches := old(tried).fetches + 1)
      ensures ok == world.media(old(tried).fetches)
    {
      ok := world.media(tried.fetches);
      tried := tried.(fetches := tried.fetches + 1);
    }

    /** A page from the cache, which cannot fail, or read from the disk into it. */
    method FindOrRead(block: nat) returns (ok: bool)
      requires Valid() && block % step == 0 && OnPage(partition + block, |disk|, step)
      modifies this`pages, this`lru, this`tried
      ensures Valid() && (ok <==> partition + block in pages)
      ensures Later(old(tried), tried, 1) && (ok <==> Clear(world, old(tried), tried))
      ensures tried.syncs == old(tried).syncs
      ensures old(partition + block in pages) ==> pages == old(pages) && tried == old(tried)
    {
      hide NowFirst, Listed;
      ok := FindPage(block);
      if !ok {
        ok := Allocate();
        if !ok { return; }
        ok := Fetch();
        if !ok { return; }
        PutCache(partition + block, disk[partition + block..partition + block + step]);
      }
    }

    /** A page from the cache, which cannot fail, or one with unknown contents put into it. */
    method FindOrEmpty(block: nat) returns (ok: bool)
      requires Valid() && block % step == 0 && OnPage(partition + block, |disk|, step)
      modifies this`pages, this`lru, this`tried
      ensures Shape() && (!ok ==> Valid()) && (ok <==> partition + block in pages)
      ensures ok ==> |pages[partition + block]| == step && CoherentBut(disk, pages, step, partition + block)
      ensures Later(old(tried), tried, 1) && (ok <==> Clear(world, old(tried), tried))
      ensures tried.syncs == old(tried).syncs
      ensures old(partition + block in pages) ==> pages == old(pages) && tried == old(tried)
    {
      hide NowFirst, Listed;
      ok := FindPage(block);
      if ok {
        assert PageOk(disk, pages, step, partition + block);
      } else {
        ok := Allocate();
        if !ok { return; }
        var unknown := *;
        if |unknown| != step { unknown := seq(step, _ => []); }
        PutCache(partition + block, unknown);
      }
    }

    /** Reads part of one page. */
    method ReadPart(block: nat, n: nat) returns (chunk: seq<Block>, ok: bool)
      requires Valid() && partition + block < |disk| && InPage(step, block) + n <= step
      modifies this`pages, this`lru, this`tried
      ensures Valid() && (ok <==> Key(partition, step, block) in pages)
      ensures ok ==> partition + block + n <= |disk| && chunk == disk[partition + block..partition + block + n]
      ensures Later(old(tried), tried, 1) && (ok <==> Clear(world, old(tried), tried))
      ensures tried.syncs == old(tried).syncs
      ensures old(Key(partition, step, block) in pages) ==> pages == old(pages) && tried == old(tried)
    {
      hide Coherent, Listed, Clear, Later, PageOk;
      var inPage := InPage(step, block);
      PageFits(partition, block, |disk|, step);
      chunk := [];
      ok := FindOrRead(block - inPage);
      if !ok { return; }
      var key := partition + (block - inPage);
      PageSlice(disk, pages, step, key, inPage, n);
      chunk := pages[key][inPage..inPage + n];
    }

    /** Reads blocks page by page until done or a page cannot be had. All is read if and only if no allocation
        and no disk read failed; none is tried if all of it is cached. */
    method ReadBlocks(start: nat, count: nat) returns (data: seq<Block>)
      requires Valid() && start + count <= blockCount
      modifies this`pages, this`lru, this`tried
      ensures Valid() && |data| <= count && data == disk[partition + start..partition + start + |data|]
      ensures |data| == count <==> Clear(world, old(tried), tried)
      ensures |data| < count ==> Stopped(pages.Keys, partition, step, start, start + |data|)
      ensures Later(old(tried), tried, count) && tried.syncs == old(tried).syncs
      ensures old(Cached(pages.Keys, partition, step, start, count)) ==> tried == old(tried) && pages == old(pages)
    {
      hide Coherent, Listed, Chunk, Clear, Later, Key, Cached, Aligned, InPage;
      data := [];
      var block := start;
      ClearSame(world, tried);
      LaterSame(tried);
      ghost var cached := Cached(pages.Keys, partition, step, start, count);
      while block < start + count
        invariant Valid() && start <= block <= start + count && |data| == block - start
        invariant data == disk[partition + start..partition + block]
        invariant Clear(world, old(tried), tried) && Later(old(tried), tried, |data|) && tried.syncs == old(tried).syncs
        invariant block == start || Aligned(block, step) || block == start + count
        invariant cached ==> pages == old(pages) && tried == old(tried)
      {
        var n := Chunk(block, start + count, step);
        ghost var m := tried;
        if cached { CachedAt(pages.Keys, partition, step, start, count, block); }
        var chunk, ok := ReadPart(block, n);
        ClearJoin(world, old(tried), m, tried, |data|, 1);
        if !ok {
          LaterMore(old(tried), tried, |data| + 1, count);
          return;
        }
        ChunkEnds(block, start + count, step);
        data := data + chunk;
        block := block + n;
        LaterMore(old(tried), tried, |data| - n + 1, |data|);
      }
    }

    /** Overwrites part of a cached page and writes the page through. When that fails the page stays in the cache
        as it was to be written. */
    method Overwrite(key: nat, inPage: nat, chunk: seq<Block>) returns (ok: bool)
      requires Shape() && key in pages && OnPage(key, |disk|, step) && |pages[key]| == step && inPage + |chunk| <= step
      requires CoherentBut(disk, pages, step, key)
      requires (inPage == 0 && |chunk| == step) || PageOk(disk, pages, step, key)
      modifies this`disk, this`pages, this`tried
      ensures pages.Keys == old(pages.Keys) && |disk| == |old(disk)| && key + inPage + |chunk| <= |disk|
      ensures tried == old(tried).(syncs := old(tried).syncs + 1) && ok == world.sync(old(tried).syncs)
      ensures Shape() && (ok ==> Valid())
      ensures disk == if ok then Splice(old(disk), key + inPage, chunk) else old(disk)
      ensures !ok ==> Stale(disk, pages, step, key, inPage, chunk)
    {
      hide Splice, Coherent, CoherentBut;
      var page := Splice(pages[key], inPage, chunk);
      PageWrite(disk, key, step, pages[key], inPage, chunk);
      WriteThrough(disk, pages, step, key, page);
      Overwritten(disk, pages, step, key, inPage, chunk);
      pages := pages[key := page];
      ok := world.sync(tried.syncs);
      tried := tried.(syncs := tried.syncs + 1);
      if ok { disk := Splice(disk, key, page); }
    }

    /** The page to write into: one that is overwritten whole need not be read first. */
    method FindToWrite(base: nat, whole: bool) returns (ok: bool)
      requires Valid() && base % step == 0 && OnPage(partition + base, |disk|, step)
      modifies this`pages, this`lru, this`tried
      ensures Shape() && (!ok ==> Valid()) && (ok <==> partition + base in pages)
      ensures ok ==> |pages[partition + base]| == step && CoherentBut(disk, pages, step, partition + base)
      ensures ok && !whole ==> PageOk(disk, pages, step, partition + base)
      ensures Later(old(tried), tried, 1) && (ok <==> Clear(world, old(tried), tried))
      ensures tried.syncs == old(tried).syncs
      ensures old(partition + base in pages) ==> pages == old(pages) && tried == old(tried)
    {
      hide Coherent, Listed, PageOk, CoherentBut, OnPage, Clear, Later;
      if whole {
        ok := FindOrEmpty(base);
      } else {
        ok := FindOrRead(base);
        if ok { CoherentAt(disk, pages, step, partition + base); }
      }
    }

    /** Writes part of one page. */
    method WritePart(block: nat, chunk: seq<Block>) returns (ok: bool)
      requires Valid() && partition + block < |disk| && 0 < |chunk| && InPage(step, block) + |chunk| <= step
      modifies this`disk, this`pages, this`lru, this`tried
      ensures Shape() && |disk| == |old(disk)| && partition + block + |chunk| <= |disk|
      ensures disk == if ok then Splice(old(disk), partition + block, chunk) else old(disk)
      ensures Later(old(tried), tried, 1) && (ok <==> Clear(world, old(tried), tried))
      ensures Synced(world, old(tried), tried) ==> Valid() && (ok <==> Key(partition, step, block) in pages)
      ensures !Synced(world, old(tried), tried) ==>
                Stale(disk, pages, step, Key(partition, step, block), InPage(step, block), chunk)
      ensures old(Key(partition, step, block) in pages) ==>
                pages.Keys == old(pages.Keys) && tried == old(tried).(syncs := old(tried).syncs + 1)
    {
      hide Splice, Coherent, Listed, PageOk, CoherentBut, Clear, Later, Synced, Stale;
      PageFits(partition, block, |disk|, step);
      var inPage := InPage(step, block);
      ghost var m := tried;
      ok := FindToWrite(block - inPage, inPage == 0 && |chunk| == step);
      ClearSynced(world, m, tried);
      if !ok { return; }
      ghost var n := tried;
      ok := Overwrite(partition + (block - inPage), inPage, chunk);
      SyncJoins(world, m, n, tried, ok);
    }

    /** Writes blocks page by page until done or a page cannot be had or written. All is written if and only if no
        allocation, no disk read and no disk write failed. The cache is in order afterwards, except that the page
        behind a failed disk write keeps what was to be written. */
    method WriteBlocks(start: nat, data: seq<Block>) returns (done: nat)
      requires Valid() && start + |data| <= blockCount
      modifies this`disk, this`pages, this`lru, this`tried
      ensures Shape() && done <= |data| && partition + start + done <= |old(disk)|
      ensures disk == Splice(old(disk), partition + start, data[..done])
      ensures done == |data| <==> Clear(world, old(tried), tried)
      ensures Synced(world, old(tried), tried) ==>
                Valid() && (done < |data| ==> Stopped(pages.Keys, partition, step, start, start + done))
      ensures !Synced(world, old(tried), tried) ==>
                && done < |data|
                && var block := start + done;
                   Stale(disk, pages, step, Key(partition, step, block), InPage(step, block),
                         data[done..done + Chunk(block, start + |data|, step)])
      ensures Later(old(tried), tried, |data|)
      ensures old(Cached(pages.Keys, partition, step, start, |data|)) ==>
                tried == old(tried).(syncs := tried.syncs)
    {
      hide Splice, Coherent, Listed, Chunk, Clear, Later, Key, Cached, Aligned, Synced, Stale, InPage;
      done := 0;
      assert data[..0] == [];
      SpliceNothing(disk, partition + start);
      ClearSame(world, tried);
      LaterSame(tried);
      ghost var cached := Cached(pages.Keys, partition, step, start, |data|);
      while done < |data|
        invariant Valid() && done <= |data| && |disk| == |old(disk)|
        invariant disk == Splice(old(disk), partition + start, data[..done])
        invariant Clear(world, old(tried), tried) && Later(old(tried), tried, done)
        invariant done == 0 || Aligned(start + done, step) || done == |data|
        invariant cached ==> pages.Keys == old(pages.Keys) && tried == old(tried).(syncs := tried.syncs)
      {
        var n := Chunk(start + done, start + |data|, step);
        ghost var m := tried;
        ClearSynced(world, old(tried), m);
        if cached { CachedAt(pages.Keys, partition, step, start, |data|, start + done); }
        var ok := WritePart(start + done, data[done..done + n]);
        ClearJoin(world, old(tried), m, tried, done, 1);
        if !ok {
          LaterMore(old(tried), tried, done + 1, |data|);
          return;
        }
        ClearSynced(world, m, tried);
        ChunkEnds(start + done, start + |data|, step);
        SpliceTwice(old(disk), partition + start, data[..done], data[done..done + n]);
        assert data[..done] + data[done..done + n] == data[..done + n];
        LaterMore(old(tried), tried, done + 1, done + n);
        done := done + n;
      }
      ClearSynced(world, old(tried), tried);
    }

    ghost predicate InDevice(q: Request) {
      match q
      case ReadAt(s, n) => s + n <= blockCount
      case WriteAt(s, d) => s + |d| <= blockCount
      case Trim => true
    }

    /** Any sequence of reads, writes and trims is answered as a flat disk would answer it, each one completely
        if and only if no allocation, no disk read and no disk write failed meanwhile, and leaves the disk a flat
        disk would be left as; evictions on the way do not show. The run is followed to its end or to the first
        failed disk write. `marks` are the counters before and after each request, and `keys` the pages in the
        cache before it, which bound what it tries. */
    method Serve(qs: seq<Request>) returns (answers: seq<Answer>, ghost marks: seq<Tried>, ghost keys: seq<set<nat>>)
      requires Valid() && forall q <- qs :: InDevice(q)
      modifies this`disk, this`pages, this`lru, this`tried
      ensures |answers| <= |qs| && disk == FlatRun(old(disk), partition, qs, answers, |answers|)
      ensures |marks| == |answers| + 1 && marks[0] == old(tried) && marks[|answers|] == tried
      ensures |keys| == |answers| && 0 < step
      ensures forall i: nat :: i < |answers| ==>
                Answered(world, old(disk), partition, step, qs, answers, marks, keys, i)
      ensures if |answers| == 0 || Synced(world, marks[|answers| - 1], tried) then |answers| == |qs| && Valid()
              else Shape() && qs[|answers| - 1].WriteAt?
      ensures forall i :: 0 <= i < |answers| - 1 ==> Synced(world, marks[i], marks[i + 1])
    {
      hide Coherent, Listed, Splice, FlatAnswer, Clear, Synced, InDevice, Tries, Answered, FlatRun, FlatStep;
      answers, marks, keys := [], [tried], [];
      assert disk == FlatRun(disk, partition, qs, [], 0) by { FlatRunNone(disk, partition, qs); }
      while |answers| < |qs|
        invariant Valid() && |answers| <= |qs| && disk == FlatRun(old(disk), partition, qs, answers, |answers|)
        invariant |marks| == |answers| + 1 && marks[0] == old(tried) && marks[|answers|] == tried
        invariant |keys| == |answers|
        invariant forall k: nat :: k < |answers| ==>
                    Answered(world, old(disk), partition, step, qs, answers, marks, keys, k)
        invariant forall k :: 0 <= k < |answers| ==> Synced(world, marks[k], marks[k + 1])
      {
        assert qs[|answers|] in qs;
        ghost var key := pages.Keys;
        var a, ok := ServeOne(qs[|answers|]);
        forall k: nat | k < |answers|
          ensures Answered(world, old(disk), partition, step, qs, answers + [a], marks + [tried], keys + [key], k)
        {
          AnsweredMore(world, old(disk), partition, step, qs, answers, marks, keys, k, a, tried, key);
        }
        AnsweredNow(world, old(disk), partition, step, qs, answers, marks, keys, a, tried, key);
        answers, marks, keys := answers + [a], marks + [tried], keys + [key];
        if !ok { return; }
      }
    }

    /** One request; `ok` says that no disk write failed. */
    method ServeOne(q: Request) returns (a: Answer, ok: bool)
      requires Valid() && InDevice(q)
      modifies this`disk, this`pages, this`lru, this`tried
      ensures Shape() && disk == FlatStep(old(disk), partition, q, a)
      ensures ok <==> Synced(world, old(tried), tried)
      ensures if ok then Valid() else q.WriteAt?
      ensures Tries(old(pages.Keys), partition, step, q, old(tried), tried)
      ensures FlatAnswer(old(disk), partition, q, a, Clear(world, old(tried), tried))
    {
      hide Coherent, Listed, Splice, Clear, Cached, Stopped, Later, Stale, Synced, Chunk, Key;
      ghost var m := tried;
      ok := true;
      match q
      case ReadAt(start, count) =>
        var data := ReadBlocks(start, count);
        ClearSynced(world, m, tried);
        a := Got(data);
      case WriteAt(start, data) =>
        var before := tried.syncs;
        var done := WriteBlocks(start, data);
        ok := AllSynced(before);
        SyncedFrom(world, m, tried);
        a := Wrote(done);
      case Trim =>
        ClearSame(world, tried);
        ClearSynced(world, m, tried);
        TrimCache();
        a := Trimmed;
    }

    /** Whether every disk write since `from` succeeded. */
    method AllSynced(from: nat) returns (ok: bool)
      ensures ok <==> forall k :: from <= k < tried.syncs ==> world.sync(k)
    {
      var k := from;
      while k < tried.syncs
        invariant from <= k && forall l :: from <= l < k && l < tried.syncs ==> world.sync(l)
      {
        if !world.sync(k) { return false; }
        k := k + 1;
      }
      return true;
    }

    ghost predicate InRange(offset: int, size: nat)
      requires 0 < blockSize
    {
      && size % blockSize == 0 && offset % blockSize == 0
      && size / blockSize + offset / blockSize <= blockCount
    }

    /** The checks both transfers start with, on byte offset and size. */
    method CheckRange(offset: int, size: nat) returns (r: Option<Reply>)
      requires Shape()
      ensures r == if offset < 0 then Some(EINVAL) else if !InRange(offset, size) then Some(ENXIO) else None
    {
      if offset < 0 { return Some(EINVAL); }
      if size % blockSize != 0 || offset % blockSize != 0 { return Some(ENXIO); }
      if size / blockSize + offset / blockSize > blockCount { return Some(ENXIO); }
      return None;
    }

    /** The read system call. A request in range is answered with all its blocks if and only if nothing failed,
        and with an error if and only if nothing was read, even when nothing was asked for. */
    method Read(offset: int, size: nat) returns (r: Reply, data: seq<Block>)
      requires Valid()
      modifies this`pages, this`lru, this`tried
      ensures Valid()
      ensures r == EINVAL <==> offset < 0
      ensures r == ENXIO <==> 0 <= offset && !InRange(offset, size)
      ensures !r.Bytes? ==> data == []
      ensures 0 <= offset && InRange(offset, size) ==>
                var start, count := offset / blockSize, size / blockSize;
                && |data| <= count && partition + start + |data| <= |disk|
                && data == disk[partition + start..partition + start + |data|]
                && r == (if data == [] then EIO else Bytes(|data|))
                && (|data| == count <==> Clear(world, old(tried), tried))
                && (|data| < count ==> Stopped(pages.Keys, partition, step, start, start + |data|))
    {
      hide Coherent, Listed, Clear, Cached, Stopped, Later;
      data := [];
      var bad := CheckRange(offset, size);
      if bad.Some? { return bad.value, []; }
      data := ReadBlocks(offset / blockSize, size / blockSize);
      r := if |data| == 0 then EIO else Bytes(|data|);
    }

    /** The write system call, on `size` bytes that hold the blocks `data`. What it says was written is on the
        disk and nothing else changed; all of it is written if and only if nothing failed. */
    method Write(offset: int, size: nat, data: seq<Block>) returns (r: Reply)
      requires Valid() && |data| == size / blockSize
      modifies this`disk, this`pages, this`lru, this`tried
      ensures Shape() && (Synced(world, old(tried), tried) ==> Valid())
      ensures r == EINVAL <==> offset < 0
      ensures r == ENXIO <==> 0 <= offset && !InRange(offset, size)
      ensures !r.Bytes? ==> disk == old(disk)
      ensures 0 <= offset && InRange(offset, size) ==>
                var start := offset / blockSize;
                var done := if r.Bytes? then r.blocks else 0;
                && (r == EIO || (r.Bytes? && 0 < done)) && done <= |data| && partition + start + done <= |old(disk)|
                && disk == Splice(old(disk), partition + start, data[..done])
                && (done == |data| <==> Clear(world, old(tried), tried))
                && (done < |data| && Synced(world, old(tried), tried) ==>
                      Stopped(pages.Keys, partition, step, start, start + done))
    {
      hide Coherent, Listed, Clear, Cached, Stopped, Later, Stale, Synced, Chunk, Key;
      var bad := CheckRange(offset, size);
      if bad.Some? { return bad.value; }
      var done := WriteBlocks(offset / blockSize, data);
      SpliceNothing(old(disk), partition + offset / blockSize);
      assert done == 0 ==> data[..done] == [] && disk == old(disk);
      r := if done == 0 then EIO else Bytes(done);
    }
  }

  lemma OnGrid(a: nat, b: nat, step: nat)
    requires 0 < step && a % step == 0 && b % step == 0
    ensures (a + b) % step == 0
  {
    var x, y := a / step, b / step;
    assert a + b == (x + y) * step;
    MulMod(x + y, step);
  }

  lemma MulMod(x: nat, step: nat)
    requires 0 < step
    ensures x * step % step == 0
  {
    var q, r := x * step / step, x * step % step;
    assert x * step == q * step + r;
    if q < x { MulMono(q + 1, x, step); } else if x < q { MulMono(x + 1, q, step); }
  }

  /** The block behind a page lies on the grid too, and pages of the grid fit the disk. */
  lemma PageFits(partition: nat, block: nat, size: nat, step: nat)
    requires 0 < step && partition % step == 0 && size % step == 0 && partition + block < size
    ensures block - block % step >= 0 && (block - block % step) % step == 0
    ensures OnPage(partition + (block - block % step), size, step)
  {
    var start := block - block % step;
    assert start == block / step * step;
    MulMod(block / step, step);
    OnGrid(partition, start, step);
    Apart(partition + start, size, step);
  }
}
