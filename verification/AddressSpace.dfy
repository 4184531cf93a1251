/** A process's address space as a list of regions (kernel/mem/vm_allocator.c, kernel/mem/vm_region.c): unmapping,
    protecting and mapping cut, trim and insert regions, and act on the pages like a map. Addresses, lengths and
    object offsets count pages; an offset below zero stands for its value modulo the word size. */
module AddressSpace {
  import opened Common

  datatype Flag = Write | NoExec | User | Stack | ProtNone | Shared

  datatype Kind = AnonMapping | TaskStack | StackGuard | Heap | Other(number: nat)

  datatype Region = Region(start: nat, end: nat, flags: set<Flag>, kind: Kind, obj: Option<nat>, offset: int)

  /** What one page is: the page of the object behind it is `offset`. */
  datatype Info = Info(flags: set<Flag>, kind: Kind, obj: Option<nat>, offset: int)

  predicate Covers(r: Region, a: nat) { r.start <= a < r.end }

  function InfoOf(r: Region, a: nat): (i: Info) { Info(r.flags, r.kind, r.obj, r.offset + a - r.start) }

  /** The page-indexed map a list of regions stands for. */
  function Lookup(mem: seq<Region>, a: nat): (r: Option<Info>) {
    if mem == [] then None else if Covers(mem[0], a) then Some(InfoOf(mem[0], a)) else Lookup(mem[1..], a)
  }

  /** Ascending and disjoint. Regions may be empty. */
  ghost predicate Sorted(mem: seq<Region>) {
    && (forall i :: 0 <= i < |mem| ==> mem[i].start <= mem[i].end)
    && (forall i, j :: 0 <= i < j < |mem| ==> mem[i].end <= mem[j].start)
  }

  /** One reference per region with an object. */
  ghost function References(mem: seq<Region>): (r: multiset<nat>) {
    if mem == [] then multiset{}
    else (if mem[0].obj.Some? then multiset{mem[0].obj.value} else multiset{}) + References(mem[1..])
  }

  // ---------------------------------------------------------------- lists

  lemma {:induction false} LookupConcat(xs: seq<Region>, ys: seq<Region>, a: nat)
    ensures Lookup(xs + ys, a) == if Lookup(xs, a).Some? then Lookup(xs, a) else Lookup(ys, a)
  {
    if xs == [] {
      assert xs + ys == ys;
    } else {
      assert (xs + ys)[0] == xs[0] && (xs + ys)[1..] == xs[1..] + ys;
      LookupConcat(xs[1..], ys, a);
    }
  }

  lemma {:induction false} ReferencesConcat(xs: seq<Region>, ys: seq<Region>)
    ensures References(xs + ys) == References(xs) + References(ys)
  {
    if xs == [] {
      assert xs + ys == ys;
    } else {
      assert (xs + ys)[0] == xs[0] && (xs + ys)[1..] == xs[1..] + ys;
      ReferencesConcat(xs[1..], ys);
    }
  }

  lemma {:induction false} LookupNone(mem: seq<Region>, a: nat)
    ensures Lookup(mem, a).None? <==> forall i :: 0 <= i < |mem| ==> !Covers(mem[i], a)
  {
    if mem != [] {
      LookupNone(mem[1..], a);
      if !Covers(mem[0], a) {
        assert (forall i :: 0 <= i < |mem| ==> !Covers(mem[i], a)) <==
               (forall i :: 0 <= i < |mem[1..]| ==> !Covers(mem[1..][i], a)) by {
          assert forall i :: 0 < i < |mem| ==> mem[i] == mem[1..][i - 1];
        }
        assert forall i :: 0 <= i < |mem[1..]| ==> mem[1..][i] == mem[i + 1];
      }
    }
  }

  /** A list around its i-th region. */
  lemma At(mem: seq<Region>, i: nat, a: nat)
    requires i < |mem|
    ensures Lookup(mem, a) == (if Lookup(mem[..i], a).Some? then Lookup(mem[..i], a)
                               else if Covers(mem[i], a) then Some(InfoOf(mem[i], a)) else Lookup(mem[i + 1..], a))
  {
    assert mem == mem[..i] + mem[i..];
    LookupConcat(mem[..i], mem[i..], a);
    assert mem[i..][0] == mem[i] && mem[i..][1..] == mem[i + 1..];
  }

  lemma Around(mem: seq<Region>, i: nat, a: nat)
    requires Sorted(mem) && i < |mem| && mem[i].start <= a < mem[i].end
    ensures Lookup(mem[..i], a).None? && Lookup(mem[i + 1..], a).None?
  {
    var before, after := mem[..i], mem[i + 1..];
    LookupNone(before, a);
    LookupNone(after, a);
    forall j | 0 <= j < |before| ensures !Covers(before[j], a) { assert before[j] == mem[j]; }
    forall j | 0 <= j < |after| ensures !Covers(after[j], a) { assert after[j] == mem[i + 1 + j]; }
  }

  lemma ReferencesAt(mem: seq<Region>, i: nat)
    requires i < |mem|
    ensures References(mem) == References(mem[..i]) + References([mem[i]]) + References(mem[i + 1..])
  {
    hide References;
    var tail := [mem[i]] + mem[i + 1..];
    assert mem == mem[..i] + tail;
    ReferencesConcat(mem[..i], tail);
    ReferencesConcat([mem[i]], mem[i + 1..]);
  }

  /** Replacing one region by one inside it: the list stays sorted, pages elsewhere stay as they were. */
  lemma Trimmed(mem: seq<Region>, i: nat, r: Region, a: nat)
    requires Sorted(mem) && i < |mem| && mem[i].start <= r.start <= r.end <= mem[i].end
    ensures Sorted(mem[i := r])
    ensures Lookup(mem[i := r], a) == if !Covers(mem[i], a) then Lookup(mem, a)
        else if Covers(r, a) then Some(InfoOf(r, a)) else None
  {
    var mem' := mem[i := r];
    assert mem'[..i] == mem[..i] && mem'[i + 1..] == mem[i + 1..];
    hide Lookup, InfoOf;
    At(mem, i, a);
    At(mem', i, a);
    if Covers(mem[i], a) { Around(mem, i, a); }
  }

  lemma TrimmedReferences(mem: seq<Region>, i: nat, r: Region)
    requires i < |mem| && r.obj == mem[i].obj
    ensures References(mem[i := r]) == References(mem)
  {
    var mem' := mem[i := r];
    assert mem'[..i] == mem[..i] && mem'[i + 1..] == mem[i + 1..];
    assert References([r]) == References([mem[i]]) by { assert [r][1..] == [] && [mem[i]][1..] == []; }
    hide References;
    ReferencesAt(mem, i);
    ReferencesAt(mem', i);
  }

  lemma Removed(mem: seq<Region>, i: nat, a: nat)
    requires Sorted(mem) && i < |mem|
    ensures Sorted(mem[..i] + mem[i + 1..])
    ensures Lookup(mem[..i] + mem[i + 1..], a) == if Covers(mem[i], a) then None else Lookup(mem, a)
  {
    hide Lookup, InfoOf;
    At(mem, i, a);
    LookupConcat(mem[..i], mem[i + 1..], a);
    if Covers(mem[i], a) { Around(mem, i, a); }
  }

  lemma RemovedReferences(mem: seq<Region>, i: nat)
    requires i < |mem|
    ensures References(mem) == References(mem[..i] + mem[i + 1..]) + References([mem[i]])
  {
    hide References;
    ReferencesAt(mem, i);
    ReferencesConcat(mem[..i], mem[i + 1..]);
  }

  /** Where a region goes: before the first one that starts at its end or later. */
  function Position(mem: seq<Region>, end: nat): (i: nat)
    ensures i <= |mem| && (forall j :: 0 <= j < i ==> mem[j].start < end) && (i < |mem| ==> end <= mem[i].start)
  {
    if mem == [] || end <= mem[0].start then 0 else 1 + Position(mem[1..], end)
  }

  lemma {:induction false} PositionIs(mem: seq<Region>, end: nat, i: nat)
    requires i <= |mem| && (forall j :: 0 <= j < i ==> mem[j].start < end) && (i < |mem| ==> end <= mem[i].start)
    ensures i == Position(mem, end)
  {
    var p := Position(mem, end);
    assert !(p < i) && !(i < p);
  }

  function Insert(mem: seq<Region>, r: Region): (s: seq<Region>) {
    var i := Position(mem, r.end);
    mem[..i] + [r] + mem[i..]
  }

  /** No region reaches into lo..hi. */
  ghost predicate Free(mem: seq<Region>, lo: nat, hi: nat) {
    forall j :: 0 <= j < |mem| ==> mem[j].end <= lo || hi <= mem[j].start
  }

  lemma InsertedAt(mem: seq<Region>, r: Region, j: nat)
    requires j <= |mem|
    ensures var i, mem' := Position(mem, r.end), Insert(mem, r);
            |mem'| == |mem| + 1 && mem'[j] == if j < i then mem[j] else if j == i then r else mem[j - 1]
  {
    hide Position;
  }

  lemma InsertedSorted(mem: seq<Region>, r: Region)
    requires Sorted(mem) && r.start <= r.end && Free(mem, r.start, r.end)
    ensures Sorted(Insert(mem, r))
  {
    hide Insert, Position;
    InsertedAt(mem, r, 0);
    var i, mem' := Position(mem, r.end), Insert(mem, r);
    forall j | 0 <= j < i ensures mem[j].end <= r.start { assert mem[j].start < r.end; }
    assert forall j :: i <= j < |mem| ==> r.end <= mem[j].start;
    forall j | 0 <= j < |mem'| ensures mem'[j].start <= mem'[j].end { InsertedAt(mem, r, j); }
    hide Free;
    forall j, k | 0 <= j < k < |mem'| ensures mem'[j].end <= mem'[k].start {
      InsertedAt(mem, r, j);
      InsertedAt(mem, r, k);
    }
  }

  lemma Inserted(mem: seq<Region>, r: Region, a: nat)
    requires Sorted(mem) && r.start <= r.end && Free(mem, r.start, r.end)
    ensures Lookup(Insert(mem, r), a) == if Covers(r, a) then Some(InfoOf(r, a)) else Lookup(mem, a)
  {
    hide Lookup, InfoOf, Sorted;
    InsertedSorted(mem, r);
    var i, mem' := Position(mem, r.end), Insert(mem, r);
    assert mem'[..i] == mem[..i] && mem'[i + 1..] == mem[i..] && mem'[i] == r && mem == mem[..i] + mem[i..];
    hide Position, Insert;
    At(mem', i, a);
    LookupConcat(mem[..i], mem[i..], a);
    if Covers(r, a) { Around(mem', i, a); }
  }

  lemma InsertedReferences(mem: seq<Region>, r: Region)
    ensures References(Insert(mem, r)) == References(mem) + References([r])
  {
    hide References;
    var i, mem' := Position(mem, r.end), Insert(mem, r);
    assert mem'[..i] == mem[..i] && mem'[i + 1..] == mem[i..] && mem'[i] == r && mem == mem[..i] + mem[i..];
    ReferencesAt(mem', i);
    ReferencesConcat(mem[..i], mem[i..]);
  }

  lemma LookupIs(mem: seq<Region>, i: nat, a: nat)
    requires Sorted(mem) && i < |mem| && Covers(mem[i], a)
    ensures Lookup(mem, a) == Some(InfoOf(mem[i], a))
  {
    hide Lookup, InfoOf;
    At(mem, i, a);
    Around(mem, i, a);
  }

  // ---------------------------------------------------------------- ranges

  /** The test of the search for a region in a range. */
  predicate Hits(r: Region, lo: nat, hi: nat) {
    (lo <= r.start && r.end <= hi) || (r.start <= lo < r.end) || (r.start < hi <= r.end)
  }

  ghost predicate NoHits(mem: seq<Region>, lo: nat, hi: nat) { forall j :: 0 <= j < |mem| ==> !Hits(mem[j], lo, hi) }

  /** The range lies strictly inside the region. */
  predicate Strict(r: Region, lo: nat, hi: nat) { r.start < lo && hi < r.end }

  /** The part of a split region behind the range, as unmapping records it. */
  function UpperPart(r: Region, hi: nat): (s: Region)
    requires hi <= r.end
  {
    r.(start := hi, offset := r.offset + r.end - r.start)
  }

  function CutMiddle(mem: seq<Region>, i: nat, lo: nat, hi: nat): (s: seq<Region>)
    requires i < |mem| && Strict(mem[i], lo, hi)
  {
    Insert(mem[i := mem[i].(end := lo)], UpperPart(mem[i], hi))
  }

  lemma CutMiddleSorted(mem: seq<Region>, i: nat, lo: nat, hi: nat)
    requires Sorted(mem) && i < |mem| && Strict(mem[i], lo, hi) && lo <= hi
    ensures Sorted(CutMiddle(mem, i, lo, hi)) && Free(mem[i := mem[i].(end := lo)], hi, mem[i].end)
    ensures References(CutMiddle(mem, i, lo, hi)) == References(mem) + References([mem[i]])
  {
    var mem', u := mem[i := mem[i].(end := lo)], UpperPart(mem[i], hi);
    Trimmed(mem, i, mem[i].(end := lo), 0);
    InsertedSorted(mem', u);
    assert References([u]) == References([mem[i]]) by { assert [u][1..] == [] && [mem[i]][1..] == []; }
    hide References, Insert;
    TrimmedReferences(mem, i, mem[i].(end := lo));
    InsertedReferences(mem', u);
  }

  /** Splitting removes the range; pages behind it get an offset that is too large by their region's rest. */
  lemma CutMiddlePages(mem: seq<Region>, i: nat, lo: nat, hi: nat, a: nat)
    requires Sorted(mem) && i < |mem| && Strict(mem[i], lo, hi) && lo <= hi
    ensures Lookup(CutMiddle(mem, i, lo, hi), a) ==
            if lo <= a < hi then None
            else if hi <= a < mem[i].end
            then Some(InfoOf(mem[i], a).(offset := InfoOf(mem[i], a).offset + mem[i].end - hi))
            else Lookup(mem, a)
  {
    hide Lookup, Sorted, Insert;
    var r := mem[i].(end := lo);
    CutMiddleSorted(mem, i, lo, hi);
    Trimmed(mem, i, r, a);
    Inserted(mem[i := r], UpperPart(mem[i], hi), a);
    if r.start <= a < r.end { LookupIs(mem, i, a); }
  }

  // ---------------------------------------------------------------- unmapping

  /** A page table without the entries of a range. */
  function Without(ptes: map<nat, set<Flag>>, lo: nat, hi: nat): (r: map<nat, set<Flag>>) {
    map a | a in ptes && !(lo <= a < hi) :: ptes[a]
  }

  ghost predicate Inside(mem: seq<Region>, ptes: map<nat, set<Flag>>) {
    forall a: nat :: a in ptes ==> Lookup(mem, a).Some?
  }

  ghost predicate PageKept(was: seq<Region>, mem: seq<Region>, lo: nat, hi: nat, a: nat) {
    Lookup(mem, a) == Lookup(was, a) || (lo <= a < hi && Lookup(mem, a).None?)
  }

  /** Where unmapping of lo..hi stands: everything below `addr` is done. */
  ghost predicate Unmapping(was: seq<Region>, mem: seq<Region>, lo: nat, addr: nat, hi: nat) {
    && Sorted(mem) && lo <= addr <= hi
    && (forall a: nat :: PageKept(was, mem, lo, hi, a))
    && (forall a: nat :: lo <= a < addr ==> Lookup(mem, a).None?)
    && (addr == lo || Free(mem, lo, addr))
    && (forall r :: Strict(r, lo, hi) ==> (r in mem <==> r in was))
  }

  /** Page a of region r lies behind the range that r strictly contains. */
  predicate Behind(r: Region, lo: nat, hi: nat, a: nat) { Strict(r, lo, hi) && hi <= a < r.end }

  function Misplaced(r: Region, hi: nat, a: nat): (i: Info) {
    InfoOf(r, a).(offset := InfoOf(r, a).offset + r.end - hi)
  }

  ghost predicate PageUnmapped(was: seq<Region>, mem: seq<Region>, lo: nat, hi: nat, a: nat) {
    && (lo <= a < hi ==> Lookup(mem, a).None?)
    && (!(lo <= a < hi) && (forall r :: r in was ==> !Behind(r, lo, hi, a)) ==> Lookup(mem, a) == Lookup(was, a))
    && (forall r :: r in was && Behind(r, lo, hi, a) ==> Lookup(mem, a) == Some(Misplaced(r, hi, a)))
  }

  /** The result: exactly the pages of the range are gone. Other pages are what they were, except that those
      behind a range strictly inside one region are backed from too far on. */
  ghost predicate Unmapped(was: seq<Region>, mem: seq<Region>, lo: nat, hi: nat) {
    Sorted(mem) && Free(mem, lo, hi) && forall a: nat :: PageUnmapped(was, mem, lo, hi, a)
  }

  /** The search found region i: what no earlier region does. */
  ghost predicate First(mem: seq<Region>, i: nat, lo: nat, hi: nat) {
    i < |mem| && Hits(mem[i], lo, hi) && forall j :: 0 <= j < i ==> !Hits(mem[j], lo, hi)
  }

  lemma OnlyStrictAtStart(was: seq<Region>, mem: seq<Region>, lo: nat, addr: nat, hi: nat, i: nat)
    requires Unmapping(was, mem, lo, addr, hi) && addr < hi && First(mem, i, addr, hi) && mem[i].start < addr
    ensures addr == lo && addr < mem[i].end
  {
    hide PageKept;
    assert mem[i].start <= mem[i].end;
  }

  lemma StillThere(mem: seq<Region>, i: nat, r: Region, x: Region)
    requires i < |mem| && x != mem[i] && x != r
    ensures x in mem[i := r] <==> x in mem
    ensures x in mem[..i] + mem[i + 1..] <==> x in mem
  {
    var s, t := mem[i := r], mem[..i] + mem[i + 1..];
    if x in mem {
      var k :| 0 <= k < |mem| && mem[k] == x;
      assert s[k] == x && t[if k < i then k else k - 1] == x;
    }
  }

  lemma UnmapTail(was: seq<Region>, mem: seq<Region>, lo: nat, addr: nat, hi: nat, i: nat)
    requires Unmapping(was, mem, lo, addr, hi) && addr < hi && First(mem, i, addr, hi) && mem[i].start < addr
    requires mem[i].end <= hi
    ensures addr < mem[i].end && Unmapping(was, mem[i := mem[i].(end := addr)], lo, mem[i].end, hi)
  {
    OnlyStrictAtStart(was, mem, lo, addr, hi, i);
    var r := mem[i].(end := addr);
    var mem' := mem[i := r];
    forall a: nat ensures PageKept(was, mem', lo, hi, a) && (lo <= a < mem[i].end ==> Lookup(mem', a).None?) {
      assert PageKept(was, mem, lo, hi, a);
      hide Sorted, Lookup;
      Trimmed(mem, i, r, a);
      if r.start <= a < addr { LookupIs(mem, i, a); }
    }
    Trimmed(mem, i, r, 0);
    hide PageKept, Lookup;
    forall x | Strict(x, lo, hi) ensures x in mem' <==> x in was {
      StillThere(mem, i, r, x);
    }
  }

  lemma UnmapWhole(was: seq<Region>, mem: seq<Region>, lo: nat, addr: nat, hi: nat, i: nat)
    requires Unmapping(was, mem, lo, addr, hi) && addr < hi && First(mem, i, addr, hi) && addr <= mem[i].start
    requires mem[i].end <= hi
    ensures Unmapping(was, mem[..i] + mem[i + 1..], lo, addr, hi)
  {
    var mem' := mem[..i] + mem[i + 1..];
    forall a: nat ensures PageKept(was, mem', lo, hi, a) && (lo <= a < addr ==> Lookup(mem', a).None?) {
      assert PageKept(was, mem, lo, hi, a);
      hide Sorted, Lookup;
      Removed(mem, i, a);
    }
    Removed(mem, i, 0);
    hide PageKept, Lookup;
    forall x | Strict(x, lo, hi) ensures x in mem' <==> x in was {
      StillThere(mem, i, mem[i], x);
    }
    assert forall k :: 0 <= k < |mem'| ==> mem'[k] == mem[if k < i then k else k + 1];
  }

  /** A region that is not hit does not reach into the range. */
  lemma NotHit(r: Region, lo: nat, hi: nat)
    requires r.start <= r.end && lo < hi && !Hits(r, lo, hi)
    ensures r.end <= lo || hi <= r.start
  {
  }

  /** Nothing before the first region hit, or after a region that ends behind the range, lies in the range. */
  lemma NothingElse(mem: seq<Region>, i: nat, lo: nat, hi: nat, a: nat)
    requires Sorted(mem) && lo < hi && First(mem, i, lo, hi) && hi < mem[i].end && lo <= a < hi && !Covers(mem[i], a)
    ensures Lookup(mem, a).None?
  {
    LookupNone(mem, a);
    forall j | 0 <= j < |mem| ensures !Covers(mem[j], a) {
      if j < i { NotHit(mem[j], lo, hi); }
    }
  }

  lemma UnmapHead(was: seq<Region>, mem: seq<Region>, lo: nat, addr: nat, hi: nat, i: nat)
    requires Sorted(was) && Unmapping(was, mem, lo, addr, hi) && addr < hi && First(mem, i, addr, hi)
    requires addr <= mem[i].start && hi < mem[i].end
    ensures mem[i].start < hi
    ensures Unmapped(was, mem[i := mem[i].(start := hi, offset := mem[i].offset + hi - mem[i].start)], lo, hi)
  {
    var r := mem[i].(start := hi, offset := mem[i].offset + hi - mem[i].start);
    var mem' := mem[i := r];
    NoneStrict(was, mem, lo, addr, hi, i);
    forall a: nat ensures PageUnmapped(was, mem', lo, hi, a) {
      assert PageKept(was, mem, lo, hi, a);
      Trimmed(mem, i, r, a);
      hide Sorted, Lookup;
      if Covers(r, a) { LookupIs(mem, i, a); }
      if addr <= a < hi && !Covers(mem[i], a) { NothingElse(mem, i, addr, hi, a); }
    }
    Trimmed(mem, i, r, 0);
    hide Lookup, PageUnmapped, PageKept;
    forall j | 0 <= j < |mem'| ensures mem'[j].end <= lo || hi <= mem'[j].start {
      if j < i { NotHit(mem[j], addr, hi); }
    }
  }

  /** When another region is hit no region strictly contains the range. */
  lemma NoneStrict(was: seq<Region>, mem: seq<Region>, lo: nat, addr: nat, hi: nat, i: nat)
    requires Unmapping(was, mem, lo, addr, hi) && addr < hi && First(mem, i, addr, hi) && !(mem[i].start < addr)
    ensures forall r :: r in was ==> !Strict(r, lo, hi)
  {
    hide PageKept, Lookup;
    forall k | 0 <= k < |mem| ensures !Strict(mem[k], lo, hi) {
      assert k < i ==> mem[k].end <= mem[i].start;
      assert i < k ==> mem[i].end <= mem[k].start;
    }
    forall r | r in was ensures !Strict(r, lo, hi) { assert Strict(r, lo, hi) ==> r in mem; }
  }

  lemma UnmapMiddle(was: seq<Region>, mem: seq<Region>, lo: nat, addr: nat, hi: nat, i: nat)
    requires Sorted(was) && Unmapping(was, mem, lo, addr, hi) && addr < hi && First(mem, i, addr, hi)
    requires Strict(mem[i], addr, hi)
    ensures Unmapped(was, CutMiddle(mem, i, addr, hi), lo, hi)
  {
    OnlyStrictAtStart(was, mem, lo, addr, hi, i);
    assert mem[i] in was;
    forall a: nat ensures PageUnmapped(was, CutMiddle(mem, i, addr, hi), lo, hi, a) {
      assert PageKept(was, mem, lo, hi, a);
      CutMiddlePages(mem, i, addr, hi, a);
      forall r | r in was && Behind(r, lo, hi, a) ensures r == mem[i] { OneStrict(was, r, mem[i], lo, hi); }
      hide Sorted, Lookup, CutMiddle;
    }
    CutMiddleSorted(mem, i, addr, hi);
    hide Lookup, PageUnmapped, PageKept;
    CutMiddleFree(mem, i, addr, hi);
  }

  lemma CutMiddleFree(mem: seq<Region>, i: nat, lo: nat, hi: nat)
    requires Sorted(mem) && i < |mem| && Strict(mem[i], lo, hi) && lo <= hi
    ensures Free(CutMiddle(mem, i, lo, hi), lo, hi)
  {
    var mem', u := mem[i := mem[i].(end := lo)], UpperPart(mem[i], hi);
    assert Free(mem', lo, hi);
    InsertedAt(mem', u, 0);
    hide Insert, Position;
    forall j | 0 <= j < |Insert(mem', u)| ensures Insert(mem', u)[j].end <= lo || hi <= Insert(mem', u)[j].start {
      InsertedAt(mem', u, j);
    }
  }

  lemma OneStrict(mem: seq<Region>, r: Region, s: Region, lo: nat, hi: nat)
    requires Sorted(mem) && r in mem && s in mem && Strict(r, lo, hi) && Strict(s, lo, hi) && lo <= hi
    ensures r == s
  {
    var i :| 0 <= i < |mem| && mem[i] == r;
    var j :| 0 <= j < |mem| && mem[j] == s;
    assert !(i < j) && !(j < i);
  }

  lemma UnmapDone(was: seq<Region>, mem: seq<Region>, lo: nat, addr: nat, hi: nat)
    requires Sorted(was) && Unmapping(was, mem, lo, addr, hi) && lo < hi
    requires addr == hi || NoHits(mem, addr, hi)
    ensures Unmapped(was, mem, lo, hi)
  {
    assert forall r :: r in was ==> !Strict(r, lo, hi) by {
      hide PageKept, Lookup;
      assert forall k :: 0 <= k < |mem| ==> !Strict(mem[k], lo, hi);
      forall r | r in was ensures !Strict(r, lo, hi) { assert Strict(r, lo, hi) ==> r in mem; }
    }
    forall j | 0 <= j < |mem| ensures mem[j].end <= lo || hi <= mem[j].start {
      hide PageKept, Lookup;
      if addr < hi { NotHit(mem[j], addr, hi); }
    }
    forall a: nat ensures PageUnmapped(was, mem, lo, hi, a) {
      assert PageKept(was, mem, lo, hi, a);
      if addr <= a < hi {
        LookupNone(mem, a);
        hide Lookup;
        forall j | 0 <= j < |mem| ensures !Covers(mem[j], a) { NotHit(mem[j], addr, hi); }
      }
    }
  }

  /** Pages outside the range keep the object page behind them if and only if no region strictly contains it. */
  lemma UnmapKeepsBacking(was: seq<Region>, mem: seq<Region>, lo: nat, hi: nat)
    requires Sorted(was) && lo < hi && Unmapped(was, mem, lo, hi)
    ensures (forall a: nat :: !(lo <= a < hi) ==> Lookup(mem, a) == Lookup(was, a)) <==>
              (forall r :: r in was ==> !Strict(r, lo, hi))
  {
    if forall r :: r in was ==> !Strict(r, lo, hi) {
      forall a: nat | !(lo <= a < hi)
        ensures Lookup(mem, a) == Lookup(was, a)
      {
        assert PageUnmapped(was, mem, lo, hi, a);
      }
    } else {
      var k :| 0 <= k < |was| && Strict(was[k], lo, hi);
      assert PageUnmapped(was, mem, lo, hi, hi) && Behind(was[k], lo, hi, hi);
      LookupIs(was, k, hi);
    }
  }

  /** Three pages of object 7. */
  function ThreePages(): (r: Region) { Region(0, 3, {}, AnonMapping, Some(7), 0) }

  lemma UnmappedPage(was: seq<Region>, mem: seq<Region>, lo: nat, hi: nat, r: Region, a: nat)
    requires Unmapped(was, mem, lo, hi) && r in was && Behind(r, lo, hi, a)
    ensures Lookup(mem, a) == Some(Misplaced(r, hi, a))
  {
    assert PageUnmapped(was, mem, lo, hi, a);
  }

  /** The smallest instance: of three pages the middle one is unmapped, and the last is then recorded as backed by
      page 3 of the object instead of page 2. */
  lemma UnmapMisplaces(mem: seq<Region>)
    requires Unmapped([ThreePages()], mem, 1, 2)
    ensures Lookup([ThreePages()], 2) == Some(Info({}, AnonMapping, Some(7), 2))
    ensures Lookup(mem, 2) == Some(Info({}, AnonMapping, Some(7), 3))
  {
    hide Unmapped;
    UnmappedPage([ThreePages()], mem, 1, 2, ThreePages(), 2);
  }
}
