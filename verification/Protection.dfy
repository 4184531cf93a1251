/** What changing protections does to the regions of an address space (kernel/mem/vm_allocator.c). */
module Protection {
  import opened Common
  import opened AddressSpace

  /** The kinds whose regions may be cut at the end of the range. */
  predicate Protectable(kind: Kind) { kind.AnonMapping? || kind.TaskStack? || kind.StackGuard? }

  function NewFlags(before: set<Flag>, flags: set<Flag>): (r: set<Flag>) { (before * {Stack}) + flags }

  ghost predicate NonEmpty(mem: seq<Region>) { forall i :: 0 <= i < |mem| ==> mem[i].start < mem[i].end }

  /** Page a of region r gets the new protection: it is in the range, and the region does not end behind the
      range unless it may be cut. */
  predicate Reflagged(r: Region, lo: nat, hi: nat, a: nat) { lo <= a < hi && (r.end <= hi || Protectable(r.kind)) }

  /** By how much the recorded object page is too low: when the range lies strictly inside the region, all three
      parts are recorded as if they started at the region's offset. */
  function Slip(r: Region, lo: nat, hi: nat, a: nat): (n: int) {
    if !Strict(r, lo, hi) || !Protectable(r.kind) then 0 else if a < hi then lo - r.start else hi - r.start
  }

  function AfterProtect(r: Region, lo: nat, hi: nat, flags: set<Flag>, a: nat): (i: Info) {
    InfoOf(r, a).(flags := if Reflagged(r, lo, hi, a) then NewFlags(r.flags, flags) else r.flags,
                  offset := InfoOf(r, a).offset - Slip(r, lo, hi, a))
  }

  ghost predicate PageProtected(was: seq<Region>, mem: seq<Region>, lo: nat, hi: nat, flags: set<Flag>, a: nat) {
    && (Lookup(was, a).None? ==> Lookup(mem, a).None?)
    && (forall r :: r in was && Covers(r, a) ==> Lookup(mem, a) == Some(AfterProtect(r, lo, hi, flags, a)))
  }

  /** No page is mapped or unmapped; the pages of the range change their flags, all others stay. */
  ghost predicate Protected(was: seq<Region>, mem: seq<Region>, lo: nat, hi: nat, flags: set<Flag>) {
    Sorted(mem) && NonEmpty(mem) && forall a: nat :: PageProtected(was, mem, lo, hi, flags, a)
  }

  ghost predicate NoStrict(mem: seq<Region>, lo: nat, hi: nat) { forall r :: r in mem ==> !Strict(r, lo, hi) }

  /** Pages below `addr` are done, the others as they were. */
  ghost predicate DoneBelow(was: seq<Region>, mem: seq<Region>, lo: nat, addr: nat, hi: nat, flags: set<Flag>) {
    && (forall a: nat :: a < addr ==> PageProtected(was, mem, lo, hi, flags, a))
    && (forall a: nat :: addr <= a ==> Lookup(mem, a) == Lookup(was, a))
  }

  /** Where protecting lo..hi stands. */
  ghost predicate Protecting(was: seq<Region>, mem: seq<Region>, lo: nat, addr: nat, hi: nat, flags: set<Flag>) {
    && Sorted(was) && NonEmpty(was) && Sorted(mem) && NonEmpty(mem) && lo <= addr <= hi
    && (addr == lo ==> mem == was)
    && (lo < addr ==>
          && DoneBelow(was, mem, lo, addr, hi, flags) && NoStrict(was, lo, hi) && Free(mem, addr, addr)
          && forall r :: r in mem && addr <= r.start ==> r in was)
  }

  lemma CoveredBy(mem: seq<Region>, r: Region, a: nat)
    requires Sorted(mem) && r in mem && Covers(r, a)
    ensures Lookup(mem, a) == Some(InfoOf(r, a))
  {
    var i :| 0 <= i < |mem| && mem[i] == r;
    LookupIs(mem, i, a);
  }

  /** Pages that are not in the range and not in a region strictly around it are not to change. */
  lemma Untouched(was: seq<Region>, mem: seq<Region>, lo: nat, hi: nat, flags: set<Flag>, a: nat)
    requires Sorted(was) && Lookup(mem, a) == Lookup(was, a)
    requires forall r :: r in was && Covers(r, a) ==> !Reflagged(r, lo, hi, a) && Slip(r, lo, hi, a) == 0
    ensures PageProtected(was, mem, lo, hi, flags, a)
  {
    hide Lookup, Sorted;
    forall r | r in was && Covers(r, a)
      ensures Lookup(mem, a) == Some(AfterProtect(r, lo, hi, flags, a))
    {
      CoveredBy(was, r, a);
    }
  }

  lemma OneCovers(mem: seq<Region>, r: Region, s: Region, a: nat)
    requires Sorted(mem) && r in mem && s in mem && Covers(r, a) && Covers(s, a)
    ensures r == s
  {
    var i :| 0 <= i < |mem| && mem[i] == r;
    var j :| 0 <= j < |mem| && mem[j] == s;
    assert !(i < j) && !(j < i);
  }

  /** A non-empty region that is hit overlaps the range. */
  lemma HitOverlaps(r: Region, lo: nat, hi: nat)
    requires r.start < r.end && lo < hi && Hits(r, lo, hi)
    ensures lo < r.end && r.start < hi
  {
  }

  /** Between the start of the range and the first region hit nothing is mapped. */
  lemma NothingBefore(mem: seq<Region>, i: nat, lo: nat, hi: nat, a: nat)
    requires Sorted(mem) && lo < hi && First(mem, i, lo, hi) && lo <= a < mem[i].end && a < hi && !Covers(mem[i], a)
    ensures Lookup(mem, a).None?
  {
    LookupNone(mem, a);
    forall j | 0 <= j < |mem| ensures !Covers(mem[j], a) {
      if j < i { NotHit(mem[j], lo, hi); }
    }
  }

  /** What holds when a region is found that does not strictly contain what is left of the range. */
  lemma Ready(was: seq<Region>, mem: seq<Region>, lo: nat, addr: nat, hi: nat, flags: set<Flag>, i: nat)
    requires Protecting(was, mem, lo, addr, hi, flags) && addr < hi && First(mem, i, addr, hi)
    requires !Strict(mem[i], addr, hi)
    ensures mem[i] in was && (mem[i].start < addr ==> addr == lo)
    ensures NoStrict(was, lo, hi) && DoneBelow(was, mem, lo, addr, hi, flags)
  {
    HitOverlaps(mem[i], addr, hi);
    if addr == lo {
      hide PageProtected, DoneBelow, Lookup;
      forall r | r in was ensures !Strict(r, lo, hi) {
        var k :| 0 <= k < |was| && was[k] == r;
        assert k < i ==> was[k].end <= was[i].start;
        assert i < k ==> was[i].end <= was[k].start;
      }
      StartDone(was, lo, hi, flags);
    }
  }

  lemma StartDone(was: seq<Region>, lo: nat, hi: nat, flags: set<Flag>)
    requires Sorted(was) && NoStrict(was, lo, hi)
    ensures DoneBelow(was, was, lo, lo, hi, flags)
  {
    forall a: nat | a < lo ensures PageProtected(was, was, lo, hi, flags, a) {
      hide Sorted, PageProtected;
      Untouched(was, was, lo, hi, flags, a);
    }
  }

  ghost predicate PageReflags(mem: seq<Region>, mem': seq<Region>, i: nat, addr: nat, upto: nat, flags: set<Flag>,
          a: nat)
    requires i < |mem|
  {
    Lookup(mem', a) == if addr <= a < upto && Covers(mem[i], a)
                       then Some(InfoOf(mem[i], a).(flags := NewFlags(mem[i].flags, flags)))
                       else Lookup(mem, a)
  }

  /** The pages of region i up to `upto` get the new flags and nothing else changes. */
  ghost predicate Reflags(mem: seq<Region>, mem': seq<Region>, i: nat, addr: nat, upto: nat, flags: set<Flag>)
    requires i < |mem|
  {
    forall a: nat :: PageReflags(mem, mem', i, addr, upto, flags, a)
  }

  lemma Uncovered(mem: seq<Region>, a: nat)
    requires Lookup(mem, a).None?
    ensures forall r :: r in mem ==> !Covers(r, a)
  {
    LookupNone(mem, a);
  }

  lemma PageDone(was: seq<Region>, mem: seq<Region>, mem': seq<Region>, lo: nat, addr: nat, hi: nat, flags: set<Flag>,
          i: nat, upto: nat, a: nat)
    requires Sorted(was) && NoStrict(was, lo, hi) && DoneBelow(was, mem, lo, addr, hi, flags) && Sorted(mem)
    requires addr < hi && lo <= addr && First(mem, i, addr, hi) && mem[i] in was
    requires Reflags(mem, mem', i, addr, upto, flags)
    requires a < upto <= hi && upto <= mem[i].end && (mem[i].end <= hi || Protectable(mem[i].kind))
    ensures PageProtected(was, mem', lo, hi, flags, a)
  {
    assert PageReflags(mem, mem', i, addr, upto, flags, a);
    if a < addr {
      assert PageProtected(was, mem, lo, hi, flags, a);
    } else if Covers(mem[i], a) {
      hide Lookup;
      CoveredBy(was, mem[i], a);
      forall r | r in was && Covers(r, a) ensures r == mem[i] { OneCovers(was, r, mem[i], a); }
    } else {
      hide Lookup;
      NothingBefore(mem, i, addr, hi, a);
      Uncovered(was, a);
    }
  }

  lemma Advance(was: seq<Region>, mem: seq<Region>, mem': seq<Region>, lo: nat, addr: nat, hi: nat, flags: set<Flag>,
          i: nat, upto: nat)
    requires Sorted(was) && NoStrict(was, lo, hi) && DoneBelow(was, mem, lo, addr, hi, flags) && Sorted(mem)
    requires addr < hi && lo <= addr && First(mem, i, addr, hi) && mem[i] in was
    requires Reflags(mem, mem', i, addr, upto, flags)
    requires addr <= upto <= hi && upto <= mem[i].end && (mem[i].end <= hi || Protectable(mem[i].kind))
    ensures DoneBelow(was, mem', lo, upto, hi, flags)
  {
    forall a: nat | a < upto ensures PageProtected(was, mem', lo, hi, flags, a) {
      PageDone(was, mem, mem', lo, addr, hi, flags, i, upto, a);
    }
    forall a: nat | upto <= a
      ensures Lookup(mem', a) == Lookup(was, a)
    {
      assert PageReflags(mem, mem', i, addr, upto, flags, a);
    }
  }

  /** Once everything in the range is done, all is. */
  lemma DoneAll(was: seq<Region>, mem: seq<Region>, lo: nat, hi: nat, flags: set<Flag>)
    requires Sorted(was) && NoStrict(was, lo, hi) && DoneBelow(was, mem, lo, hi, hi, flags) && Sorted(mem)
    requires NonEmpty(mem)
    ensures Protected(was, mem, lo, hi, flags)
  {
    forall a: nat ensures PageProtected(was, mem, lo, hi, flags, a) {
      if hi <= a { hide PageProtected; Untouched(was, mem, lo, hi, flags, a); }
    }
  }

  // ---------------------------------------------------------------- the cuts

  /** All of region i. */
  function FlagRegion(mem: seq<Region>, i: nat, flags: set<Flag>): (r: seq<Region>)
    requires i < |mem|
  {
    mem[i := mem[i].(flags := NewFlags(mem[i].flags, flags))]
  }

  /** Region i from `lo` on becomes a region of its own. */
  function FlagTail(mem: seq<Region>, i: nat, lo: nat, flags: set<Flag>): (r: seq<Region>)
    requires i < |mem| && lo >= mem[i].start
  {
    Insert(mem[i := mem[i].(end := lo)], TailPart(mem[i], lo, flags))
  }

  /** Region i up to `hi` becomes a region of its own. */
  function FlagHead(mem: seq<Region>, i: nat, hi: nat, flags: set<Flag>): (r: seq<Region>)
    requires i < |mem| && hi >= mem[i].start
  {
    Insert(mem[i := Rest(mem[i], hi)], HeadPart(mem[i], hi, flags))
  }

  lemma FlagRegionReflags(mem: seq<Region>, i: nat, flags: set<Flag>, addr: nat)
    requires Sorted(mem) && NonEmpty(mem) && i < |mem| && addr <= mem[i].start
    ensures var mem' := FlagRegion(mem, i, flags);
            Sorted(mem') && NonEmpty(mem') && References(mem') == References(mem)
                && Reflags(mem, mem', i, addr, mem[i].end, flags)
  {
    var r := mem[i].(flags := NewFlags(mem[i].flags, flags));
    hide Lookup, References, InfoOf;
    TrimmedReferences(mem, i, r);
    Trimmed(mem, i, r, 0);
    forall a: nat
      ensures PageReflags(mem, FlagRegion(mem, i, flags), i, addr, mem[i].end, flags, a)
    {
      FlagRegionPage(mem, i, flags, addr, a);
    }
  }

  lemma FlagRegionPage(mem: seq<Region>, i: nat, flags: set<Flag>, addr: nat, a: nat)
    requires Sorted(mem) && NonEmpty(mem) && i < |mem| && addr <= mem[i].start
    ensures PageReflags(mem, FlagRegion(mem, i, flags), i, addr, mem[i].end, flags, a)
  {
    hide Lookup, Sorted;
    Trimmed(mem, i, mem[i].(flags := NewFlags(mem[i].flags, flags)), a);
  }

  lemma NonEmptyInserted(mem: seq<Region>, r: Region)
    requires NonEmpty(mem) && r.start < r.end
    ensures NonEmpty(Insert(mem, r))
  {
    InsertedAt(mem, r, 0);
    forall j | 0 <= j < |Insert(mem, r)|
      ensures Insert(mem, r)[j].start < Insert(mem, r)[j].end
    {
      InsertedAt(mem, r, j);
    }
  }

  /** A region and the part cut off at its end or its start. */
  predicate Parts(x: Region, r: Region, part: Region) {
    && r.obj == part.obj == x.obj && r.start < r.end && part.start < part.end
    && ((x.start == r.start && r.end == part.start && part.end == x.end)
        || (x.start == part.start && part.end == r.start && r.end == x.end))
  }

  /** The part is put back beside the trimmed region. */
  lemma CutOff(mem: seq<Region>, i: nat, r: Region, part: Region)
    requires Sorted(mem) && NonEmpty(mem) && i < |mem| && Parts(mem[i], r, part)
    ensures var cut := mem[i := r];
            && Sorted(cut) && Free(cut, part.start, part.end)
            && Sorted(Insert(cut, part)) && NonEmpty(Insert(cut, part))
            && References(Insert(cut, part)) == References(mem) + References([mem[i]])
  {
    var cut := mem[i := r];
    Trimmed(mem, i, r, 0);
    assert Free(cut, part.start, part.end) && NonEmpty(cut);
    assert References([part]) == References([mem[i]]) by { assert [part][1..] == [] && [mem[i]][1..] == []; }
    hide Insert, Lookup, Sorted, References, Free;
    InsertedSorted(cut, part);
    NonEmptyInserted(cut, part);
    TrimmedReferences(mem, i, r);
    InsertedReferences(cut, part);
  }

  lemma CutOffPage(mem: seq<Region>, i: nat, r: Region, part: Region, a: nat)
    requires Sorted(mem) && NonEmpty(mem) && i < |mem| && Parts(mem[i], r, part)
    ensures Lookup(Insert(mem[i := r], part), a) ==
            if Covers(part, a) then Some(InfoOf(part, a)) else if Covers(r, a) then Some(InfoOf(r, a))
                else Lookup(mem, a)
  {
    hide Insert, Lookup, Sorted, Free, InfoOf, NonEmpty;
    CutOff(mem, i, r, part);
    Trimmed(mem, i, r, a);
    Inserted(mem[i := r], part, a);
  }

  function TailPart(x: Region, lo: nat, flags: set<Flag>): (r: Region)
    requires lo >= x.start
  {
    x.(start := lo, flags := NewFlags(x.flags, flags), offset := x.offset + (lo - x.start))
  }

  function Rest(x: Region, hi: nat): (r: Region)
    requires hi >= x.start
  {
    x.(start := hi, offset := x.offset + (hi - x.start))
  }

  function HeadPart(x: Region, hi: nat,
          flags: set<Flag>): (r: Region) { x.(end := hi, flags := NewFlags(x.flags, flags)) }

  lemma FlagTailPage(mem: seq<Region>, i: nat, lo: nat, flags: set<Flag>, a: nat)
    requires Sorted(mem) && NonEmpty(mem) && i < |mem| && mem[i].start < lo < mem[i].end
    ensures PageReflags(mem, FlagTail(mem, i, lo, flags), i, lo, mem[i].end, flags, a)
  {
    hide Insert, Lookup, Sorted;
    CutOffPage(mem, i, mem[i].(end := lo), TailPart(mem[i], lo, flags), a);
    if mem[i].start <= a < lo { LookupIs(mem, i, a); }
  }

  lemma FlagTailReflags(mem: seq<Region>, i: nat, lo: nat, flags: set<Flag>)
    requires Sorted(mem) && NonEmpty(mem) && i < |mem| && mem[i].start < lo < mem[i].end
    ensures var mem' := FlagTail(mem, i, lo, flags);
            && Sorted(mem') && NonEmpty(mem') && References(mem') == References(mem) + References([mem[i]])
            && Reflags(mem, mem', i, lo, mem[i].end, flags)
  {
    hide Insert, Lookup, Sorted, References, PageReflags, Free;
    CutOff(mem, i, mem[i].(end := lo), TailPart(mem[i], lo, flags));
    forall a: nat
      ensures PageReflags(mem, FlagTail(mem, i, lo, flags), i, lo, mem[i].end, flags, a)
    {
      FlagTailPage(mem, i, lo, flags, a);
    }
  }

  lemma FlagHeadPage(mem: seq<Region>, i: nat, hi: nat, flags: set<Flag>, addr: nat, a: nat)
    requires Sorted(mem) && NonEmpty(mem) && i < |mem| && addr <= mem[i].start < hi < mem[i].end
    ensures PageReflags(mem, FlagHead(mem, i, hi, flags), i, addr, hi, flags, a)
  {
    hide Insert, Lookup, Sorted;
    CutOffPage(mem, i, Rest(mem[i], hi), HeadPart(mem[i], hi, flags), a);
    if hi <= a < mem[i].end { LookupIs(mem, i, a); }
  }

  lemma FlagHeadReflags(mem: seq<Region>, i: nat, hi: nat, flags: set<Flag>, addr: nat)
    requires Sorted(mem) && NonEmpty(mem) && i < |mem| && addr <= mem[i].start < hi < mem[i].end
    ensures var mem' := FlagHead(mem, i, hi, flags);
            && Sorted(mem') && NonEmpty(mem') && References(mem') == References(mem) + References([mem[i]])
            && Reflags(mem, mem', i, addr, hi, flags)
  {
    hide Insert, Lookup, Sorted, References, PageReflags, Free;
    CutOff(mem, i, Rest(mem[i], hi), HeadPart(mem[i], hi, flags));
    forall a: nat
      ensures PageReflags(mem, FlagHead(mem, i, hi, flags), i, addr, hi, flags, a)
    {
      FlagHeadPage(mem, i, hi, flags, addr, a);
    }
  }

  // ---------------------------------------------------------------- the rounds of the loop

  lemma StillWas(was: seq<Region>, mem: seq<Region>, mem': seq<Region>, i: nat, r: Region, part: Region, upto: nat,
          x: Region)
    requires i < |mem| && (mem' == mem[i := r] || mem' == Insert(mem[i := r], part)) && r.start < upto
    requires part.start < upto
    requires x in mem' && upto <= x.start
    ensures x in mem
  {
    var cut := mem[i := r];
    if x in cut { var k :| 0 <= k < |cut| && cut[k] == x; assert mem[k] == x; }
  }

  lemma RoundTail(was: seq<Region>, mem: seq<Region>, lo: nat, addr: nat, hi: nat, flags: set<Flag>, i: nat)
    requires Protecting(was, mem, lo, addr, hi, flags) && addr < hi && First(mem, i, addr, hi) && mem[i].start < addr
    requires mem[i].end <= hi
    ensures addr < mem[i].end && Protecting(was, FlagTail(mem, i, addr, flags), lo, mem[i].end, hi, flags)
  {
    hide Lookup, DoneBelow, Insert, Reflags, References;
    Ready(was, mem, lo, addr, hi, flags, i);
    HitOverlaps(mem[i], addr, hi);
    FlagTailReflags(mem, i, addr, flags);
    var mem' := FlagTail(mem, i, addr, flags);
    Advance(was, mem, mem', lo, addr, hi, flags, i, mem[i].end);
    var r, part := mem[i].(end := addr), TailPart(mem[i], addr, flags);
    CutAround(mem, i, r, part);
    forall x | x in mem' && mem[i].end <= x.start
      ensures x in was
    {
      StillWas(was, mem, mem', i, r, part, mem[i].end, x);
    }
  }

  lemma CutAround(mem: seq<Region>, i: nat, r: Region, part: Region)
    requires Sorted(mem) && i < |mem| && Parts(mem[i], r, part)
    ensures Free(Insert(mem[i := r], part), mem[i].end, mem[i].end)
  {
    var cut := mem[i := r];
    InsertedAt(cut, part, 0);
    hide Insert, Position;
    forall j | 0 <= j < |Insert(cut, part)|
      ensures Insert(cut, part)[j].end <= mem[i].end || mem[i].end <= Insert(cut, part)[j].start
    {
      InsertedAt(cut, part, j);
    }
  }

  lemma RoundWhole(was: seq<Region>, mem: seq<Region>, lo: nat, addr: nat, hi: nat, flags: set<Flag>, i: nat)
    requires Protecting(was, mem, lo, addr, hi, flags) && addr < hi && First(mem, i, addr, hi) && addr <= mem[i].start
    requires mem[i].end <= hi
    ensures addr < mem[i].end && Protecting(was, FlagRegion(mem, i, flags), lo, mem[i].end, hi, flags)
  {
    hide Lookup, DoneBelow, Reflags, References;
    Ready(was, mem, lo, addr, hi, flags, i);
    HitOverlaps(mem[i], addr, hi);
    FlagRegionReflags(mem, i, flags, addr);
    var mem', r := FlagRegion(mem, i, flags), mem[i].(flags := NewFlags(mem[i].flags, flags));
    Advance(was, mem, mem', lo, addr, hi, flags, i, mem[i].end);
    forall x | x in mem' && mem[i].end <= x.start ensures x in was { StillWas(was, mem, mem', i, r, r, mem[i].end, x); }
  }

  lemma RoundHead(was: seq<Region>, mem: seq<Region>, lo: nat, addr: nat, hi: nat, flags: set<Flag>, i: nat)
    requires Protecting(was, mem, lo, addr, hi, flags) && addr < hi && First(mem, i, addr, hi)
    requires addr <= mem[i].start && hi < mem[i].end && Protectable(mem[i].kind)
    ensures mem[i].start < hi && Protected(was, FlagHead(mem, i, hi, flags), lo, hi, flags)
  {
    hide Lookup, DoneBelow, Insert, Reflags, References, Protected;
    Ready(was, mem, lo, addr, hi, flags, i);
    HitOverlaps(mem[i], addr, hi);
    FlagHeadReflags(mem, i, hi, flags, addr);
    Advance(was, mem, FlagHead(mem, i, hi, flags), lo, addr, hi, flags, i, hi);
    DoneAll(was, FlagHead(mem, i, hi, flags), lo, hi, flags);
  }

  /** A region behind the range's end that may not be cut ends the loop; its pages keep their flags. */
  lemma RoundStop(was: seq<Region>, mem: seq<Region>, lo: nat, addr: nat, hi: nat, flags: set<Flag>, i: nat)
    requires Protecting(was, mem, lo, addr, hi, flags) && addr < hi && First(mem, i, addr, hi)
    requires hi < mem[i].end && !Protectable(mem[i].kind)
    ensures Protected(was, mem, lo, hi, flags)
  {
    HitOverlaps(mem[i], addr, hi);
    if mem[i].start < addr {
      StopStrict(was, lo, hi, flags, i);
    } else {
      hide Lookup, DoneBelow, Protected;
      Ready(was, mem, lo, addr, hi, flags, i);
      StopDone(was, mem, lo, addr, hi, flags, i);
      DoneAll(was, mem, lo, hi, flags);
    }
  }

  lemma StopStrict(was: seq<Region>, lo: nat, hi: nat, flags: set<Flag>, i: nat)
    requires Sorted(was) && NonEmpty(was) && lo < hi && i < |was| && Strict(was[i], lo, hi) && !Protectable(was[i].kind)
    ensures Protected(was, was, lo, hi, flags)
  {
    forall a: nat ensures PageProtected(was, was, lo, hi, flags, a) {
      forall r | r in was && Covers(r, a) ensures !Reflagged(r, lo, hi, a) && Slip(r, lo, hi, a) == 0 {
        if lo <= a < hi { OneCovers(was, r, was[i], a); }
        if Strict(r, lo, hi) { OneStrict(was, r, was[i], lo, hi); }
      }
      hide PageProtected, Sorted;
      Untouched(was, was, lo, hi, flags, a);
    }
  }

  lemma StopDone(was: seq<Region>, mem: seq<Region>, lo: nat, addr: nat, hi: nat, flags: set<Flag>, i: nat)
    requires Sorted(was) && NoStrict(was, lo, hi) && DoneBelow(was, mem, lo, addr, hi, flags) && Sorted(mem)
    requires addr < hi && First(mem, i, addr, hi) && mem[i] in was && addr <= mem[i].start && hi < mem[i].end
    requires !Protectable(mem[i].kind)
    ensures DoneBelow(was, mem, lo, hi, hi, flags)
  {
    forall a: nat | addr <= a < hi ensures PageProtected(was, mem, lo, hi, flags, a) {
      hide PageProtected;
      if Covers(mem[i], a) {
        forall r | r in was && Covers(r, a) ensures r == mem[i] { OneCovers(was, r, mem[i], a); }
      } else {
        NothingBefore(mem, i, addr, hi, a);
        Uncovered(was, a);
      }
      hide Sorted, Lookup;
      Untouched(was, mem, lo, hi, flags, a);
    }
  }

  lemma RoundNone(was: seq<Region>, mem: seq<Region>, lo: nat, addr: nat, hi: nat, flags: set<Flag>)
    requires Protecting(was, mem, lo, addr, hi, flags) && lo < hi && (addr == hi || NoHits(mem, addr, hi))
    ensures Protected(was, mem, lo, hi, flags)
  {
    if addr == lo {
      assert NoStrict(was, lo, hi) by { assert forall k :: 0 <= k < |mem| ==> !Strict(mem[k], lo, hi); }
      StartDone(was, lo, hi, flags);
    }
    if addr < hi { NoneDone(was, mem, lo, addr, hi, flags); }
    hide DoneBelow, Protected;
    DoneAll(was, mem, lo, hi, flags);
  }

  lemma NoneDone(was: seq<Region>, mem: seq<Region>, lo: nat, addr: nat, hi: nat, flags: set<Flag>)
    requires Sorted(was) && DoneBelow(was, mem, lo, addr, hi, flags) && Sorted(mem) && addr < hi
    requires NoHits(mem, addr, hi)
    ensures DoneBelow(was, mem, lo, hi, hi, flags)
  {
    forall a: nat | addr <= a < hi ensures PageProtected(was, mem, lo, hi, flags, a) {
      LookupNone(mem, a);
      forall j | 0 <= j < |mem| ensures !Covers(mem[j], a) { NotHit(mem[j], addr, hi); }
      Uncovered(was, a);
    }
  }

  // ---------------------------------------------------------------- a range strictly inside one region

  function LowPart(x: Region, lo: nat): (r: Region) { x.(end := lo, offset := x.offset + x.start - lo) }

  function MidPart(x: Region, lo: nat, hi: nat, flags: set<Flag>): (r: Region) {
    x.(start := lo, end := hi, flags := NewFlags(x.flags, flags))
  }

  function HighPart(x: Region, hi: nat): (r: Region) { x.(start := hi) }

  /** Region i in three: the middle part is linked in before the region is cut. */
  function FlagMiddle(mem: seq<Region>, i: nat, lo: nat, hi: nat, flags: set<Flag>): (r: seq<Region>)
    requires i < |mem|
    ensures |Insert(mem, MidPart(mem[i], lo, hi, flags))| == |mem| + 1
  {
    var s := Insert(mem, MidPart(mem[i], lo, hi, flags));
    Insert(s[i := LowPart(mem[i], lo)], HighPart(mem[i], hi))
  }

  lemma SamePosition(mem: seq<Region>, i: nat, r: Region, end: nat)
    requires i < |mem| && r.start == mem[i].start
    ensures Position(mem[i := r], end) == Position(mem, end)
  {
    PositionIs(mem[i := r], end, Position(mem, end));
  }

  /** It makes no difference that the region is cut only afterwards. */
  lemma CutLater(mem: seq<Region>, i: nat, r: Region, part: Region)
    requires Sorted(mem) && i < |mem| && r.start == mem[i].start < part.end
    ensures |Insert(mem, part)| == |mem| + 1 && Insert(mem[i := r], part) == Insert(mem, part)[i := r]
  {
    SamePosition(mem, i, r, part.end);
    var p := Position(mem, part.end);
    assert i < p;
    hide Position;
    var s, t := Insert(mem[i := r], part), Insert(mem, part)[i := r];
    assert |s| == |t|;
    forall j | 0 <= j < |s| ensures s[j] == t[j] {}
  }

  lemma FlagMiddlePage(mem: seq<Region>, i: nat, lo: nat, hi: nat, flags: set<Flag>, a: nat)
    requires Sorted(mem) && NonEmpty(mem) && i < |mem| && Strict(mem[i], lo, hi) && lo < hi
    ensures Lookup(FlagMiddle(mem, i, lo, hi, flags), a) ==
            if !Covers(mem[i], a) then Lookup(mem, a)
            else Some(if a < lo then InfoOf(LowPart(mem[i], lo), a)
                else if a < hi then InfoOf(MidPart(mem[i], lo, hi, flags), a)
                      else InfoOf(HighPart(mem[i], hi), a))
  {
    var x, low, mid, high := mem[i], LowPart(mem[i], lo), MidPart(mem[i], lo, hi, flags), HighPart(mem[i], hi);
    MiddleFree(mem, i, lo, hi, flags);
    CutLater(mem, i, low, mid);
    hide Insert, Lookup, Sorted, Free, InfoOf, NonEmpty;
    Trimmed(mem, i, low, a);
    Inserted(mem[i := low], mid, a);
    Inserted(Insert(mem[i := low], mid), high, a);
  }

  lemma MiddleFree(mem: seq<Region>, i: nat, lo: nat, hi: nat, flags: set<Flag>)
    requires Sorted(mem) && NonEmpty(mem) && i < |mem| && Strict(mem[i], lo, hi) && lo < hi
    ensures var low, mid, high := LowPart(mem[i], lo), MidPart(mem[i], lo, hi, flags), HighPart(mem[i], hi);
            var cut := mem[i := low];
            && Sorted(cut) && Free(cut, lo, hi) && Sorted(Insert(cut, mid)) && Free(Insert(cut, mid), hi, mem[i].end)
            && NonEmpty(Insert(Insert(cut, mid), high)) && Sorted(Insert(Insert(cut, mid), high))
  {
    var low, mid, high := LowPart(mem[i], lo), MidPart(mem[i], lo, hi, flags), HighPart(mem[i], hi);
    var cut := mem[i := low];
    assert Free(cut, lo, hi) && Free(cut, hi, mem[i].end) && NonEmpty(cut);
    Trimmed(mem, i, low, 0);
    InsertedSorted(cut, mid);
    NonEmptyInserted(cut, mid);
    InsertedAt(cut, mid, 0);
    hide Insert, Position;
    forall j | 0 <= j < |Insert(cut, mid)|
      ensures Insert(cut, mid)[j].end <= hi || mem[i].end <= Insert(cut, mid)[j].start
    {
      InsertedAt(cut, mid, j);
    }
    hide Sorted, NonEmpty, Free;
    InsertedSorted(Insert(cut, mid), high);
    NonEmptyInserted(Insert(cut, mid), high);
  }

  lemma MiddleReferences(mem: seq<Region>, i: nat, lo: nat, hi: nat, flags: set<Flag>)
    requires i < |mem| && Sorted(mem) && Strict(mem[i], lo, hi) && lo < hi
    ensures References(FlagMiddle(mem, i, lo, hi, flags)) ==
        References(mem) + References([mem[i]]) + References([mem[i]])
  {
    var low, mid, high := LowPart(mem[i], lo), MidPart(mem[i], lo, hi, flags), HighPart(mem[i], hi);
    assert [mid][1..] == [] && [high][1..] == [] && [mem[i]][1..] == [];
    assert References([mid]) == References([mem[i]]) == References([high]);
    hide References, Insert, Sorted;
    CutLater(mem, i, low, mid);
    TrimmedReferences(mem, i, low);
    InsertedReferences(mem[i := low], mid);
    InsertedReferences(Insert(mem[i := low], mid), high);
  }

  /** The range strictly inside one region that may be cut: the right pages get the flags, but all parts are
      backed from too low. */
  lemma RoundMiddle(was: seq<Region>, mem: seq<Region>, lo: nat, addr: nat, hi: nat, flags: set<Flag>, i: nat)
    requires Protecting(was, mem, lo, addr, hi, flags) && addr < hi && First(mem, i, addr, hi)
    requires Strict(mem[i], addr, hi) && Protectable(mem[i].kind)
    ensures Protected(was, FlagMiddle(mem, i, addr, hi, flags), lo, hi, flags)
  {
    assert addr == lo && mem == was;
    var mem' := FlagMiddle(mem, i, lo, hi, flags);
    MiddleFree(mem, i, lo, hi, flags);
    CutLater(mem, i, LowPart(mem[i], lo), MidPart(mem[i], lo, hi, flags));
    assert Sorted(mem') && NonEmpty(mem');
    hide FlagMiddle, Lookup, DoneBelow;
    forall a: nat ensures PageProtected(was, mem', lo, hi, flags, a) { MiddlePage(was, lo, hi, flags, i, a); }
  }

  lemma MiddlePage(was: seq<Region>, lo: nat, hi: nat, flags: set<Flag>, i: nat, a: nat)
    requires Sorted(was) && NonEmpty(was) && lo < hi && i < |was| && Strict(was[i], lo, hi) && Protectable(was[i].kind)
    ensures PageProtected(was, FlagMiddle(was, i, lo, hi, flags), lo, hi, flags, a)
  {
    hide Lookup, FlagMiddle;
    FlagMiddlePage(was, i, lo, hi, flags, a);
    if Covers(was[i], a) {
      LookupIs(was, i, a);
      forall r | r in was && Covers(r, a) ensures r == was[i] { OneCovers(was, r, was[i], a); }
    } else {
      forall r | r in was && Covers(r, a) ensures !Strict(r, lo, hi) && !(lo <= a < hi) {
        if Strict(r, lo, hi) { OneStrict(was, r, was[i], lo, hi); }
      }
      hide Sorted, PageProtected, NonEmpty;
      Untouched(was, FlagMiddle(was, i, lo, hi, flags), lo, hi, flags, a);
    }
  }

  /** A region that is cut: it reaches past the end of the range and may be cut there, or it ends in the range
      and begins before it. */
  predicate IsCut(r: Region, lo: nat, hi: nat) { if hi < r.end then Protectable(r.kind) else r.start < lo }

  /** A region that is cut has an object, to which its parts then each hold a reference. */
  ghost predicate Cuttable(mem: seq<Region>, lo: nat, hi: nat) {
    forall r :: r in mem && lo < r.end && r.start < hi && IsCut(r, lo, hi) ==> r.obj.Some?
  }

  lemma CutHasObject(was: seq<Region>, mem: seq<Region>, lo: nat, addr: nat, hi: nat, flags: set<Flag>, i: nat)
    requires Protecting(was, mem, lo, addr, hi, flags) && addr < hi && First(mem, i, addr, hi) && Cuttable(was, lo, hi)
    requires IsCut(mem[i], addr, hi)
    ensures mem[i].obj.Some?
  {
    HitOverlaps(mem[i], addr, hi);
    if !Strict(mem[i], addr, hi) { Ready(was, mem, lo, addr, hi, flags, i); }
  }

  /** Over regions that may all be cut, every mapped page of the range gets the new flags, and every page keeps
      the object page behind it if and only if no region strictly contains the range. */
  lemma ProtectMeans(was: seq<Region>, mem: seq<Region>, lo: nat, hi: nat, flags: set<Flag>)
    requires Sorted(was) && lo < hi && Protected(was, mem, lo, hi, flags)
    requires forall r :: r in was ==> Protectable(r.kind)
    ensures forall a: nat :: PageMeans(was, mem, lo, hi, flags, a)
    ensures (forall a: nat :: SameBacking(was, mem, a)) <==> NoStrict(was, lo, hi)
  {
    forall a: nat ensures PageMeans(was, mem, lo, hi, flags, a) { PageMeant(was, mem, lo, hi, flags, a); }
    if NoStrict(was, lo, hi) {
      hide Lookup;
      forall a: nat ensures SameBacking(was, mem, a) { assert PageMeans(was, mem, lo, hi, flags, a); }
    } else {
      var k :| 0 <= k < |was| && Strict(was[k], lo, hi);
      hide Lookup;
      LookupIs(was, k, lo);
      assert was[k] in was && PageProtected(was, mem, lo, hi, flags, lo);
      assert !SameBacking(was, mem, lo);
    }
  }

  ghost predicate SameBacking(was: seq<Region>, mem: seq<Region>, a: nat) {
    Lookup(was, a).Some? ==> Lookup(mem, a).Some? && Lookup(mem, a).value.offset == Lookup(was, a).value.offset
  }

  ghost predicate PageMeans(was: seq<Region>, mem: seq<Region>, lo: nat, hi: nat, flags: set<Flag>, a: nat) {
    && (Lookup(mem, a).Some? <==> Lookup(was, a).Some?)
    && (Lookup(was, a).Some? ==>
          var i, j := Lookup(was, a).value, Lookup(mem, a).value;
          && j.kind == i.kind && j.obj == i.obj
          && (forall f: Flag :: f in j.flags <==> if lo <= a < hi then f in flags || (f == Stack && f in i.flags)
                                                else f in i.flags)
          && (NoStrict(was, lo, hi) ==> j.offset == i.offset))
  }

  lemma PageMeant(was: seq<Region>, mem: seq<Region>, lo: nat, hi: nat, flags: set<Flag>, a: nat)
    requires Sorted(was) && Protected(was, mem, lo, hi, flags) && forall r :: r in was ==> Protectable(r.kind)
    ensures PageMeans(was, mem, lo, hi, flags, a)
  {
    assert PageProtected(was, mem, lo, hi, flags, a);
    LookupNone(was, a);
    if Lookup(was, a).Some? {
      var k :| 0 <= k < |was| && Covers(was[k], a);
      hide Lookup;
      LookupIs(was, k, a);
      assert was[k] in was;
    }
  }

  /** What becomes of the flags of a page, flag by flag: in the range the new ones, and of the old ones only the
      stack flag, unless its region ends behind the range and is none of the three kinds that may be cut. */
  ghost predicate FlagsAfter(was: seq<Region>, mem: seq<Region>, lo: nat, hi: nat, flags: set<Flag>, a: nat) {
    forall r :: r in was && Covers(r, a) ==>
      && Lookup(mem, a).Some?
      && forall f: Flag ::
           f in Lookup(mem, a).value.flags <==>
           if lo <= a < hi && (r.end <= hi || r.kind == AnonMapping || r.kind == TaskStack || r.kind == StackGuard)
           then f in flags || (f == Stack && f in r.flags)
           else f in r.flags
  }

  ghost predicate AllFlagsAfter(was: seq<Region>, mem: seq<Region>, lo: nat, hi: nat, flags: set<Flag>) {
    forall a: nat :: FlagsAfter(was, mem, lo, hi, flags, a)
  }

  lemma FlagsMeant(was: seq<Region>, mem: seq<Region>, lo: nat, hi: nat, flags: set<Flag>)
    requires Protected(was, mem, lo, hi, flags)
    ensures AllFlagsAfter(was, mem, lo, hi, flags)
  {
    hide Lookup, Protected, Sorted, NonEmpty;
    forall a: nat, r | r in was && Covers(r, a)
      ensures Lookup(mem, a) == Some(AfterProtect(r, lo, hi, flags, a))
    {
      ProtectedPage(was, mem, lo, hi, flags, r, a);
    }
  }

  lemma ProtectedPage(was: seq<Region>, mem: seq<Region>, lo: nat, hi: nat, flags: set<Flag>, r: Region, a: nat)
    requires Protected(was, mem, lo, hi, flags) && r in was && Covers(r, a)
    ensures Lookup(mem, a) == Some(AfterProtect(r, lo, hi, flags, a))
  {
    assert PageProtected(was, mem, lo, hi, flags, a);
  }

  /** The smallest instance: of three pages the middle one is protected, and the first is then recorded as backed by
      the page before the first of the object. */
  lemma ProtectMisplaces(mem: seq<Region>)
    requires Protected([ThreePages()], mem, 1, 2, {ProtNone})
    ensures Lookup([ThreePages()], 0) == Some(Info({}, AnonMapping, Some(7), 0))
    ensures Lookup(mem, 0) == Some(Info({}, AnonMapping, Some(7), -1))
    ensures Lookup(mem, 1) == Some(Info({ProtNone}, AnonMapping, Some(7), 0))
    ensures Lookup(mem, 2) == Some(Info({}, AnonMapping, Some(7), 0))
  {
    hide Protected, AfterProtect, Lookup, ThreePages;
    ThreeAfter();
    ProtectedPage([ThreePages()], mem, 1, 2, {ProtNone}, ThreePages(), 0);
    ProtectedPage([ThreePages()], mem, 1, 2, {ProtNone}, ThreePages(), 1);
    ProtectedPage([ThreePages()], mem, 1, 2, {ProtNone}, ThreePages(), 2);
  }

  lemma ThreeAfter()
    ensures Covers(ThreePages(), 0) && Covers(ThreePages(), 1) && Covers(ThreePages(), 2)
    ensures Lookup([ThreePages()], 0) == Some(Info({}, AnonMapping, Some(7), 0))
    ensures AfterProtect(ThreePages(), 1, 2, {ProtNone}, 0) == Info({}, AnonMapping, Some(7), -1)
    ensures AfterProtect(ThreePages(), 1, 2, {ProtNone}, 1) == Info({ProtNone}, AnonMapping, Some(7), 0)
    ensures AfterProtect(ThreePages(), 1, 2, {ProtNone}, 2) == Info({}, AnonMapping, Some(7), 0)
  {
    assert NewFlags({}, {ProtNone}) == {ProtNone};
  }
}
