/** The parser generator's propagation of symbol sets (gen/parser/extended_grammar.cpp): in each round only the
    edges whose source changed in the round before are looked at. Sets are named by numbers; an edge (t, s) says
    that set t includes set s. */
module SetPropagation {
  type Family = map<nat, set<nat>>

  type Edge = (nat, nat)

  ghost predicate Covered(edges: set<Edge>, sets: Family) { forall e :: e in edges ==> e.0 in sets && e.1 in sets }

  ghost predicate Satisfied(sets: Family, e: Edge)
    requires e.0 in sets && e.1 in sets
  {
    sets[e.1] <= sets[e.0]
  }

  /** a is pointwise included in b, over the same names. */
  ghost predicate Under(a: Family, b: Family) { a.Keys == b.Keys && forall x :: x in a ==> a[x] <= b[x] }

  /** Contains the seeds and is closed under all edges. */
  ghost predicate Solution(seeds: Family, edges: set<Edge>, sets: Family)
    requires Covered(edges, seeds)
  {
    Under(seeds, sets) && forall e :: e in edges ==> Satisfied(sets, e)
  }

  ghost predicate Least(seeds: Family, edges: set<Edge>, sets: Family)
    requires Covered(edges, seeds)
  {
    Solution(seeds, edges, sets) && forall other :: Solution(seeds, edges, other) ==> Under(sets, other)
  }

  /** There is one least solution, so the order in which edges are looked at cannot matter. */
  lemma LeastUnique(seeds: Family, edges: set<Edge>, a: Family, b: Family)
    requires Covered(edges, seeds) && Least(seeds, edges, a) && Least(seeds, edges, b)
    ensures a == b
  {
    assert Under(a, b) && Under(b, a);
    forall x | x in a ensures a[x] == b[x] {}
  }

  // ---------------------------------------------------------------- termination

  ghost function Union(sets: Family): (r: set<nat>) { set x, y | x in sets && y in sets[x] :: y }

  /** What could still be added, given all elements there are. */
  ghost function Missing(sets: Family, all: set<nat>): (r: set<(nat, nat)>) {
    set x, y | x in sets && y in all && y !in sets[x] :: (x, y)
  }

  lemma GrowShrinks(sets: Family, all: set<nat>, x: nat, bigger: set<nat>)
    requires x in sets && sets[x] < bigger <= all
    ensures |Missing(sets[x := bigger], all)| < |Missing(sets, all)|
  {
    var y :| y in bigger && y !in sets[x];
    var a, b := Missing(sets[x := bigger], all), Missing(sets, all);
    assert (x, y) in b && (x, y) !in a;
    assert a <= b - {(x, y)};
    SubsetSize(a, b - {(x, y)});
  }

  lemma {:induction false} SubsetSize<T>(a: set<T>, b: set<T>)
    requires a <= b
    ensures |a| <= |b|
    decreases |a|
  {
    if a != {} {
      var x :| x in a;
      SubsetSize(a - {x}, b - {x});
    }
  }

  // ---------------------------------------------------------------- the loops

  /** Adds what is missing, one element at a time, and says whether anything was. */
  method MakeUnion(s1: set<nat>, s2: set<nat>) returns (r: set<nat>, changed: bool)
    ensures r == s1 + s2 && (changed <==> s1 != r)
  {
    r, changed := s1, false;
    var todo := s2;
    ghost var added := 0;
    while todo != {}
      invariant s1 <= r && todo <= s2 && (forall y :: y in r ==> y in s1 || y in s2)
      invariant (forall y :: y in s2 ==> y in r || y in todo)
      invariant if changed then added in r && added !in s1 else r == s1
      decreases |todo|
    {
      var x :| x in todo;
      todo := todo - {x};
      if x !in r {
        r := r + {x};
        changed := true;
        added := x;
      }
    }
  }

  /** Where a round stands: an edge that is not satisfied has a source that changed in this round, or is still to
      be looked at. */
  ghost predicate Pending(sets: Family, e: Edge, now: set<nat>, todo: set<Edge>, live: bool)
    requires e.0 in sets && e.1 in sets
  {
    Satisfied(sets, e) || e.1 in now || (e in todo && live)
  }

  /** What holds all the time: between the seeds and every solution, over the elements there are. */
  ghost predicate Between(seeds: Family, edges: set<Edge>, sets: Family, all: set<nat>)
    requires Covered(edges, seeds)
  {
    && Under(seeds, sets) && (forall x :: x in sets ==> sets[x] <= all)
    && forall other :: Solution(seeds, edges, other) ==> Under(sets, other)
  }

  lemma Grow(seeds: Family, edges: set<Edge>, sets: Family, all: set<nat>, e: Edge)
    requires Covered(edges, seeds) && e in edges && Between(seeds, edges, sets, all)
    ensures e.0 in sets && e.1 in sets && Between(seeds, edges, sets[e.0 := sets[e.0] + sets[e.1]], all)
    ensures sets[e.0] != sets[e.0] + sets[e.1] ==>
              |Missing(sets[e.0 := sets[e.0] + sets[e.1]], all)| < |Missing(sets, all)|
  {
    var bigger := sets[e.0] + sets[e.1];
    var sets' := sets[e.0 := bigger];
    assert Under(seeds, sets');
    forall other | Solution(seeds, edges, other) ensures Under(sets', other) {
      assert Satisfied(other, e) && Under(sets, other);
    }
    hide Solution;
    if sets[e.0] != bigger { GrowShrinks(sets, all, e.0, bigger); }
  }

  lemma PendingAfter(sets: Family, e: Edge, bigger: set<nat>, f: Edge, now: set<nat>, todo: set<Edge>, live: bool)
    requires e.0 in sets && e.1 in sets && f.0 in sets && f.1 in sets && bigger == sets[e.0] + sets[e.1]
    requires Pending(sets, f, now, todo, live)
    ensures Pending(sets[e.0 := bigger], f, now + {e.0}, todo - {e}, live)
  {
  }

  ghost predicate AllPending(edges: set<Edge>, sets: Family, now: set<nat>, todo: set<Edge>, first: bool, was: set<nat>)
    requires Covered(edges, sets)
  {
    forall e :: e in edges ==> Pending(sets, e, now, todo, first || e.1 in was)
  }

  /** One round over the edges, in any order. */
  method Round(seeds: Family, edges: set<Edge>, start: Family, first: bool, was: set<nat>, ghost all: set<nat>)
    returns (sets: Family, now: set<nat>, did: bool)
    requires Covered(edges, seeds) && Covered(edges, start) && Between(seeds, edges, start, all)
    requires first || forall e :: e in edges ==> Satisfied(start, e) || e.1 in was
    ensures Covered(edges, sets) && Between(seeds, edges, sets, all)
    ensures forall e :: e in edges ==> Satisfied(sets, e) || e.1 in now
    ensures if did then |Missing(sets, all)| < |Missing(start, all)| else sets == start && now == {}
  {
    hide Between, Missing;
    sets, now, did := start, {}, false;
    var todo := edges;
    while todo != {}
      invariant todo <= edges && Covered(edges, sets) && Between(seeds, edges, sets, all)
      invariant AllPending(edges, sets, now, todo, first, was)
      invariant if did then |Missing(sets, all)| < |Missing(start, all)| else sets == start && now == {}
      decreases |todo|
    {
      var e :| e in todo;
      if first || e.1 in was {
        Grow(seeds, edges, sets, all, e);
        var bigger, changed := MakeUnion(sets[e.0], sets[e.1]);
        if changed {
          forall f | f in edges ensures Pending(sets[e.0 := bigger], f, now + {e.0}, todo - {e}, first || f.1 in was) {
            PendingAfter(sets, e, bigger, f, now, todo, first || f.1 in was);
          }
          sets := sets[e.0 := bigger];
          now := now + {e.0};
          did := true;
        }
      }
      todo := todo - {e};
    }
    forall e | e in edges
      ensures Satisfied(sets, e) || e.1 in now
    {
      assert Pending(sets, e, now, todo, first || e.1 in was);
    }
  }

  /** The sets after propagation are the least solution, whatever the order of the edges in each round. */
  method Propagate(seeds: Family, edges: set<Edge>) returns (sets: Family)
    requires Covered(edges, seeds)
    ensures Least(seeds, edges, sets)
  {
    ghost var all := Union(seeds);
    sets := seeds;
    var was: set<nat>, first := {}, true;
    assert Between(seeds, edges, sets, all);
    hide Missing;
    while true
      invariant Covered(edges, sets) && Between(seeds, edges, sets, all)
      invariant first || forall e :: e in edges ==> Satisfied(sets, e) || e.1 in was
      decreases |Missing(sets, all)|
    {
      var did;
      sets, was, did := Round(seeds, edges, sets, first, was, all);
      if !did { break; }
      first := false;
    }
  }

  // ---------------------------------------------------------------- what the least solution is

  /** A chain of names in which each includes the next. */
  ghost predicate Chain(edges: set<Edge>,
          c: seq<nat>) { c != [] && forall i :: 0 <= i < |c| - 1 ==> (c[i], c[i + 1]) in edges }

  /** Element x comes to set n from a seed along a chain. */
  ghost predicate Derived(seeds: Family, edges: set<Edge>, n: nat, x: nat) {
    exists c :: Chain(edges, c) && c[0] == n && c[|c| - 1] in seeds && x in seeds[c[|c| - 1]]
  }

  lemma {:induction false} ChainArrives(seeds: Family, edges: set<Edge>, sets: Family, c: seq<nat>, x: nat)
    requires Covered(edges, seeds) && Solution(seeds, edges, sets) && Chain(edges, c) && c[|c| - 1] in seeds
    requires x in seeds[c[|c| - 1]]
    ensures c[0] in sets && x in sets[c[0]]
    decreases |c|
  {
    if |c| > 1 {
      assert (c[0], c[1]) in edges;
      var rest := c[1..];
      assert Chain(edges, rest) by {
        assert forall i :: 0 <= i < |rest| - 1 ==> (rest[i], rest[i + 1]) == (c[i + 1], c[i + 2]);
      }
      ChainArrives(seeds, edges, sets, rest, x);
      assert Satisfied(sets, (c[0], c[1]));
    }
  }

  ghost function DerivedFamily(seeds: Family, edges: set<Edge>): (r: Family) {
    map n | n in seeds :: set x | x in Union(seeds) && Derived(seeds, edges, n, x)
  }

  lemma DerivedSolves(seeds: Family, edges: set<Edge>)
    requires Covered(edges, seeds)
    ensures Solution(seeds, edges, DerivedFamily(seeds, edges))
  {
    var r := DerivedFamily(seeds, edges);
    forall n | n in seeds ensures seeds[n] <= r[n] {
      forall x | x in seeds[n] ensures x in r[n] { assert Chain(edges, [n]); }
    }
    forall e | e in edges ensures Satisfied(r, e) {
      forall x | x in r[e.1] ensures x in r[e.0] {
        var c :| Chain(edges, c) && c[0] == e.1 && c[|c| - 1] in seeds && x in seeds[c[|c| - 1]];
        var d := [e.0] + c;
        assert Chain(edges, d) by {
          forall i | 0 <= i < |d| - 1
            ensures (d[i], d[i + 1]) in edges
          {
            if i > 0 { assert (d[i], d[i + 1]) == (c[i - 1], c[i]); }
          }
        }
      }
    }
  }

  /** An element is in a set of the least solution if and only if it comes there from a seed along the edges. */
  lemma LeastIsDerived(seeds: Family, edges: set<Edge>, sets: Family, n: nat, x: nat)
    requires Covered(edges, seeds) && Least(seeds, edges, sets) && n in seeds
    ensures n in sets && (x in sets[n] <==> Derived(seeds, edges, n, x))
  {
    DerivedSolves(seeds, edges);
    assert Under(sets, DerivedFamily(seeds, edges));
    if Derived(seeds, edges, n, x) {
      var c :| Chain(edges, c) && c[0] == n && c[|c| - 1] in seeds && x in seeds[c[|c| - 1]];
      ChainArrives(seeds, edges, sets, c, x);
    }
  }

  // ---------------------------------------------------------------- the edges for first sets

  datatype Rule = Rule(lhs: nat, parts: seq<nat>)

  /** Part j can come first in rule r: everything before it can be empty. */
  ghost predicate CanLead(r: Rule, empty: set<nat>, j: nat)
    requires j < |r.parts|
  {
    forall i :: 0 <= i < j ==> r.parts[i] in empty
  }

  ghost predicate FirstEdge(rules: seq<Rule>, n: nat, empty: set<nat>, e: Edge)
    requires n <= |rules|
  {
    exists k, j :: 0 <= k < n && 0 <= j < |rules[k].parts| && e == (rules[k].lhs, rules[k].parts[j])
        && CanLead(rules[k], empty, j)
  }

  /** The left side of a rule includes every part that can come first in it, and nothing else. */
  method FirstEdges(rules: seq<Rule>, empty: set<nat>) returns (edges: set<Edge>)
    ensures forall e :: e in edges <==> FirstEdge(rules, |rules|, empty, e)
  {
    edges := {};
    var k := 0;
    while k < |rules|
      invariant k <= |rules| && forall e :: e in edges <==> FirstEdge(rules, k, empty, e)
    {
      var r := rules[k];
      ghost var before := edges;
      var j, open := 0, true;
      while open && j < |r.parts|
        invariant j <= |r.parts| && (open ==> forall i :: 0 <= i < j ==> r.parts[i] in empty)
        invariant !open ==> 0 < j && r.parts[j - 1] !in empty
        invariant forall e :: e in edges <==> e in before || LeadEdge(r, empty, j, e)
      {
        edges := edges + {(r.lhs, r.parts[j])};
        open := r.parts[j] in empty;
        assert CanLead(r, empty, j);
        j := j + 1;
      }
      RuleEdges(rules, k, empty, j, open);
      k := k + 1;
    }
  }

  /** An edge to one of the first n parts of a rule. */
  ghost predicate LeadEdge(r: Rule, empty: set<nat>, n: nat, e: Edge)
    requires n <= |r.parts|
  {
    exists j :: 0 <= j < n && e == (r.lhs, r.parts[j]) && CanLead(r, empty, j)
  }

  lemma RuleEdges(rules: seq<Rule>, k: nat, empty: set<nat>, n: nat, open: bool)
    requires k < |rules| && n <= |rules[k].parts|
    requires if open then n == |rules[k].parts| else 0 < n && rules[k].parts[n - 1] !in empty
    ensures forall e :: FirstEdge(rules, k + 1, empty, e) <==>
              FirstEdge(rules, k, empty, e) || LeadEdge(rules[k], empty, n, e)
  {
    var r := rules[k];
    assert !open ==> forall j :: n <= j < |r.parts| ==> !CanLead(r, empty, j);
    forall e ensures FirstEdge(rules, k + 1, empty, e) <==> FirstEdge(rules, k, empty, e) || LeadEdge(r, empty, n, e) {
      if FirstEdge(rules, k + 1, empty, e) {
        var i, j :| 0 <= i < k + 1 && 0 <= j < |rules[i].parts| && e == (rules[i].lhs, rules[i].parts[j])
            && CanLead(rules[i], empty, j);
        if i == k { assert LeadEdge(r, empty, n, e); } else { assert FirstEdge(rules, k, empty, e); }
      }
    }
  }
}
