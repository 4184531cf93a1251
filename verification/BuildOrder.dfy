/** The port manager's build order (gen/port_manager/context.cpp): a depth-first topological sort that stops at a
    cycle. */
module BuildOrder {
  /** Dependencies by port. */
  type Graph = map<nat, seq<nat>>

  /** Every dependency is a known port. */
  ghost predicate Loaded(g: Graph) { forall p, d :: p in g && d in g[p] ==> d in g }

  predicate Depends(g: Graph, p: nat, d: nat) { p in g && d in g[p] }

  /** A chain of dependencies. */
  ghost predicate Path(g: Graph, path: seq<nat>) {
    && path != [] && (forall x :: x in path ==> x in g)
    && forall i :: 0 <= i < |path| - 1 ==> Depends(g, path[i], path[i + 1])
  }

  ghost predicate Reaches(g: Graph, a: nat, b: nat) { exists p :: Path(g, p) && p[0] == a && p[|p| - 1] == b }

  ghost predicate Cycle(g: Graph, path: seq<nat>) { Path(g, path) && 1 < |path| && path[0] == path[|path| - 1] }

  /** A cycle can be reached from port h. */
  ghost predicate Cyclic(g: Graph, h: nat) { exists c :: Cycle(g, c) && Reaches(g, h, c[0]) }

  ghost predicate Distinct(s: seq<nat>) { forall i, j :: 0 <= i < j < |s| ==> s[i] != s[j] }

  /** Everything a port needs comes before it. */
  ghost predicate Ordered(g: Graph, s: seq<nat>) {
    (forall x :: x in s ==> x in g) && forall i, d :: 0 <= i < |s| && d in g[s[i]] ==> d in s[..i]
  }

  lemma ReachSelf(g: Graph, a: nat)
    requires a in g
    ensures Reaches(g, a, a)
  {
    assert Path(g, [a]);
  }

  lemma ReachStep(g: Graph, a: nat, b: nat, c: nat)
    requires Reaches(g, a, b) && Depends(g, b, c) && c in g
    ensures Reaches(g, a, c)
  {
    var p :| Path(g, p) && p[0] == a && p[|p| - 1] == b;
    var q := p + [c];
    assert Path(g, q) by {
      forall i | 0 <= i < |q| - 1 ensures Depends(g, q[i], q[i + 1]) { if i < |p| - 1 { assert q[i + 1] == p[i + 1]; } }
    }
  }

  lemma {:induction false} ReachTwice(g: Graph, a: nat, b: nat, p: seq<nat>)
    requires Reaches(g, a, b) && Path(g, p) && p[0] == b
    ensures Reaches(g, a, p[|p| - 1])
    decreases |p|
  {
    if |p| > 1 {
      var q := p[..|p| - 1];
      assert Path(g, q);
      ReachTwice(g, a, b, q);
      assert Depends(g, p[|p| - 2], p[|p| - 1]);
      ReachStep(g, a, p[|p| - 2], p[|p| - 1]);
    }
  }

  // ---------------------------------------------------------------- an order excludes cycles

  /** Along a chain the position in an order falls. */
  lemma {:induction false} Falls(g: Graph, s: seq<nat>, path: seq<nat>, i: nat)
    requires Ordered(g, s) && Distinct(s) && Path(g, path) && i < |s| && path[0] == s[i]
    ensures path[|path| - 1] in s[..i + 1] && (1 < |path| ==> path[|path| - 1] in s[..i])
    decreases |path|
  {
    if |path| == 1 {
      assert s[..i + 1][i] == s[i];
    } else {
      var d := path[1];
      assert Depends(g, path[0], d) && d in s[..i];
      var j :| 0 <= j < i && s[j] == d;
      var rest := path[1..];
      assert Path(g, rest) by {
        forall k | 0 <= k < |rest| - 1
          ensures Depends(g, rest[k], rest[k + 1])
        {
          assert Depends(g, path[k + 1], path[k + 2]);
        }
      }
      Falls(g, s, rest, j);
      assert forall x :: x in s[..j + 1] ==> x in s[..i];
    }
  }

  lemma NoCycleInOrder(g: Graph, s: seq<nat>, c: seq<nat>)
    requires Ordered(g, s) && Distinct(s) && Cycle(g, c)
    ensures c[0] !in s
  {
    if c[0] in s {
      var i :| 0 <= i < |s| && s[i] == c[0];
      Falls(g, s, c, i);
    }
  }

  /** What can be reached from an ordered port is ordered. */
  lemma ReachInside(g: Graph, s: seq<nat>, h: nat, x: nat)
    requires Ordered(g, s) && Distinct(s) && h in s && Reaches(g, h, x)
    ensures x in s
  {
    var i :| 0 <= i < |s| && s[i] == h;
    var p :| Path(g, p) && p[0] == h && p[|p| - 1] == x;
    Falls(g, s, p, i);
    assert forall y :: y in s[..i + 1] ==> y in s;
  }

  // ---------------------------------------------------------------- the visit

  /** The ports being visited form a chain from the requested one. */
  ghost predicate Stack(g: Graph, root: nat, stack: seq<nat>, temp: set<nat>) {
    && (forall x :: x in temp <==> x in stack) && (stack != [] ==> Path(g, stack) && stack[0] == root)
  }

  class Sorter {
    const graph: Graph
    var unvisited: set<nat>
    var temp: set<nat>
    var order: seq<nat>

    constructor (graph: Graph)
      requires Loaded(graph)
      ensures this.graph == graph && Valid() && unvisited == graph.Keys && temp == {} && order == []
    {
      this.graph := graph;
      unvisited, temp, order := graph.Keys, {}, [];
    }

    /** The order holds exactly the visited ports, once each, dependencies first. */
    ghost predicate Valid()
      reads this
    {
      && Loaded(graph) && unvisited <= graph.Keys && temp <= unvisited
      && (forall x :: x in order <==> x in graph && x !in unvisited) && Distinct(order) && Ordered(graph, order)
    }

    /** Visits a port and everything it needs that was not visited yet. */
    method Visit(h: nat, ghost root: nat, ghost stack: seq<nat>) returns (ok: bool)
      requires Valid() && h in unvisited && h !in temp && Stack(graph, root, stack, temp)
      requires if stack == [] then h == root else Depends(graph, stack[|stack| - 1], h)
      modifies this
      ensures ok ==> Valid() && temp == old(temp) && unvisited < old(unvisited)
      ensures ok ==> old(order) < order && order[|order| - 1] == h
      ensures ok ==> forall x :: x in order ==> x in old(order) || Reaches(graph, h, x)
      ensures !ok ==> Cyclic(graph, root)
      decreases unvisited - temp
    {
      temp := temp + {h};
      ghost var path := stack + [h];
      ExtendStack(graph, root, stack, h, temp);
      ReachSelf(graph, h);
      var deps, i := graph[h], 0;
      while i < |deps|
        invariant i <= |deps| && Valid() && temp == old(temp) + {h} && unvisited <= old(unvisited)
        invariant forall k :: 0 <= k < i ==> deps[k] !in unvisited
        invariant old(order) <= order && forall x :: x in order ==> x in old(order) || Reaches(graph, h, x)
      {
        var d := deps[i];
        assert Depends(graph, h, d);
        i := i + 1;
        if d !in unvisited { continue; }
        if d in temp {
          StackCycle(graph, root, path, temp, d);
          return false;
        }
        ghost var before := order;
        var done := Visit(d, root, path);
        if !done { return false; }
        forall x | x in order ensures x in old(order) || Reaches(graph, h, x) {
          if x !in before { Onward(graph, h, d, x); }
        }
      }
      forall d | d in graph[h] ensures d in order { assert Depends(graph, h, d); }
      OrderedSnoc(graph, order, h);
      temp := temp - {h};
      unvisited := unvisited - {h};
      order := order + [h];
      ok := true;
    }
  }

  lemma OrderedSnoc(g: Graph, s: seq<nat>, h: nat)
    requires Ordered(g, s) && Distinct(s) && h !in s && h in g && forall d :: d in g[h] ==> d in s
    ensures Ordered(g, s + [h]) && Distinct(s + [h])
  {
    var t := s + [h];
    forall i, d | 0 <= i < |t| && d in g[t[i]] ensures d in t[..i] {
      if i < |s| { assert t[..i] == s[..i]; } else { assert t[..i] == s; }
    }
  }

  lemma ExtendStack(g: Graph, root: nat, stack: seq<nat>, h: nat, temp: set<nat>)
    requires h in g && Stack(g, root, stack, temp - {h}) && h in temp && h !in stack
    requires if stack == [] then h == root else Depends(g, stack[|stack| - 1], h)
    ensures Stack(g, root, stack + [h], temp)
  {
    var p := stack + [h];
    forall i | 0 <= i < |p| - 1
      ensures Depends(g, p[i], p[i + 1])
    {
      if i < |stack| - 1 { assert p[i + 1] == stack[i + 1]; }
    }
  }

  /** A dependency on a port being visited closes a cycle. */
  lemma StackCycle(g: Graph, root: nat, path: seq<nat>, temp: set<nat>, d: nat)
    requires Stack(g, root, path, temp) && path != [] && d in temp && Depends(g, path[|path| - 1], d) && d in g
    ensures Cyclic(g, root)
  {
    var i :| 0 <= i < |path| && path[i] == d;
    var c, pre := path[i..] + [d], path[..i + 1];
    assert Path(g, pre) by {
      forall k | 0 <= k < |pre| - 1 ensures Depends(g, pre[k], pre[k + 1]) { assert Depends(g, path[k], path[k + 1]); }
    }
    assert Path(g, c) by {
      forall k | 0 <= k < |c| - 1
        ensures Depends(g, c[k], c[k + 1])
      {
        if k < |c| - 2 { assert Depends(g, path[i + k], path[i + k + 1]); }
      }
    }
    assert Reaches(g, root, d);
    assert Cycle(g, c);
  }

  lemma Onward(g: Graph, h: nat, d: nat, x: nat)
    requires Loaded(g) && Depends(g, h, d) && Reaches(g, d, x)
    ensures Reaches(g, h, x)
  {
    ReachSelf(g, h);
    ReachStep(g, h, h, d);
    var p :| Path(g, p) && p[0] == d && p[|p| - 1] == x;
    ReachTwice(g, h, d, p);
  }

  /** Sorting succeeds if and only if no cycle can be reached from the requested port. Then every port it needs,
      however indirectly, is in the list once, after what it needs itself, and the requested port is last. */
  method BuildPort(g: Graph, h: nat) returns (ok: bool, order: seq<nat>)
    requires Loaded(g) && h in g
    ensures ok <==> !Cyclic(g, h)
    ensures ok ==> Distinct(order) && Ordered(g, order) && order != [] && order[|order| - 1] == h
    ensures ok ==> forall x :: x in order <==> Reaches(g, h, x)
  {
    var s := new Sorter(g);
    ok := s.Visit(h, h, []);
    order := s.order;
    if ok {
      assert h in order;
      forall x | Reaches(g, h, x) ensures x in order { ReachInside(g, order, h, x); }
      if Cyclic(g, h) {
        var c :| Cycle(g, c) && Reaches(g, h, c[0]);
        NoCycleInOrder(g, order, c);
      }
    }
  }
}
