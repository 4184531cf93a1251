/** Reference-counted directory entries (kernel/fs/tnode.c): an entry is counted once for every child and once for
    every holder outside the tree. */
module TnodeTree {
  import opened Common
  import opened PathWalk

  datatype Tnode = Tnode(name: string, inode: nat, parent: Option<nat>, mount: nat, count: nat)

  type Nodes = map<nat, Tnode>

  ghost function Children(nodes: Nodes, id: nat): (r: set<nat>) { set c | c in nodes && nodes[c].parent == Some(id) }

  /** Parents exist and are older. */
  ghost predicate Forest(nodes: Nodes) {
    forall id :: id in nodes && nodes[id].parent.Some? ==>
      nodes[id].parent.value in nodes && nodes[id].parent.value < id
  }

  ghost predicate CountOk(nodes: Nodes, outside: multiset<nat>, id: nat)
    requires id in nodes
  {
    nodes[id].count == |Children(nodes, id)| + outside[id] && 0 < nodes[id].count
  }

  /** Every count is the number of children and outside holders, and never zero. */
  ghost predicate Counted(nodes: Nodes, outside: multiset<nat>) {
    && Forest(nodes) && (forall id :: id in nodes ==> CountOk(nodes, outside, id))
    && forall id :: id in outside ==> id in nodes
  }

  function BumpNode(nodes: Nodes, id: nat): (r: Nodes) {
    if id in nodes then nodes[id := nodes[id].(count := nodes[id].count + 1)] else nodes
  }

  /** The new entry takes over the reference to its parent. */
  function CreateNode(nodes: Nodes, id: nat, name: string, parent: nat, inode: nat, mount: nat): (r: Nodes) {
    nodes[id := Tnode(name, inode, Some(parent), mount, 1)]
  }

  /** The last reference to an entry releases its reference to the parent. */
  function DropNode(nodes: Nodes, id: nat): (r: Nodes)
    decreases id
  {
    if id !in nodes || nodes[id].count == 0 then nodes
    else if nodes[id].count > 1 then nodes[id := nodes[id].(count := nodes[id].count - 1)]
    else if nodes[id].parent.Some? && nodes[id].parent.value < id then DropNode(nodes - {id}, nodes[id].parent.value)
    else nodes - {id}
  }

  /** Entries present in both are the same but for their counts. */
  ghost predicate Agree(nodes: Nodes, nodes': Nodes) {
    forall id :: id in nodes && id in nodes' ==> nodes'[id] == nodes[id].(count := nodes'[id].count)
  }

  // ---------------------------------------------------------------- what the steps keep

  lemma BumpCounted(nodes: Nodes, outside: multiset<nat>, id: nat)
    requires Counted(nodes, outside) && id in nodes
    ensures Counted(BumpNode(nodes, id), outside + multiset{id}) && Agree(nodes, BumpNode(nodes, id))
  {
    var nodes' := BumpNode(nodes, id);
    forall x | x in nodes' ensures CountOk(nodes', outside + multiset{id}, x) {
      assert CountOk(nodes, outside, x) && Children(nodes', x) == Children(nodes, x);
    }
  }

  lemma CreateCounted(nodes: Nodes, outside: multiset<nat>, id: nat, name: string, parent: nat, inode: nat, mount: nat)
    requires Counted(nodes, outside + multiset{parent}) && id !in nodes && parent < id
    ensures Counted(CreateNode(nodes, id, name, parent, inode, mount), outside + multiset{id})
    ensures Agree(nodes, CreateNode(nodes, id, name, parent, inode, mount))
  {
    var nodes' := CreateNode(nodes, id, name, parent, inode, mount);
    assert parent in outside + multiset{parent};
    assert outside[id] == 0 by { assert id !in outside + multiset{parent}; }
    assert Forest(nodes');
    assert NoChildren(nodes, id) by { assert forall c :: c in nodes ==> nodes[c].parent != Some(id); }
    hide Forest;
    forall x | x in nodes' ensures CountOk(nodes', outside + multiset{id}, x) {
      if x != id { assert CountOk(nodes, outside + multiset{parent}, x); }
      CreateCount(nodes, outside, id, name, parent, inode, mount, x);
    }
  }

  ghost predicate NoChildren(nodes: Nodes, id: nat) { Children(nodes, id) == {} }

  lemma CreateCount(nodes: Nodes, outside: multiset<nat>, id: nat, name: string, parent: nat, inode: nat, mount: nat,
          x: nat)
    requires id !in nodes && outside[id] == 0 && NoChildren(nodes, id) && parent != id
    requires x == id || (x in nodes && CountOk(nodes, outside + multiset{parent}, x))
    ensures CountOk(CreateNode(nodes, id, name, parent, inode, mount), outside + multiset{id}, x)
  {
    var nodes' := CreateNode(nodes, id, name, parent, inode, mount);
    assert Children(nodes', x) == Children(nodes, x) + (if x == parent then {id} else {});
    assert id !in Children(nodes, x);
  }

  lemma RemoveCounted(nodes: Nodes, outside: multiset<nat>, id: nat)
    requires Counted(nodes, outside + multiset{id}) && id in nodes && nodes[id].count == 1
    ensures Counted(nodes - {id}, if nodes[id].parent.Some? then outside + multiset{nodes[id].parent.value}
        else outside)
  {
    var nodes', out := nodes - {id}, if nodes[id].parent.Some? then outside + multiset{nodes[id].parent.value}
        else outside;
    assert CountOk(nodes, outside + multiset{id}, id);
    assert Children(nodes, id) == {} && outside[id] == 0;
    assert Forest(nodes') by {
      forall x | x in nodes' && nodes'[x].parent.Some?
        ensures nodes'[x].parent.value in nodes' && nodes'[x].parent.value < x
      {
        assert nodes[x].parent != Some(id) by { assert x !in Children(nodes, id); }
      }
    }
    forall x | x in nodes' ensures CountOk(nodes', out, x) {
      assert CountOk(nodes, outside + multiset{id}, x);
      assert Children(nodes', x) == Children(nodes, x) - {id};
      assert id in Children(nodes, x) <==> nodes[id].parent == Some(x);
    }
    forall x | x in out ensures x in nodes' { assert x in outside + multiset{id} || nodes[id].parent == Some(x); }
  }

  /** Dropping one reference leaves the counts right for the holders that remain. */
  lemma {:induction false} DropCounted(nodes: Nodes, outside: multiset<nat>, id: nat)
    requires Counted(nodes, outside + multiset{id})
    ensures Counted(DropNode(nodes, id), outside) && Agree(nodes, DropNode(nodes, id))
    ensures DropNode(nodes, id).Keys <= nodes.Keys
    decreases id
  {
    assert id in outside + multiset{id};
    assert CountOk(nodes, outside + multiset{id}, id);
    if nodes[id].count > 1 {
      DropOne(nodes, outside, id);
    } else {
      RemoveCounted(nodes, outside, id);
      if nodes[id].parent.Some? { DropCounted(nodes - {id}, outside, nodes[id].parent.value); }
    }
  }

  lemma DropOne(nodes: Nodes, outside: multiset<nat>, id: nat)
    requires Counted(nodes, outside + multiset{id}) && id in nodes && nodes[id].count > 1
    ensures Counted(nodes[id := nodes[id].(count := nodes[id].count - 1)], outside)
  {
    var nodes' := nodes[id := nodes[id].(count := nodes[id].count - 1)];
    forall x | x in nodes' ensures CountOk(nodes', outside, x) {
      assert CountOk(nodes, outside + multiset{id}, x) && Children(nodes', x) == Children(nodes, x);
    }
    forall x | x in outside ensures x in nodes' { assert x in outside + multiset{id}; }
  }

  // ---------------------------------------------------------------- chains

  ghost function ChainOf(nodes: Nodes, id: nat): (r: Chain)
    requires Forest(nodes) && id in nodes
    decreases id
  {
    var t := nodes[id];
    if t.parent.None? then Root(t.inode, t.mount) else Entry(ChainOf(nodes, t.parent.value), t.name, t.inode, t.mount)
  }

  lemma {:induction false} ChainSame(nodes: Nodes, nodes': Nodes, id: nat)
    requires Forest(nodes) && Forest(nodes') && Agree(nodes, nodes') && id in nodes && id in nodes'
    ensures ChainOf(nodes', id) == ChainOf(nodes, id)
    decreases id
  {
    if nodes[id].parent.Some? { ChainSame(nodes, nodes', nodes[id].parent.value); }
  }

  // ---------------------------------------------------------------- the holders determine the tree

  /** An entry that is counted is on the way to one that is held from outside. */
  lemma {:induction false} StillNeeded(nodes: Nodes, nodes': Nodes, outside: multiset<nat>, id: nat, bound: nat)
    requires Counted(nodes, outside) && Counted(nodes', outside) && Agree(nodes, nodes') && id in nodes
    requires forall x :: x in nodes ==> x < bound
    ensures id in nodes'
    decreases bound - id
  {
    assert CountOk(nodes, outside, id);
    if outside[id] == 0 {
      var c :| c in Children(nodes, id);
      StillNeeded(nodes, nodes', outside, c, bound);
    }
  }

  /** Two trees that agree on what they share and have the same outside holders are the same tree. */
  lemma SameHolders(nodes: Nodes, nodes': Nodes, outside: multiset<nat>, bound: nat)
    requires Counted(nodes, outside) && Counted(nodes', outside) && Agree(nodes, nodes')
    requires (forall x :: x in nodes ==> x < bound) && (forall x :: x in nodes' ==> x < bound)
    ensures nodes' == nodes
  {
    forall id | id in nodes ensures id in nodes' { StillNeeded(nodes, nodes', outside, id, bound); }
    forall id | id in nodes' ensures id in nodes { StillNeeded(nodes', nodes, outside, id, bound); }
    forall id | id in nodes ensures nodes'[id] == nodes[id] {
      assert CountOk(nodes, outside, id) && CountOk(nodes', outside, id);
      assert Children(nodes', id) == Children(nodes, id);
    }
  }
}
